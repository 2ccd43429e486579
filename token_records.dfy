/** The per-credential usage record of the token pool and the pure rules over it:
    the calendar-day test, the ordering comparator, the selection walk, the
    per-token updates, the daily reset and the redacted status entry. */
module TokenRecords {
  import opened Wrappers
  import opened JsStrings

  /** Milliseconds in a calendar day. */
  const MsPerDay: int := 24 * 60 * 60 * 1000
  /** A quota block clears itself once its mark is older than four hours. */
  const QuotaCooldownMs: int := 4 * 60 * 60 * 1000
  /** One tenth of a minute, the unit usage is kept in. */
  const MsPerTenth: int := 6 * 1000
  /** The daily soft cap of 5 minutes, in tenths of a minute. */
  const DailyCapTenths: int := 50
  /** Offset of the process's local time from UTC; the model fixes it (no daylight saving). */
  const UtcOffsetMs: int := 0
  /** How many characters of a token a status entry shows. */
  const ShownPrefixLength: nat := 10

  /** One pool entry. `lastUsed` and `lastQuotaCheck` are instants in milliseconds since
      the epoch; an absent `quotaExceeded` is `false` and an absent `lastQuotaCheck` is None. */
  datatype TokenUsage = TokenUsage(
    token: string,
    usageTenths: int,
    lastUsed: int,
    inUse: bool,
    quotaExceeded: bool,
    lastQuotaCheck: Option<int>)

  /** The record a newly constructed manager gives each token. */
  function FreshRecord(token: string): TokenUsage
  {
    TokenUsage(token, 0, 0, false, false, None)
  }

  /** The local calendar day an instant falls on. */
  function DayOf(ms: int): int
  {
    (ms + UtcOffsetMs) / MsPerDay
  }

  /** Whether `ms` is on the same calendar day as `now`. */
  predicate IsSameDay(ms: int, now: int)
  {
    DayOf(ms) == DayOf(now)
  }

  /** `ms` is on the same day as `now` exactly when it lies between that day's midnight
      (included) and the next midnight (excluded). */
  lemma SameDayWindow(ms: int, now: int)
    ensures IsSameDay(ms, now) <==>
      DayOf(now) * MsPerDay <= ms + UtcOffsetMs < DayOf(now) * MsPerDay + MsPerDay
  {
    var d := DayOf(now);
    if d * MsPerDay <= ms + UtcOffsetMs < d * MsPerDay + MsPerDay {
      assert (ms + UtcOffsetMs) / MsPerDay == d;
    }
  }

  /** Two instants on one calendar day are less than a day apart. */
  lemma SameDayWithinADay(a: int, b: int)
    requires IsSameDay(a, b)
    ensures -MsPerDay < a - b < MsPerDay
  {
    var d := DayOf(b);
    assert d * MsPerDay <= a + UtcOffsetMs < d * MsPerDay + MsPerDay;
    assert d * MsPerDay <= b + UtcOffsetMs < d * MsPerDay + MsPerDay;
  }

  // ---------------------------------------------------------------- ordering

  /** The sort comparator: negative or zero keeps `a` before `b`. Usage differences
      in tenths have the sign of the differences in minutes. The quota flag decides first,
      then whether the token was used today; two records tie exactly when they agree on
      both and on the key of their tier (usage for today, last use otherwise). */
  function Compare(a: TokenUsage, b: TokenUsage, now: int): (r: int)
    ensures a.quotaExceeded != b.quotaExceeded ==> r != 0 && (r > 0 <==> a.quotaExceeded)
    ensures a.quotaExceeded == b.quotaExceeded && IsSameDay(a.lastUsed, now) != IsSameDay(b.lastUsed, now)
      ==> r != 0 && (r > 0 <==> IsSameDay(a.lastUsed, now))
    ensures r == 0 <==>
      && a.quotaExceeded == b.quotaExceeded
      && IsSameDay(a.lastUsed, now) == IsSameDay(b.lastUsed, now)
      && (if IsSameDay(a.lastUsed, now) then a.usageTenths == b.usageTenths else a.lastUsed == b.lastUsed)
  {
    if a.quotaExceeded && !b.quotaExceeded then 1
    else if !a.quotaExceeded && b.quotaExceeded then -1
    else
      var aToday := IsSameDay(a.lastUsed, now);
      var bToday := IsSameDay(b.lastUsed, now);
      if aToday && !bToday then 1
      else if !aToday && bToday then -1
      else if aToday && bToday then a.usageTenths - b.usageTenths
      else a.lastUsed - b.lastUsed
  }

  /** `a` may come before `b` in a pool sorted by the comparator. */
  predicate Before(a: TokenUsage, b: TokenUsage, now: int)
  {
    Compare(a, b, now) <= 0
  }

  /** The order as four tiers, stated without the comparator. */
  predicate TieredBefore(a: TokenUsage, b: TokenUsage, now: int)
  {
    var aToday := IsSameDay(a.lastUsed, now);
    var bToday := IsSameDay(b.lastUsed, now);
    if a.quotaExceeded != b.quotaExceeded then !a.quotaExceeded
    else if aToday != bToday then !aToday
    else if aToday then a.usageTenths <= b.usageTenths
    else a.lastUsed <= b.lastUsed
  }

  lemma CompareMeansTiers(a: TokenUsage, b: TokenUsage, now: int)
    ensures Before(a, b, now) <==> TieredBefore(a, b, now)
  {
  }

  lemma BeforeTotal(a: TokenUsage, b: TokenUsage, now: int)
    ensures Before(a, b, now) || Before(b, a, now)
  {
  }

  lemma BeforeTransitive(a: TokenUsage, b: TokenUsage, c: TokenUsage, now: int)
    requires Before(a, b, now) && Before(b, c, now)
    ensures Before(a, c, now)
  {
  }

  ghost predicate Sorted(s: seq<TokenUsage>, now: int)
  {
    forall i, j :: 0 <= i < j < |s| ==> Before(s[i], s[j], now)
  }

  /** What a sorted pool looks like, tier by tier. */
  lemma SortedTiers(s: seq<TokenUsage>, now: int, i: int, j: int)
    requires Sorted(s, now) && 0 <= i < j < |s|
    ensures s[i].quotaExceeded ==> s[j].quotaExceeded
    ensures (s[i].quotaExceeded == s[j].quotaExceeded && IsSameDay(s[i].lastUsed, now))
      ==> IsSameDay(s[j].lastUsed, now)
    ensures (s[i].quotaExceeded == s[j].quotaExceeded && IsSameDay(s[i].lastUsed, now)
             && IsSameDay(s[j].lastUsed, now))
      ==> s[i].usageTenths <= s[j].usageTenths
    ensures (s[i].quotaExceeded == s[j].quotaExceeded && !IsSameDay(s[i].lastUsed, now)
             && !IsSameDay(s[j].lastUsed, now))
      ==> s[i].lastUsed <= s[j].lastUsed
  {
    assert Before(s[i], s[j], now);
  }

  /** The pool holds each token string at most once. */
  ghost predicate DistinctTokens(s: seq<TokenUsage>)
  {
    forall i, j :: 0 <= i < |s| && 0 <= j < |s| && s[i].token == s[j].token ==> i == j
  }

  lemma {:induction false} DistinctAtMostOnce(s: seq<TokenUsage>, x: TokenUsage)
    requires DistinctTokens(s)
    ensures multiset(s)[x] <= 1
    decreases |s|
  {
    if s != [] {
      var init := s[..|s| - 1];
      assert s == init + [s[|s| - 1]];
      assert DistinctTokens(init);
      DistinctAtMostOnce(init, x);
      if s[|s| - 1] == x {
        assert x !in init;
      }
    }
  }

  lemma TwoIndicesInMultiset(s: seq<TokenUsage>, i: int, j: int)
    requires 0 <= i < j < |s|
    ensures multiset{s[i], s[j]} <= multiset(s)
  {
    assert s == s[..j] + [s[j]] + s[j + 1..];
    assert s[i] in s[..j];
    assert multiset{s[i]} <= multiset(s[..j]);
  }

  /** Where an entry of a pool went in a reordering of it. */
  lemma IndexInPermutation(a: seq<TokenUsage>, b: seq<TokenUsage>, i: int) returns (m: nat)
    requires multiset(a) == multiset(b) && 0 <= i < |a|
    ensures m < |b| && b[m] == a[i]
  {
    assert a[i] in multiset(b);
    m :| m < |b| && b[m] == a[i];
  }

  /** Reordering a pool keeps its tokens distinct. */
  lemma PermutationKeepsDistinct(a: seq<TokenUsage>, b: seq<TokenUsage>)
    requires multiset(a) == multiset(b) && DistinctTokens(a)
    ensures DistinctTokens(b)
  {
    forall i, j | 0 <= i < |b| && 0 <= j < |b| && b[i].token == b[j].token ensures i == j {
      if i != j {
        var lo, hi := if i < j then i else j, if i < j then j else i;
        TwoIndicesInMultiset(b, lo, hi);
        if b[lo] == b[hi] {
          DistinctAtMostOnce(a, b[lo]);
        }
      }
    }
  }

  // --------------------------------------------------------------- selection

  /** The token carries a quota mark that is absent or strictly older than four hours. */
  predicate QuotaExpired(t: TokenUsage, now: int)
  {
    t.lastQuotaCheck.None? || t.lastQuotaCheck.value < now - QuotaCooldownMs
  }

  /** Still blocked by the backend's quota after the four-hour check. */
  predicate QuotaBlocked(t: TokenUsage, now: int)
  {
    t.quotaExceeded && !QuotaExpired(t, now)
  }

  /** Used today and already at the daily soft cap. */
  predicate AtDailyCap(t: TokenUsage, now: int)
  {
    IsSameDay(t.lastUsed, now) && t.usageTenths >= DailyCapTenths
  }

  /** Passes all three skip tests of the selection walk. */
  predicate Selectable(t: TokenUsage, now: int)
  {
    !t.inUse && !QuotaBlocked(t, now) && !AtDailyCap(t, now)
  }

  /** What the walk does to a token it looks at: a free token whose quota mark has
      expired loses the mark. */
  function Visit(t: TokenUsage, now: int): (v: TokenUsage)
    ensures v.quotaExceeded <==> t.quotaExceeded && (t.inUse || !QuotaExpired(t, now))
    ensures v == t.(quotaExceeded := v.quotaExceeded)
  {
    if !t.inUse && t.quotaExceeded && QuotaExpired(t, now) then t.(quotaExceeded := false) else t
  }

  /** The index of the first selectable token, or the pool size when there is none. */
  function FirstSelectable(s: seq<TokenUsage>, now: int): (k: nat)
    ensures k <= |s|
    ensures k < |s| ==> Selectable(s[k], now)
    ensures forall j :: 0 <= j < k ==> !Selectable(s[j], now)
  {
    if s == [] then 0
    else if Selectable(s[0], now) then 0
    else 1 + FirstSelectable(s[1..], now)
  }

  /** The pool after a walk, and the token it picked. */
  datatype Selection = Selection(pool: seq<TokenUsage>, picked: Option<string>)

  /** The selection walk over an already ordered pool, one token at a time. */
  function Walk(s: seq<TokenUsage>, now: int): (w: Selection)
    ensures |w.pool| == |s|
    ensures forall j :: 0 <= j < |s| ==> w.pool[j].token == s[j].token
    ensures w.picked.Some? ==>
      exists j :: 0 <= j < |s| && s[j].token == w.picked.value && Selectable(s[j], now) && w.pool[j].inUse
  {
    if s == [] then Selection([], None)
    else if Selectable(s[0], now) then
      Selection([Visit(s[0], now).(inUse := true)] + s[1..], Some(s[0].token))
    else
      var rest := Walk(s[1..], now);
      Selection([Visit(s[0], now)] + rest.pool, rest.picked)
  }

  /** The walk picks the first selectable token and marks it in use; every token before
      it is only visited, every token after it is untouched. */
  lemma {:induction false} WalkOutcome(s: seq<TokenUsage>, now: int)
    ensures var k := FirstSelectable(s, now);
      && |Walk(s, now).pool| == |s|
      && Walk(s, now).picked == (if k < |s| then Some(s[k].token) else None)
      && forall j :: 0 <= j < |s| ==>
           (Walk(s, now).pool[j] ==
              if j < k then Visit(s[j], now)
              else if j == k then Visit(s[j], now).(inUse := true)
              else s[j])
  {
    if s != [] && !Selectable(s[0], now) {
      WalkOutcome(s[1..], now);
      var w := Walk(s, now);
      var r := Walk(s[1..], now);
      assert w.pool == [Visit(s[0], now)] + r.pool;
      forall j | 0 < j < |s| ensures w.pool[j] == r.pool[j - 1] && s[j] == s[1..][j - 1] { }
    }
  }

  /** A picked token passed all three skip tests, has no quota mark afterwards and is
      in use afterwards; every token before it failed a test. */
  lemma WalkPickedIsSelectable(s: seq<TokenUsage>, now: int)
    requires Walk(s, now).picked.Some?
    ensures var k := FirstSelectable(s, now);
      && |Walk(s, now).pool| == |s|
      && k < |s| && s[k].token == Walk(s, now).picked.value
      && !s[k].inUse && !QuotaBlocked(s[k], now) && !AtDailyCap(s[k], now)
      && Walk(s, now).pool[k].inUse && !Walk(s, now).pool[k].quotaExceeded
      && forall j :: 0 <= j < k ==> !Selectable(s[j], now)
  {
    WalkOutcome(s, now);
  }

  /** The walk finds nothing exactly when every token fails a skip test, and then it
      sets no token in use. */
  lemma WalkNone(s: seq<TokenUsage>, now: int)
    ensures Walk(s, now).picked.None? <==> forall j :: 0 <= j < |s| ==> !Selectable(s[j], now)
    ensures |Walk(s, now).pool| == |s|
    ensures Walk(s, now).picked.None? ==>
      forall j :: 0 <= j < |s| ==> Walk(s, now).pool[j].inUse == s[j].inUse
  {
    WalkOutcome(s, now);
  }

  /** `p` is `s` after the walk has looked at its first `i` tokens and passed them all
      over. */
  ghost predicate WalkedUpTo(p: seq<TokenUsage>, s: seq<TokenUsage>, i: int, now: int)
  {
    && |p| == |s| && 0 <= i <= |s|
    && (forall j :: 0 <= j < i ==> !Selectable(s[j], now) && p[j] == Visit(s[j], now))
    && (forall j :: i <= j < |s| ==> p[j] == s[j])
  }

  /** One step of the walk: a token that fails a skip test is visited and passed over;
      one that passes them all ends the walk with the pool `Walk` describes. */
  lemma WalkStep(p: seq<TokenUsage>, s: seq<TokenUsage>, i: int, now: int)
    requires WalkedUpTo(p, s, i, now) && i < |s|
    ensures !Selectable(s[i], now) ==> WalkedUpTo(p[i := Visit(s[i], now)], s, i + 1, now)
    ensures Selectable(s[i], now) ==>
      && Walk(s, now).pool == p[i := Visit(s[i], now).(inUse := true)]
      && Walk(s, now).picked == Some(s[i].token)
  {
    if Selectable(s[i], now) {
      WalkOutcome(s, now);
      assert FirstSelectable(s, now) == i;
      var q := p[i := Visit(s[i], now).(inUse := true)];
      assert forall j :: 0 <= j < |s| ==> Walk(s, now).pool[j] == q[j];
    }
  }

  /** A walk that passed over every token picks nothing and leaves the pool `Walk`
      describes. */
  lemma WalkEnd(p: seq<TokenUsage>, s: seq<TokenUsage>, now: int)
    requires WalkedUpTo(p, s, |s|, now)
    ensures Walk(s, now).pool == p && Walk(s, now).picked == None
  {
    WalkOutcome(s, now);
    assert FirstSelectable(s, now) == |s|;
    assert forall j :: 0 <= j < |s| ==> Walk(s, now).pool[j] == p[j];
  }

  /** A token string is held: some record with it is in use. */
  ghost predicate Held(s: seq<TokenUsage>, x: string)
  {
    exists i :: 0 <= i < |s| && s[i].token == x && s[i].inUse
  }

  /** Sorting and walking never release a held token. */
  lemma WalkKeepsHeld(s: seq<TokenUsage>, order: seq<TokenUsage>, now: int, x: string)
    requires multiset(order) == multiset(s) && Held(s, x)
    ensures Held(Walk(order, now).pool, x)
  {
    var i :| 0 <= i < |s| && s[i].token == x && s[i].inUse;
    var m := IndexInPermutation(s, order, i);
    WalkOutcome(order, now);
    assert Walk(order, now).pool[m].token == x && Walk(order, now).pool[m].inUse;
  }

  /** In a pool of distinct tokens, the walk never picks a token that is already held. */
  lemma WalkPicksUnheld(s: seq<TokenUsage>, order: seq<TokenUsage>, now: int)
    requires multiset(order) == multiset(s) && DistinctTokens(s)
    requires Walk(order, now).picked.Some?
    ensures !Held(s, Walk(order, now).picked.value)
    ensures Held(Walk(order, now).pool, Walk(order, now).picked.value)
  {
    PermutationKeepsDistinct(s, order);
    WalkPickedIsSelectable(order, now);
    WalkKeepsTokens(order, now);
    var k := FirstSelectable(order, now);
    var x := Walk(order, now).picked.value;
    assert Walk(order, now).pool[k].token == x && Walk(order, now).pool[k].inUse;
    if Held(s, x) {
      var i :| 0 <= i < |s| && s[i].token == x && s[i].inUse;
      var m := IndexInPermutation(s, order, i);
      assert false;
    }
  }

  /** The walk keeps every token string in its place. */
  lemma WalkKeepsTokens(s: seq<TokenUsage>, now: int)
    ensures |Walk(s, now).pool| == |s|
    ensures forall j :: 0 <= j < |s| ==> Walk(s, now).pool[j].token == s[j].token
    ensures DistinctTokens(s) ==> DistinctTokens(Walk(s, now).pool)
  {
    WalkOutcome(s, now);
  }

  // ------------------------------------------------------- per-token updates

  /** The index `tokens.find(t => t.token === x)` lands on. */
  function FindIndex(s: seq<TokenUsage>, x: string): (r: Option<nat>)
    ensures r.Some? ==>
      (r.value < |s| && s[r.value].token == x && forall j :: 0 <= j < r.value ==> s[j].token != x)
    ensures r.None? <==> forall j :: 0 <= j < |s| ==> s[j].token != x
  {
    if s == [] then None
    else if s[0].token == x then Some(0)
    else match FindIndex(s[1..], x)
      case None => None
      case Some(k) => Some(k + 1)
  }

  /** `Math.ceil(ms / 6000)`: a duration rounded up to whole tenths of a minute. */
  function ChargedTenths(ms: int): (r: int)
    ensures (r - 1) * MsPerTenth < ms <= r * MsPerTenth
    ensures ms >= 0 ==> r >= 0
  {
    -((-ms) / MsPerTenth)
  }

  /** The operations that update one token's record. */
  datatype TokenOp =
    | Start(now: int)
    | Finish(elapsedMs: int)
    | Release
    | MarkQuotaExceeded(now: int)

  function Apply(op: TokenOp, t: TokenUsage): (u: TokenUsage)
    ensures u.token == t.token
  {
    match op
    case Start(now) => t.(lastUsed := now, inUse := true)
    case Finish(ms) => t.(inUse := false, usageTenths := t.usageTenths + ChargedTenths(ms))
    case Release => t.(inUse := false)
    case MarkQuotaExceeded(now) => t.(quotaExceeded := true, lastQuotaCheck := Some(now), inUse := false)
  }

  /** The pool after `op` on the record of token `x`; an unknown token changes nothing. */
  function ForToken(s: seq<TokenUsage>, x: string, op: TokenOp): (r: seq<TokenUsage>)
    ensures |r| == |s|
    ensures FindIndex(s, x).None? ==> r == s
    ensures forall j :: 0 <= j < |s| ==> r[j].token == s[j].token
  {
    match FindIndex(s, x)
    case None => s
    case Some(k) => s[k := Apply(op, s[k])]
  }

  /** Only a finish changes usage, and a finish of a non-negative duration adds its
      rounded-up charge; zero time adds zero. */
  lemma UsageOnlyGrowsOnFinish(op: TokenOp, t: TokenUsage)
    ensures !op.Finish? ==> Apply(op, t).usageTenths == t.usageTenths
    ensures op.Finish? ==> Apply(op, t).usageTenths == t.usageTenths + ChargedTenths(op.elapsedMs)
    ensures op.Finish? && op.elapsedMs >= 0 ==> Apply(op, t).usageTenths >= t.usageTenths
    ensures op == Finish(0) ==> Apply(op, t).usageTenths == t.usageTenths
  {
  }

  /** A release and a finish free the token, and a finish charges it; a start holds it; a
      quota mark frees it and blocks it as of `now`. No operation touches another field. */
  lemma ApplyFields(op: TokenOp, t: TokenUsage)
    ensures Apply(op, t).inUse == op.Start?
    ensures op.Start? ==> Apply(op, t) == t.(lastUsed := op.now, inUse := true)
    ensures op.Finish? ==>
      Apply(op, t) == t.(inUse := false, usageTenths := t.usageTenths + ChargedTenths(op.elapsedMs))
    ensures op.Release? ==> Apply(op, t) == t.(inUse := false)
    ensures op.MarkQuotaExceeded? ==>
      Apply(op, t) == t.(quotaExceeded := true, lastQuotaCheck := Some(op.now), inUse := false)
  {
  }

  lemma {:induction false} FindIndexSameTokens(s: seq<TokenUsage>, r: seq<TokenUsage>, x: string)
    requires |s| == |r| && forall j :: 0 <= j < |s| ==> s[j].token == r[j].token
    ensures FindIndex(s, x) == FindIndex(r, x)
    decreases |s|
  {
    if s != [] {
      FindIndexSameTokens(s[1..], r[1..], x);
    }
  }

  /** Releasing a token twice is the same as releasing it once. */
  lemma ReleaseIdempotent(s: seq<TokenUsage>, x: string)
    ensures ForToken(ForToken(s, x, Release), x, Release) == ForToken(s, x, Release)
  {
    FindIndexSameTokens(s, ForToken(s, x, Release), x);
  }

  /** A second finish on the same token charges its duration again. */
  lemma FinishChargesEachCall(s: seq<TokenUsage>, x: string, ms: int)
    requires FindIndex(s, x).Some?
    ensures var k := FindIndex(s, x).value;
      ForToken(ForToken(s, x, Finish(ms)), x, Finish(ms))[k].usageTenths
        == s[k].usageTenths + 2 * ChargedTenths(ms)
  {
    FindIndexSameTokens(s, ForToken(s, x, Finish(ms)), x);
  }

  /** Updating one token leaves every other token's hold as it was. */
  lemma ForTokenKeepsOthersHeld(s: seq<TokenUsage>, x: string, op: TokenOp, y: string)
    requires y != x
    ensures Held(ForToken(s, x, op), y) <==> Held(s, y)
  {
    var r := ForToken(s, x, op);
    if Held(s, y) {
      var i :| 0 <= i < |s| && s[i].token == y && s[i].inUse;
      assert r[i] == s[i];
    }
    if Held(r, y) {
      var i :| 0 <= i < |r| && r[i].token == y && r[i].inUse;
      assert r[i] == s[i];
    }
  }

  /** Starting a token that is in the pool holds it. */
  lemma StartHolds(s: seq<TokenUsage>, x: string, now: int)
    requires exists i :: 0 <= i < |s| && s[i].token == x
    ensures Held(ForToken(s, x, Start(now)), x)
  {
    var k := FindIndex(s, x).value;
    assert ForToken(s, x, Start(now))[k].inUse;
  }

  lemma ForTokenKeepsDistinct(s: seq<TokenUsage>, x: string, op: TokenOp)
    requires DistinctTokens(s)
    ensures DistinctTokens(ForToken(s, x, op))
  {
  }

  // ------------------------------------------------------------- daily reset

  /** The daily reset of one record: usage is zeroed unless the token was used today. */
  function ResetRecord(t: TokenUsage, now: int): (r: TokenUsage)
    ensures r == t.(usageTenths := r.usageTenths)
    ensures IsSameDay(t.lastUsed, now) ==> r == t
    ensures !IsSameDay(t.lastUsed, now) ==> r.usageTenths == 0
  {
    if IsSameDay(t.lastUsed, now) then t else t.(usageTenths := 0)
  }

  /** Resetting twice at the same instant is resetting once, and after a reset every token
      with usage left was used today, so only today's usage counts toward the cap. */
  lemma ResetIdempotent(t: TokenUsage, now: int)
    ensures ResetRecord(ResetRecord(t, now), now) == ResetRecord(t, now)
    ensures ResetRecord(t, now).usageTenths != 0 ==> IsSameDay(t.lastUsed, now)
  {
  }

  // ---------------------------------------------------------- status snapshot

  /** One entry of the status snapshot. */
  datatype TokenStatus = TokenStatus(token: string, usageTenths: int, available: bool, quotaExceeded: bool)

  /** The first ten characters of a token followed by "...". */
  function Redact(token: string): (r: string)
    ensures 3 <= |r| <= ShownPrefixLength + 3
    ensures r[..|r| - 3] <= token && |r| - 3 == if |token| < ShownPrefixLength then |token| else ShownPrefixLength
    ensures r[|r| - 3..] == "..."
  {
    var shown := if |token| < ShownPrefixLength then token else token[..ShownPrefixLength];
    assert (shown + "...")[..|shown|] == shown;
    shown + "..."
  }

  /** The status entry of one record. Availability reads the raw quota flag, so an entry
      reported available is always selectable, and without a quota mark the two agree. */
  function StatusOf(t: TokenUsage, now: int): (e: TokenStatus)
    ensures e.token == Redact(t.token) && e.usageTenths == t.usageTenths
    ensures e.quotaExceeded == t.quotaExceeded
    ensures e.available ==> Selectable(t, now)
    ensures !t.quotaExceeded ==> (e.available <==> Selectable(t, now))
    ensures t.quotaExceeded ==> !e.available
  {
    var available := !(t.inUse || t.quotaExceeded || (IsSameDay(t.lastUsed, now) && t.usageTenths >= DailyCapTenths));
    TokenStatus(Redact(t.token), t.usageTenths, available, t.quotaExceeded)
  }
}
