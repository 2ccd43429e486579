/** The credential pool: a fixed array of usage records that the manager sorts in place
    and whose records its operations update. */
module TokenManagement {
  import opened Wrappers
  import opened TokenRecords

  /** The state of one insertion step: among the first `i + 1` records, all but the one
      at `j` are sorted, and the one at `j` comes before every record to its right. */
  ghost predicate Sinking(s: seq<TokenUsage>, i: int, j: int, now: int)
    requires 0 <= j <= i < |s|
  {
    && (forall p, q :: 0 <= p < q <= i && p != j && q != j ==> Before(s[p], s[q], now))
    && (forall q :: j < q <= i ==> Before(s[j], s[q], now))
  }

  lemma SinkStart(s: seq<TokenUsage>, i: int, now: int)
    requires 0 <= i < |s| && Sorted(s[..i], now)
    ensures Sinking(s, i, i, now)
  {
    forall p, q | 0 <= p < q < i ensures Before(s[p], s[q], now) {
      assert s[..i][p] == s[p] && s[..i][q] == s[q];
    }
  }

  /** Swapping the moving record with its left neighbour keeps the step's state. */
  lemma SinkStep(s: seq<TokenUsage>, i: int, j: int, now: int)
    requires 0 < j <= i < |s| && Sinking(s, i, j, now) && !Before(s[j - 1], s[j], now)
    ensures Sinking(s[j - 1 := s[j]][j := s[j - 1]], i, j - 1, now)
    ensures multiset(s[j - 1 := s[j]][j := s[j - 1]]) == multiset(s)
  {
    BeforeTotal(s[j - 1], s[j], now);
  }

  /** When the moving record has stopped, the first `i + 1` records are sorted. */
  lemma SinkDone(s: seq<TokenUsage>, i: int, j: int, now: int)
    requires 0 <= j <= i < |s| && Sinking(s, i, j, now)
    requires j == 0 || Before(s[j - 1], s[j], now)
    ensures Sorted(s[..i + 1], now)
  {
    forall p, q | 0 <= p < q <= i ensures Before(s[p], s[q], now) {
      if q == j && p < j {
        BeforeTransitive(s[p], s[j - 1], s[j], now);
      }
    }
  }

  class TokenManager {
    /** The pool; its length never changes after construction. */
    const tokens: array<TokenUsage>

    /** The pool's records in their current order. */
    function Pool(): seq<TokenUsage>
      reads tokens
    {
      tokens[..]
    }

    /** One fresh record per listed token, in list order. */
    constructor (tokenList: seq<string>)
      ensures fresh(tokens)
      ensures |Pool()| == |tokenList|
      ensures forall i :: 0 <= i < |tokenList| ==> Pool()[i] == FreshRecord(tokenList[i])
    {
      tokens := new TokenUsage[|tokenList|](i requires 0 <= i < |tokenList| => FreshRecord(tokenList[i]));
    }

    /** Moves the record at index `i` left past every record the comparator puts after it,
        so that the first `i + 1` records end up sorted. */
    method InsertAt(i: int, now: int)
      requires 0 <= i < tokens.Length && Sorted(tokens[..i], now)
      modifies tokens
      ensures Sorted(tokens[..i + 1], now)
      ensures multiset(tokens[..]) == multiset(old(tokens[..]))
    {
      var j := i;
      SinkStart(tokens[..], i, now);
      while j > 0 && !Before(tokens[j - 1], tokens[j], now)
        invariant 0 <= j <= i
        invariant Sinking(tokens[..], i, j, now)
        invariant multiset(tokens[..]) == multiset(old(tokens[..]))
      {
        ghost var s := tokens[..];
        SinkStep(s, i, j, now);
        tokens[j - 1], tokens[j] := tokens[j], tokens[j - 1];
        assert tokens[..] == s[j - 1 := s[j]][j := s[j - 1]];
        j := j - 1;
      }
      SinkDone(tokens[..], i, j, now);
    }

    /** `sortTokensByUsage`: reorders the pool so that the comparator holds between every
        earlier and later record; the records themselves are unchanged. */
    method SortTokensByUsage(now: int)
      modifies tokens
      ensures Sorted(Pool(), now)
      ensures multiset(Pool()) == multiset(old(Pool()))
    {
      var i := 0;
      while i < tokens.Length
        invariant 0 <= i <= tokens.Length
        invariant Sorted(tokens[..i], now)
        invariant multiset(tokens[..]) == multiset(old(tokens[..]))
      {
        InsertAt(i, now);
        i := i + 1;
      }
      assert tokens[..i] == tokens[..];
    }

    /** `getToken`: sorts the pool, then walks it and takes the first token that is not in
        use, not blocked by its quota mark (a mark older than four hours is cleared on the
        way) and not at today's cap. `order` is the pool as sorted, before the walk. */
    method GetToken(now: int) returns (r: Option<string>, ghost order: seq<TokenUsage>)
      modifies tokens
      ensures Sorted(order, now) && multiset(order) == multiset(old(Pool()))
      ensures Pool() == Walk(order, now).pool && r == Walk(order, now).picked
    {
      SortTokensByUsage(now);
      order := tokens[..];
      var i := 0;
      while i < tokens.Length
        invariant WalkedUpTo(tokens[..], order, i, now)
      {
        ghost var p := tokens[..];
        WalkStep(p, order, i, now);
        var t := tokens[i];
        if t.inUse {
          assert tokens[..] == p[i := Visit(order[i], now)];
          i := i + 1;
          continue;
        }
        if t.quotaExceeded {
          if t.lastQuotaCheck.None? || t.lastQuotaCheck.value < now - QuotaCooldownMs {
            t := t.(quotaExceeded := false);
            tokens[i] := t;
          } else {
            assert tokens[..] == p[i := Visit(order[i], now)];
            i := i + 1;
            continue;
          }
        }
        if IsSameDay(t.lastUsed, now) && t.usageTenths >= DailyCapTenths {
          assert tokens[..] == p[i := Visit(order[i], now)];
          i := i + 1;
          continue;
        }
        tokens[i] := t.(inUse := true);
        r := Some(t.token);
        assert tokens[..] == p[i := Visit(order[i], now).(inUse := true)];
        return;
      }
      r := None;
      WalkEnd(tokens[..], order, now);
    }

    /** Applies `op` to the first record holding `token`; an unknown token changes nothing. */
    method UpdateToken(token: string, op: TokenOp)
      modifies tokens
      ensures Pool() == ForToken(old(Pool()), token, op)
    {
      var k := FindIndex(tokens[..], token);
      if k.Some? {
        tokens[k.value] := Apply(op, tokens[k.value]);
      }
    }

    /** `startUsingToken`: stamps the token's last use with `now` and holds it. */
    method StartUsingToken(token: string, now: int)
      modifies tokens
      ensures Pool() == ForToken(old(Pool()), token, Start(now))
    {
      UpdateToken(token, Start(now));
    }

    /** `finishUsingToken`: frees the token and charges `elapsedMs`, rounded up to a
        tenth of a minute. */
    method FinishUsingToken(token: string, elapsedMs: int)
      modifies tokens
      ensures Pool() == ForToken(old(Pool()), token, Finish(elapsedMs))
    {
      UpdateToken(token, Finish(elapsedMs));
    }

    /** `releaseToken`: frees the token without charging it. */
    method ReleaseToken(token: string)
      modifies tokens
      ensures Pool() == ForToken(old(Pool()), token, Release)
    {
      UpdateToken(token, Release);
    }

    /** `markTokenQuotaExceeded`: frees the token and marks it quota-blocked as of `now`. */
    method MarkTokenQuotaExceeded(token: string, now: int)
      modifies tokens
      ensures Pool() == ForToken(old(Pool()), token, MarkQuotaExceeded(now))
    {
      UpdateToken(token, MarkQuotaExceeded(now));
    }

    /** `getTokensStatus`: one redacted entry per record, in pool order; reads only. */
    function TokensStatus(now: int): (r: seq<TokenStatus>)
      reads tokens
      ensures |r| == tokens.Length
      ensures forall i :: 0 <= i < |r| ==> r[i] == StatusOf(tokens[i], now)
    {
      seq(tokens.Length, i reads tokens requires 0 <= i < tokens.Length => StatusOf(tokens[i], now))
    }

    /** `resetDailyUsage`: zeroes the usage of every token not used today. */
    method ResetDailyUsage(now: int)
      modifies tokens
      ensures |Pool()| == |old(Pool())|
      ensures forall i :: 0 <= i < tokens.Length ==> tokens[i] == ResetRecord(old(tokens[i]), now)
    {
      for i := 0 to tokens.Length
        invariant forall j :: 0 <= j < i ==> tokens[j] == ResetRecord(old(tokens[j]), now)
        invariant forall j :: i <= j < tokens.Length ==> tokens[j] == old(tokens[j])
      {
        if !IsSameDay(tokens[i].lastUsed, now) {
          tokens[i] := tokens[i].(usageTenths := 0);
        }
      }
    }
  }
}
