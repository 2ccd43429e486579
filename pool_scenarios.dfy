/** Client-side checks that the manager's contracts are strong enough to predict the
    pool's behaviour in a few concrete situations. */
module PoolScenarios {
  import opened Wrappers
  import opened TokenRecords
  import opened TokenManagement

  /** A reordering of a one-record pool is that pool. */
  lemma SingletonOrder(order: seq<TokenUsage>, t: TokenUsage)
    requires multiset(order) == multiset([t])
    ensures order == [t]
  {
    assert |order| == |multiset(order)| == 1;
    assert order[0] in multiset(order);
  }

  /** A walk over a single record picks it exactly when it is selectable; otherwise the
      record is only visited. */
  lemma SingleWalk(t: TokenUsage, now: int)
    ensures Walk([t], now).picked == (if Selectable(t, now) then Some(t.token) else None)
    ensures !Selectable(t, now) ==> Walk([t], now).pool == [Visit(t, now)]
  {
    assert [t][1..] == [];
  }

  /** A token marked quota-exceeded at `t0` is refused at any instant up to four hours
      later, and the refusal leaves its mark. */
  method QuotaRefusedScenario(t0: int, now: int)
    requires now <= t0 + QuotaCooldownMs
  {
    var m := new TokenManager(["hf_a"]);
    assert FindIndex(m.Pool(), "hf_a") == Some(0);
    m.MarkTokenQuotaExceeded("hf_a", t0);
    var marked := m.Pool()[0];
    assert m.Pool() == [marked] && marked.quotaExceeded && marked.lastQuotaCheck == Some(t0);
    assert QuotaBlocked(marked, now) && Visit(marked, now) == marked;
    var r;
    ghost var order;
    r, order := m.GetToken(now);
    SingletonOrder(order, marked);
    SingleWalk(marked, now);
    assert r.None? && m.Pool() == [marked];
  }

  /** A token whose quota mark is more than four hours old is handed out again. */
  method QuotaCooldownScenario(t0: int, later: int)
    requires later > t0 + QuotaCooldownMs
  {
    var m := new TokenManager(["hf_a"]);
    assert FindIndex(m.Pool(), "hf_a") == Some(0);
    m.MarkTokenQuotaExceeded("hf_a", t0);
    var marked := m.Pool()[0];
    assert m.Pool() == [marked] && marked.quotaExceeded && marked.lastQuotaCheck == Some(t0);
    assert marked.usageTenths == 0 && !marked.inUse && QuotaExpired(marked, later);
    var r;
    ghost var order;
    r, order := m.GetToken(later);
    SingletonOrder(order, marked);
    SingleWalk(marked, later);
    assert r == Some("hf_a");
  }

  /** A reordering of a two-record pool is that pool or its reverse. */
  lemma PairOrder(order: seq<TokenUsage>, a: TokenUsage, b: TokenUsage)
    requires multiset(order) == multiset([a, b])
    ensures order == [a, b] || order == [b, a]
  {
    assert |order| == |multiset(order)| == 2;
    assert order[0] in multiset(order) && order[1] in multiset(order);
    if order[0] == order[1] {
      assert multiset(order)[order[0]] == 2;
    } else {
      assert multiset(order) == multiset{order[0], order[1]};
    }
  }

  /** A walk over two records, of which only the second is selectable in either order,
      picks the selectable one. */
  lemma PairWalk(a: TokenUsage, b: TokenUsage, now: int)
    requires !Selectable(a, now) && Selectable(b, now)
    ensures Walk([a, b], now).picked == Some(b.token)
    ensures Walk([b, a], now).picked == Some(b.token)
  {
    assert [a, b][1..] == [b];
  }

  /** With one of two tokens held, selection hands out the other one. */
  method HeldTokenSkippedScenario(t0: int)
  {
    var m := new TokenManager(["hf_a", "hf_b"]);
    var b := FreshRecord("hf_b");
    assert m.Pool() == [FreshRecord("hf_a"), b];
    assert FindIndex(m.Pool(), "hf_a") == Some(0);
    m.StartUsingToken("hf_a", t0);
    var a := m.Pool()[0];
    assert m.Pool() == [a, b] && a.inUse;
    var r;
    ghost var order;
    r, order := m.GetToken(t0);
    PairOrder(order, a, b);
    PairWalk(a, b, t0);
    assert r == Some("hf_b");
  }

  /** A token that has used five minutes today is refused for the rest of the day. */
  method DailyCapScenario(t0: int)
  {
    var m := new TokenManager(["hf_a"]);
    m.StartUsingToken("hf_a", t0);
    m.FinishUsingToken("hf_a", 5 * 60 * 1000);
    var used := m.Pool()[0];
    assert m.Pool() == [used] && used.usageTenths == 50 && used.lastUsed == t0 && !used.inUse;
    var r;
    ghost var order;
    r, order := m.GetToken(t0);
    SingletonOrder(order, used);
    assert AtDailyCap(used, t0);
    SingleWalk(used, t0);
    assert r.None?;
  }
}
