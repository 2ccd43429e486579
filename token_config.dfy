/** `loadTokens`: the credential list read from the process environment, with the
    example defaults as a fallback. */
module TokenConfig {
  import opened JsStrings

  const SingleVar := "HUGGING_FACE_TOKEN"
  const ListVar := "HUGGING_FACE_TOKENS"
  const IndexedVarPrefix := "HUGGING_FACE_TOKEN_"
  /** Indexed variables are read for 1 through this number. */
  const MaxIndexedVar: nat := 20
  const TokenPrefix := "hf_"
  const DefaultTokens: seq<string> := ["hf_example_token_1", "hf_example_token_2", "hf_example_token_3"]

  /** A non-empty string that starts with "hf_". */
  predicate Qualifies(t: string)
  {
    t != "" && TokenPrefix <= t
  }

  function IndexedVar(i: nat): string
  {
    IndexedVarPrefix + DecimalString(i)
  }

  /** Different indices name different variables, so no variable is read twice. */
  lemma IndexedVarInjective(i: nat, j: nat)
    requires IndexedVar(i) == IndexedVar(j)
    ensures i == j
  {
    var n := |IndexedVarPrefix|;
    assert IndexedVar(i)[n..] == DecimalString(i);
    assert IndexedVar(j)[n..] == DecimalString(j);
    DecimalStringInjective(i, j);
  }

  /** The qualifying single-variable token, if any. */
  function SingleCandidates(env: map<string, string>): seq<string>
  {
    if SingleVar in env && Qualifies(env[SingleVar]) then [env[SingleVar]] else []
  }

  /** The trimmed parts of a comma list that qualify, in list order. */
  function QualifyingParts(parts: seq<string>): (r: seq<string>)
    ensures forall t :: t in r ==> Qualifies(t)
  {
    if parts == [] then []
    else
      var t := Trim(parts[|parts| - 1]);
      QualifyingParts(parts[..|parts| - 1]) + (if Qualifies(t) then [t] else [])
  }

  /** Part `k` of the list, trimmed, is `t`, and `t` qualifies. */
  predicate QualifyingPartAt(parts: seq<string>, k: int, t: string)
  {
    0 <= k < |parts| && t == Trim(parts[k]) && Qualifies(t)
  }

  /** Every qualifying trimmed part is kept, and nothing else is. */
  lemma {:induction false} QualifyingPartsMembers(parts: seq<string>, t: string)
    ensures t in QualifyingParts(parts) <==> exists k :: QualifyingPartAt(parts, k, t)
    decreases |parts|
  {
    if parts != [] {
      var n := |parts| - 1;
      QualifyingPartsMembers(parts[..n], t);
      if t in QualifyingParts(parts) {
        KeptIsPart(parts, t);
      }
      if k :| QualifyingPartAt(parts, k, t) {
        PartIsKept(parts, k, t);
      }
    }
  }

  /** The step of `QualifyingPartsMembers` from kept strings to parts. */
  lemma KeptIsPart(parts: seq<string>, t: string)
    requires parts != [] && t in QualifyingParts(parts)
    requires var init := parts[..|parts| - 1];
      t in QualifyingParts(init) ==> exists k :: QualifyingPartAt(init, k, t)
    ensures exists k :: QualifyingPartAt(parts, k, t)
  {
    var n := |parts| - 1;
    var init := parts[..n];
    if t in QualifyingParts(init) {
      var k :| QualifyingPartAt(init, k, t);
      assert init[k] == parts[k];
      assert QualifyingPartAt(parts, k, t);
    } else {
      assert QualifyingPartAt(parts, n, t);
    }
  }

  /** The step of `QualifyingPartsMembers` from parts to kept strings. */
  lemma PartIsKept(parts: seq<string>, k: int, t: string)
    requires QualifyingPartAt(parts, k, t)
    requires var init := parts[..|parts| - 1];
      (exists j :: QualifyingPartAt(init, j, t)) ==> t in QualifyingParts(init)
    ensures t in QualifyingParts(parts)
  {
    var n := |parts| - 1;
    var init := parts[..n];
    if k < n {
      assert init[k] == parts[k];
      assert QualifyingPartAt(init, k, t);
    } else {
      assert k == n && t == Trim(parts[n]);
      QualifyingPartsStep(parts, n);
      assert parts[..n + 1] == parts;
    }
  }

  lemma QualifyingPartsStep(parts: seq<string>, k: int)
    requires 0 <= k < |parts|
    ensures QualifyingParts(parts[..k + 1]) == QualifyingParts(parts[..k])
      + (if Qualifies(Trim(parts[k])) then [Trim(parts[k])] else [])
  {
    assert parts[..k + 1][..k] == parts[..k];
  }

  function ListCandidates(env: map<string, string>): seq<string>
  {
    if ListVar in env && env[ListVar] != "" then QualifyingParts(Split(env[ListVar], ',')) else []
  }

  /** The qualifying values of HUGGING_FACE_TOKEN_1 through HUGGING_FACE_TOKEN_n. */
  function IndexedCandidates(env: map<string, string>, n: nat): (r: seq<string>)
    ensures forall t :: t in r ==> Qualifies(t)
    ensures forall t :: t in r <==>
      exists i :: 1 <= i <= n && IndexedVar(i) in env && env[IndexedVar(i)] == t && Qualifies(t)
  {
    if n == 0 then []
    else
      IndexedCandidates(env, n - 1)
        + (if IndexedVar(n) in env && Qualifies(env[IndexedVar(n)]) then [env[IndexedVar(n)]] else [])
  }

  /** Every qualifying token found in the environment, in the order the source reads them. */
  function EnvCandidates(env: map<string, string>): seq<string>
  {
    SingleCandidates(env) + ListCandidates(env) + IndexedCandidates(env, MaxIndexedVar)
  }

  /** A token is among the environment's candidates exactly when it is the qualifying
      single variable, a qualifying trimmed part of a non-empty comma list, or the
      qualifying value of one of the indexed variables 1 to 20. */
  lemma EnvCandidatesMembers(env: map<string, string>, t: string)
    ensures t in EnvCandidates(env) <==>
      || (SingleVar in env && env[SingleVar] == t && Qualifies(t))
      || (ListVar in env && env[ListVar] != "" && exists k :: QualifyingPartAt(Split(env[ListVar], ','), k, t))
      || (exists i :: 1 <= i <= MaxIndexedVar && IndexedVar(i) in env && env[IndexedVar(i)] == t && Qualifies(t))
  {
    if ListVar in env && env[ListVar] != "" {
      QualifyingPartsMembers(Split(env[ListVar], ','), t);
    }
  }

  /** The list before de-duplication: the environment's tokens, or the defaults when there are none. */
  function FinalTokens(env: map<string, string>): seq<string>
  {
    if |EnvCandidates(env)| > 0 then EnvCandidates(env) else DefaultTokens
  }

  ghost predicate NoDuplicates(s: seq<string>)
  {
    forall i, j :: 0 <= i < |s| && 0 <= j < |s| && s[i] == s[j] ==> i == j
  }

  /** `Array.from(new Set(s))`: the first occurrence of each string, in order. */
  function Dedup(s: seq<string>): (r: seq<string>)
    ensures NoDuplicates(r)
    ensures forall t :: t in r <==> t in s
    ensures |r| <= |s|
  {
    if s == [] then []
    else
      var d := Dedup(s[..|s| - 1]);
      var last := s[|s| - 1];
      assert s == s[..|s| - 1] + [last];
      if last in d then d else d + [last]
  }

  /** Every element of the candidate lists qualifies, and so does every default. */
  lemma CandidatesQualify(env: map<string, string>)
    ensures forall t :: t in FinalTokens(env) ==> Qualifies(t)
  {
    assert forall t :: t in DefaultTokens ==> Qualifies(t) by {
      assert TokenPrefix <= DefaultTokens[0] && TokenPrefix <= DefaultTokens[1] && TokenPrefix <= DefaultTokens[2];
    }
  }

  /** Repeats are only dropped: the defaults, being distinct, survive as they are. */
  lemma DefaultsAreDistinct()
    ensures Dedup(DefaultTokens) == DefaultTokens
  {
    var d := DefaultTokens;
    assert d[..1][..0] == [] && d[..2][..1] == d[..1] && d[..3][..2] == d[..2] && d[..3] == d;
    assert Dedup(d[..1]) == d[..1];
    assert d[2] !in d[..2];
  }

  /** The loop over the comma list: the trimmed parts that qualify, in order. */
  method CollectListTokens(parts: seq<string>) returns (found: seq<string>)
    ensures found == QualifyingParts(parts)
  {
    found := [];
    var k := 0;
    while k < |parts|
      invariant 0 <= k <= |parts|
      invariant found == QualifyingParts(parts[..k])
    {
      var t := Trim(parts[k]);
      QualifyingPartsStep(parts, k);
      if t != "" && TokenPrefix <= t {
        found := found + [t];
      }
      k := k + 1;
    }
    assert parts[..k] == parts;
  }

  /** The loop over HUGGING_FACE_TOKEN_1..20. */
  method CollectIndexedTokens(env: map<string, string>) returns (found: seq<string>)
    ensures found == IndexedCandidates(env, MaxIndexedVar)
  {
    found := [];
    for i := 1 to MaxIndexedVar + 1
      invariant found == IndexedCandidates(env, i - 1)
    {
      var name := IndexedVar(i);
      if name in env && env[name] != "" && TokenPrefix <= env[name] {
        found := found + [env[name]];
      }
    }
  }

  /** The three reading steps of `loadTokens`: every qualifying environment token, in order. */
  method CollectEnvTokens(env: map<string, string>) returns (envTokens: seq<string>)
    ensures envTokens == EnvCandidates(env)
  {
    var single: seq<string> := [];
    if SingleVar in env && env[SingleVar] != "" && TokenPrefix <= env[SingleVar] {
      single := [env[SingleVar]];
    }
    assert single == SingleCandidates(env);
    var listed: seq<string> := [];
    if ListVar in env && env[ListVar] != "" {
      listed := CollectListTokens(Split(env[ListVar], ','));
    }
    assert listed == ListCandidates(env);
    var indexed := CollectIndexedTokens(env);
    envTokens := single + listed + indexed;
  }

  /** `loadTokens`: collects qualifying tokens from HUGGING_FACE_TOKEN, the comma list in
      HUGGING_FACE_TOKENS and HUGGING_FACE_TOKEN_1..20, falls back to the defaults when
      none qualifies, and drops repeats. */
  method LoadTokens(env: map<string, string>) returns (tokens: seq<string>)
    ensures tokens == Dedup(FinalTokens(env))
    ensures forall t :: t in tokens ==> TokenPrefix <= t
    ensures NoDuplicates(tokens)
    ensures EnvCandidates(env) != [] ==> forall t :: t in tokens <==> t in EnvCandidates(env)
    ensures EnvCandidates(env) == [] ==> tokens == DefaultTokens
  {
    var envTokens := CollectEnvTokens(env);
    var finalTokens := if |envTokens| > 0 then envTokens else DefaultTokens;
    tokens := Dedup(finalTokens);
    CandidatesQualify(env);
    DefaultsAreDistinct();
  }
}
