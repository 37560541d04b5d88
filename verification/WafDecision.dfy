/** Deciding about a request, and how that relates to evaluating the rules as written. */
module WafDecision {
  import opened Basics
  import opened WafRules
  import opened WafIndex
  import opened WafMatcher
  import opened WafCompile
  import opened WafEvaluate
  import opened WafMeaning

  // ----- deciding on a vector of hits

  predicate GroupHit(ids: seq<nat>, hits: seq<bool>) {
    forall i :: 0 <= i < |ids| ==> ids[i] < |hits| && hits[ids[i]]
  }

  ghost predicate AnyGroupHit(groups: seq<seq<nat>>, hits: seq<bool>) {
    exists g :: 0 <= g < |groups| && GroupHit(groups[g], hits)
  }

  ghost predicate Fits(rule: Compiled, hits: seq<bool>) {
    rule.enabled && Decisive(rule.action) && AnyGroupHit(rule.groups, hits)
  }

  /** The first of the first n compiled rules that decides. */
  ghost function First(rules: seq<Compiled>, n: nat, fits: Compiled -> bool): Option<nat>
    requires n <= |rules|
  {
    if n == 0 then None
    else
      var r := First(rules, n - 1, fits);
      if r.Some? then r else if fits(rules[n - 1]) then Some(rules[n - 1].source) else None
  }

  ghost function Fitting(hits: seq<bool>): Compiled -> bool {
    rule => Fits(rule, hits)
  }

  /** A condition's mark, whatever else the rule set holds: it holds of the value under the
      name its parameter's index goes by, and was not lost. */
  ghost predicate Hit(lib: Lib, conds: seq<Condition>, get: Request, c: nat)
    requires c < |conds|
  {
    var p := conds[c].param;
    Holds(lib, conds[c], get(p, NameOf(conds, |conds|, p))) && !Lost(lib, conds, c)
  }

  ghost function HitVector(lib: Lib, conds: seq<Condition>, get: Request): (hits: seq<bool>)
    ensures |hits| == |conds| && forall c :: 0 <= c < |conds| ==> hits[c] == Hit(lib, conds, get, c)
  {
    seq(|conds|, c requires 0 <= c < |conds| => Hit(lib, conds, get, c))
  }

  // ----- the code

  method RuleMatches(rule: Compiled, hits: array<bool>) returns (matched: bool)
    ensures matched <==> AnyGroupHit(rule.groups, hits[..])
  {
    for g := 0 to |rule.groups|
      invariant forall f :: 0 <= f < g ==> !GroupHit(rule.groups[f], hits[..])
    {
      var ids := rule.groups[g];
      var all := true;
      for i := 0 to |ids|
        invariant all && forall k :: 0 <= k < i ==> ids[k] < hits.Length && hits[ids[k]]
      {
        if ids[i] >= hits.Length || !hits[ids[i]] {
          all := false;
          break;
        }
      }
      if all {
        assert GroupHit(rule.groups[g], hits[..]);
        return true;
      }
    }
    return false;
  }

  lemma IndexInBounds(lib: Lib, conds: seq<Condition>, p: Param, idx: Index)
    requires Indexes(lib, conds, |conds|, p, idx)
    ensures InBounds(idx, |conds|)
  {
    forall kind
      ensures Within(List(idx, kind), |conds|)
    {
      assert List(idx, kind) == Listed(lib, conds, |conds|, p, kind);
      forall j: nat | j < |List(idx, kind)|
        ensures List(idx, kind)[j].id < |conds|
      {
        ListedEntry(lib, conds, |conds|, p, kind, j);
      }
    }
    forall s | s in idx.equals
      ensures idx.equals[s] < |conds|
    {
      EqualsIff(lib, conds, |conds|, p, s, idx.equals[s]);
    }
  }

  /** Scans the indexes one by one, in an arbitrary order. */
  method Scan(lib: Lib, rs: RuleSet, get: Request, ghost conds: seq<Condition>) returns (hits: array<bool>)
    requires Lawful(lib) && rs.Ready(lib, conds)
    ensures fresh(hits) && hits[..] == HitVector(lib, conds, get)
  {
    hits := new bool[rs.condCount](_ => false);
    var rest := rs.params.Keys;
    while rest != {}
      invariant rest <= rs.params.Keys && fresh(hits) && hits.Length == |conds|
      invariant forall c :: 0 <= c < |conds| ==> hits[c] == (conds[c].param !in rest && Hit(lib, conds, get, c))
      decreases |rest|
    {
      var p :| p in rest;
      var idx := rs.params[p];
      IndexInBounds(lib, conds, p, idx);
      ghost var before := hits[..];
      ApplyIndex(lib, idx, get(p, idx.name), hits);
      forall c: nat | c < |conds|
        ensures hits[c] == (before[c] || (conds[c].param == p && Hit(lib, conds, get, c)))
      {
        MarksIff(lib, conds, p, idx, get(p, idx.name), c);
      }
      rest := rest - {p};
    }
  }

  method Decide(rules: seq<Compiled>, hits: array<bool>) returns (decided: Option<nat>)
    ensures decided == First(rules, |rules|, Fitting(hits[..]))
  {
    for k := 0 to |rules|
      invariant First(rules, k, Fitting(hits[..])) == None
    {
      if rules[k].enabled {
        var matched := RuleMatches(rules[k], hits);
        if matched {
          match rules[k].action
          case Allow | Deny | RateLimit =>
            assert First(rules, k + 1, Fitting(hits[..])) == Some(rules[k].source);
            FirstStays(rules, k + 1, |rules|, Fitting(hits[..]));
            return Some(rules[k].source);
          case Log | Unknown =>
        }
      }
    }
    return None;
  }

  /** Decides about a request: the number of the rule that does, if any. */
  method Evaluate(lib: Lib, rs: RuleSet, get: Request, ghost conds: seq<Condition>) returns (decided: Option<nat>)
    requires Lawful(lib) && rs.Ready(lib, conds)
    ensures decided == First(rs.rules, |rs.rules|, Fitting(HitVector(lib, conds, get)))
  {
    var hits := Scan(lib, rs, get, conds);
    decided := Decide(rs.rules, hits);
  }

  lemma {:induction false} FirstStays(rules: seq<Compiled>, k: nat, n: nat, fits: Compiled -> bool)
    requires k <= n <= |rules| && First(rules, k, fits).Some?
    ensures First(rules, n, fits) == First(rules, k, fits)
  {
    if k < n {
      FirstStays(rules, k, n - 1, fits);
    }
  }

  // ----- compiled rules and rules as written

  /** All conditions of the i-th group, and at least one, are hit. */
  ghost predicate GroupOn(groups: seq<seq<Condition>>, i: nat, at: nat, hits: seq<bool>)
    requires i < |groups|
  {
    && |KeptAll(groups[i])| > 0
    && GroupHit(Range(at + GroupsBefore(groups, i), |KeptAll(groups[i])|), hits)
  }

  ghost predicate SomeGroupOn(groups: seq<seq<Condition>>, n: nat, at: nat, hits: seq<bool>)
    requires n <= |groups|
  {
    exists i :: 0 <= i < n && GroupOn(groups, i, at, hits)
  }

  lemma LastGroup(ids: seq<seq<nat>>, last: seq<nat>, hits: seq<bool>)
    ensures AnyGroupHit(ids + [last], hits) <==> AnyGroupHit(ids, hits) || GroupHit(last, hits)
  {
    var all := ids + [last];
    assert all[|ids|] == last;
    if g :| 0 <= g < |ids| && GroupHit(ids[g], hits) {
      assert all[g] == ids[g];
    }
  }

  lemma {:induction false} NumberedHits(groups: seq<seq<Condition>>, n: nat, at: nat, hits: seq<bool>)
    requires n <= |groups|
    ensures AnyGroupHit(Numbered(groups, n, at), hits) <==> SomeGroupOn(groups, n, at, hits)
  {
    if n > 0 {
      NumberedHits(groups, n - 1, at, hits);
      var size := |KeptAll(groups[n - 1])|;
      if size > 0 {
        var ids := Range(at + GroupsBefore(groups, n - 1), size);
        LastGroup(Numbered(groups, n - 1, at), ids, hits);
      } else {
        assert Numbered(groups, n, at) == Numbered(groups, n - 1, at);
      }
      assert SomeGroupOn(groups, n, at, hits) <==>
             SomeGroupOn(groups, n - 1, at, hits) || GroupOn(groups, n - 1, at, hits);
    }
  }

  ghost predicate DecidesOn(rules: seq<Rule>, k: nat, hits: seq<bool>)
    requires k < |rules|
  {
    && rules[k].enabled && Decisive(rules[k].action)
    && SomeGroupOn(rules[k].groups, |rules[k].groups|, Before(rules, k), hits)
  }

  /** The first number below k with a property. */
  ghost function FirstOn(k: nat, on: nat -> bool): Option<nat> {
    if k == 0 then None
    else
      var r := FirstOn(k - 1, on);
      if r.Some? then r else if on(k - 1) then Some(k - 1) else None
  }

  lemma {:induction false} FirstOnIsFirst(k: nat, on: nat -> bool)
    ensures match FirstOn(k, on)
            case None => forall j: nat :: j < k ==> !on(j)
            case Some(i) => i < k && on(i) && forall j: nat :: j < i ==> !on(j)
  {
    if k > 0 {
      FirstOnIsFirst(k - 1, on);
    }
  }

  lemma {:induction false} FirstOfPrefix(a: seq<Compiled>, b: seq<Compiled>, n: nat, fits: Compiled -> bool)
    requires n <= |a|
    ensures First(a + b, n, fits) == First(a, n, fits)
  {
    if n > 0 {
      FirstOfPrefix(a, b, n - 1, fits);
    }
  }

  // The list grows by at most one compiled rule, which fits exactly if the property holds.
  ghost predicate Grows(
      all: nat -> seq<Compiled>, last: nat -> seq<Compiled>, fits: Compiled -> bool, on: nat -> bool, j: nat) {
    && all(j + 1) == all(j) + last(j) && |last(j)| <= 1 && (|last(j)| == 1 ==> last(j)[0].source == j)
    && (on(j) <==> |last(j)| == 1 && fits(last(j)[0]))
  }

  lemma {:induction false} FirstOfGrown(all: nat -> seq<Compiled>, last: nat -> seq<Compiled>,
                                        fits: Compiled -> bool, on: nat -> bool, k: nat)
    requires all(0) == [] && forall j :: 0 <= j < k ==> Grows(all, last, fits, on, j)
    ensures First(all(k), |all(k)|, fits) == FirstOn(k, on)
  {
    if k > 0 {
      FirstOfGrown(all, last, fits, on, k - 1);
      assert Grows(all, last, fits, on, k - 1);
      FirstOfPrefix(all(k - 1), last(k - 1), |all(k - 1)|, fits);
    }
  }

  lemma WrappedDecides(rules: seq<Rule>, k: nat, hits: seq<bool>)
    requires k < |rules|
    ensures var w := Wrapped(rules[k], Before(rules, k), k);
            DecidesOn(rules, k, hits) <==> |w| == 1 && Fits(w[0], hits)
  {
    NumberedHits(rules[k].groups, |rules[k].groups|, Before(rules, k), hits);
  }

  ghost function Deciding(rules: seq<Rule>, hits: seq<bool>): nat -> bool {
    (k: nat) => k < |rules| && DecidesOn(rules, k, hits)
  }

  ghost function LastBy(rules: seq<Rule>): nat -> seq<Compiled> {
    (k: nat) => if k < |rules| then Wrapped(rules[k], Before(rules, k), k) else []
  }

  lemma CompiledGrows(rules: seq<Rule>, hits: seq<bool>, j: nat)
    requires j < |rules|
    ensures Grows(CompiledBy(rules), LastBy(rules), Fitting(hits), Deciding(rules, hits), j)
  {
    WrappedDecides(rules, j, hits);
    assert CompiledBy(rules)(j + 1) == CompiledRules(rules, j + 1);
  }

  /** Compilation keeps the decision: of the compiled rules the first to decide is the first
      of the rules as written. */
  lemma CompilationKeepsFirst(rules: seq<Rule>, hits: seq<bool>, fits: Compiled -> bool, on: nat -> bool)
    requires fits == Fitting(hits) && on == Deciding(rules, hits)
    ensures First(CompiledRules(rules, |rules|), |CompiledRules(rules, |rules|)|, fits) == FirstOn(|rules|, on)
  {
    var all, last := CompiledBy(rules), LastBy(rules);
    forall j: nat | j < |rules|
      ensures Grows(all, last, fits, on, j)
    {
      CompiledGrows(rules, hits, j);
    }
    FirstOfGrown(all, last, fits, on, |rules|);
    assert all(|rules|) == CompiledRules(rules, |rules|);
  }
}
