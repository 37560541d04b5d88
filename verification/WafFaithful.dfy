/** Compiled evaluation against evaluation of the rules as written. */
module WafFaithful {
  import opened Basics
  import opened WafRules
  import opened WafRequest
  import opened WafIndex
  import opened WafCompile
  import opened WafMeaning
  import opened WafDecision

  // ----- when the hits are the truth

  /** The vector says of every condition whether it has a property. */
  ghost predicate Says(conds: seq<Condition>, ok: Condition -> bool, hits: seq<bool>) {
    |hits| == |conds| && forall c :: 0 <= c < |conds| ==> hits[c] == ok(conds[c])
  }

  ghost predicate AllOk(conds: seq<Condition>, ok: Condition -> bool) {
    forall m :: 0 <= m < |conds| ==> ok(conds[m])
  }

  lemma OneMoreOk(conds: seq<Condition>, c: Condition, ok: Condition -> bool)
    ensures AllOk(conds + [c], ok) <==> AllOk(conds, ok) && ok(c)
  {
    var all := conds + [c];
    assert all[|conds|] == c && forall m :: 0 <= m < |conds| ==> all[m] == conds[m];
  }

  ghost predicate GroupOk(group: seq<Condition>, j: nat, ok: Condition -> bool)
    requires j <= |group|
  {
    forall i :: 0 <= i < j && !group[i].param.Blank? ==> ok(group[i])
  }

  lemma {:induction false} KeptOk(group: seq<Condition>, j: nat, ok: Condition -> bool)
    requires j <= |group|
    ensures |Kept(group, j)| > 0 <==> exists i :: 0 <= i < j && !group[i].param.Blank?
    ensures AllOk(Kept(group, j), ok) <==> GroupOk(group, j, ok)
  {
    if j > 0 {
      KeptOk(group, j - 1, ok);
      if !group[j - 1].param.Blank? {
        OneMoreOk(Kept(group, j - 1), group[j - 1], ok);
      } else {
        assert Kept(group, j) == Kept(group, j - 1);
      }
    }
  }

  lemma RangeHits(conds: seq<Condition>, ok: Condition -> bool, hits: seq<bool>, at: nat, part: seq<Condition>)
    requires Says(conds, ok, hits) && Placed(conds, at, part)
    ensures GroupHit(Range(at, |part|), hits) <==> AllOk(part, ok)
  {
    var ids := Range(at, |part|);
    assert forall m :: 0 <= m < |part| ==> ids[m] == at + m && conds[at + m] == part[m];
  }

  lemma GroupOnIff(
      conds: seq<Condition>, ok: Condition -> bool, hits: seq<bool>, groups: seq<seq<Condition>>, i: nat, at: nat)
    requires Says(conds, ok, hits) && i < |groups| && Placed(conds, at, InGroups(groups, |groups|))
    ensures GroupOn(groups, i, at, hits) <==>
            (exists m :: 0 <= m < |groups[i]| && !groups[i][m].param.Blank?) && GroupOk(groups[i], |groups[i]|, ok)
  {
    GroupIsPlaced(groups, i, |groups|);
    PlacedWithin(conds, at, InGroups(groups, |groups|), GroupsBefore(groups, i), KeptAll(groups[i]));
    RangeHits(conds, ok, hits, at + GroupsBefore(groups, i), KeptAll(groups[i]));
    KeptOk(groups[i], |groups[i]|, ok);
  }

  ghost function Truth(lib: Lib, get: Request): Condition -> bool {
    c => HoldsOf(lib, c, get)
  }

  /** The vector says of every condition whether it holds of the request. */
  ghost predicate Truthful(lib: Lib, conds: seq<Condition>, get: Request, hits: seq<bool>) {
    Says(conds, Truth(lib, get), hits)
  }

  lemma DecidesOnIff(lib: Lib, rules: seq<Rule>, get: Request, hits: seq<bool>, k: nat)
    requires Truthful(lib, All(rules), get, hits) && k < |rules|
    ensures DecidesOn(rules, k, hits) <==> Decides(lib, rules, get, k)
  {
    var groups := rules[k].groups;
    RuleIsPlaced(rules, k, |rules|);
    forall i | 0 <= i < |groups|
      ensures GroupOn(groups, i, Before(rules, k), hits) <==> GroupMatches(lib, groups[i], get)
    {
      GroupOnIff(All(rules), Truth(lib, get), hits, groups, i, Before(rules, k));
    }
  }

  /** The rule that decides once the rules are compiled. */
  ghost function Decision(rules: seq<Rule>, hits: seq<bool>): Option<nat> {
    First(CompiledRules(rules, |rules|), |CompiledRules(rules, |rules|)|, Fitting(hits))
  }

  lemma TruthfulHitsDecide(lib: Lib, rules: seq<Rule>, get: Request, hits: seq<bool>)
    requires Truthful(lib, All(rules), get, hits)
    ensures Outcome(lib, rules, get, Decision(rules, hits))
  {
    var on := Deciding(rules, hits);
    CompilationKeepsFirst(rules, hits, Fitting(hits), on);
    FirstOnIsFirst(|rules|, on);
    forall k: nat
      ensures on(k) <==> Decides(lib, rules, get, k)
    {
      if k < |rules| {
        DecidesOnIff(lib, rules, get, hits, k);
      }
    }
  }

  // ----- when the hits are the truth for every request

  /** The name the index of the condition's parameter goes by reads the same as its own. */
  predicate NameKept(lib: Lib, conds: seq<Condition>, c: nat)
    requires c < |conds|
  {
    var p := conds[c].param;
    KeyOf(lib, p, conds[c].name) == KeyOf(lib, p, NameOf(conds, |conds|, p))
  }

  /** Some answer satisfies the condition. */
  ghost predicate Satisfiable(lib: Lib, c: Condition) {
    exists v :: CanRead(lib, c.param, v) && Holds(lib, c, v)
  }

  /** Some answer satisfies the condition and some other does not. */
  ghost predicate Discerning(lib: Lib, c: Condition) {
    exists v, w :: CanRead(lib, c.param, v) && CanRead(lib, c.param, w) && Holds(lib, c, v) && !Holds(lib, c, w)
  }

  /** The condition is not lost, or nothing satisfies it; and it reads under its own name, or
      cannot tell answers apart. */
  ghost predicate Faithful(lib: Lib, conds: seq<Condition>, c: nat)
    requires c < |conds|
  {
    if Lost(lib, conds, c) then !Satisfiable(lib, conds[c])
    else NameKept(lib, conds, c) || !Discerning(lib, conds[c])
  }

  ghost predicate AllFaithful(lib: Lib, conds: seq<Condition>) {
    forall c :: 0 <= c < |conds| ==> Faithful(lib, conds, c)
  }

  lemma FaithfulCondition(lib: Lib, conds: seq<Condition>, r: Fields, c: nat)
    requires c < |conds| && Faithful(lib, conds, c)
    ensures Hit(lib, conds, Reader(lib, r), c) == HoldsOf(lib, conds[c], Reader(lib, r))
  {
    var p, own, index := conds[c].param, conds[c].name, NameOf(conds, |conds|, conds[c].param);
    ReadsWhatCanBe(lib, r, p, own);
    ReadsWhatCanBe(lib, r, p, index);
    if NameKept(lib, conds, c) {
      SameKeySameAnswer(lib, r, p, own, index);
    }
  }

  lemma FaithfulIsTruthful(lib: Lib, conds: seq<Condition>, r: Fields)
    requires AllFaithful(lib, conds)
    ensures Truthful(lib, conds, Reader(lib, r), HitVector(lib, conds, Reader(lib, r)))
  {
    forall c: nat | c < |conds|
      ensures HitVector(lib, conds, Reader(lib, r))[c] == Truth(lib, Reader(lib, r))(conds[c])
    {
      FaithfulCondition(lib, conds, r, c);
    }
  }

  /** For every request the compiled decision is that of the rules as written, if all
      conditions are faithful. */
  lemma CompiledIsNaive(lib: Lib, rules: seq<Rule>, r: Fields)
    requires AllFaithful(lib, All(rules))
    ensures var get := Reader(lib, r);
            Outcome(lib, rules, get, Decision(rules, HitVector(lib, All(rules), get)))
  {
    FaithfulIsTruthful(lib, All(rules), r);
    TruthfulHitsDecide(lib, rules, Reader(lib, r), HitVector(lib, All(rules), Reader(lib, r)));
  }

  /** A condition that reads under its own name is never marked wrongly, whatever is lost. */
  lemma MarksAreSound(lib: Lib, conds: seq<Condition>, r: Fields, c: nat)
    requires c < |conds| && NameKept(lib, conds, c) && Hit(lib, conds, Reader(lib, r), c)
    ensures HoldsOf(lib, conds[c], Reader(lib, r))
  {
    SameKeySameAnswer(lib, r, conds[c].param, conds[c].name, NameOf(conds, |conds|, conds[c].param));
  }

  /** One name per parameter, no value compared twice with a parameter, no empty pattern. */
  ghost predicate Clean(lib: Lib, conds: seq<Condition>) {
    forall c :: 0 <= c < |conds| ==> !Lost(lib, conds, c) && conds[c].name == NameOf(conds, |conds|, conds[c].param)
  }

  lemma CleanIsFaithful(lib: Lib, conds: seq<Condition>)
    requires Clean(lib, conds)
    ensures AllFaithful(lib, conds)
  {
  }

  // ----- and when they are not

  /** Marks are the truth for every request. */
  ghost predicate AlwaysTruthful(lib: Lib, conds: seq<Condition>) {
    forall r :: Truthful(lib, conds, Reader(lib, r), HitVector(lib, conds, Reader(lib, r)))
  }

  lemma LostConditionFails(lib: Lib, conds: seq<Condition>, c: nat) returns (r: Fields)
    requires c < |conds| && Lost(lib, conds, c) && Satisfiable(lib, conds[c])
    ensures HoldsOf(lib, conds[c], Reader(lib, r)) && !Hit(lib, conds, Reader(lib, r), c)
  {
    var p, name := conds[c].param, conds[c].name;
    var v :| CanRead(lib, p, v) && Holds(lib, conds[c], v);
    r := Answering(lib, BARE, p, name, v, v);
    AnswersAsAsked(lib, BARE, p, name, v, name, v);
  }

  lemma RenamedConditionFails(lib: Lib, conds: seq<Condition>, c: nat) returns (r: Fields)
    requires c < |conds| && !NameKept(lib, conds, c) && Discerning(lib, conds[c])
    ensures HoldsOf(lib, conds[c], Reader(lib, r)) && !Hit(lib, conds, Reader(lib, r), c)
  {
    var p, name := conds[c].param, conds[c].name;
    var v, w :| CanRead(lib, p, v) && CanRead(lib, p, w) && Holds(lib, conds[c], v) && !Holds(lib, conds[c], w);
    r := Answering(lib, BARE, p, name, v, w);
    AnswersAsAsked(lib, BARE, p, name, v, NameOf(conds, |conds|, p), w);
  }

  /** When a lost condition is missed: an equality if its value can be read, and a search for
      the empty string if the parameter is one that requests answer. */
  lemma LostIsMissed(lib: Lib, conds: seq<Condition>, c: nat)
    requires c < |conds| && Lost(lib, conds, c)
    ensures Satisfiable(lib, conds[c]) <==>
            if FilingOf(lib, conds[c]).InEquals? then CanRead(lib, conds[c].param, Some(conds[c].value))
            else !conds[c].param.Blank? && !conds[c].param.Unheard?
  {
    var p, f := conds[c].param, FilingOf(lib, conds[c]);
    forall v
      ensures FiledTest(lib, f, conds[c].value, v) <==> Holds(lib, conds[c], v)
    {
      FilingKeepsMeaning(lib, conds[c], v);
    }
    if !f.InEquals? && !p.Blank? && !p.Unheard? {
      var v := if p.Asn? then Some(lib.decimal(1)) else Some("-");
      var n: Number := 1;
      assert CanRead(lib, p, v) by {
        assert p.Asn? ==> v.value == lib.decimal(n);
      }
      EmptyOccurs(f.test.text, lib.lower(v.value));
      assert Holds(lib, conds[c], v);
    }
  }

  lemma EmptyOccurs(pattern: string, text: string)
    requires |pattern| == 0
    ensures Occurs(pattern, text)
  {
    assert HasPrefix(text[0..], pattern);
  }

  /** Exactly when marks are the truth for every request: when all conditions are faithful. */
  lemma AlwaysTruthfulIff(lib: Lib, conds: seq<Condition>)
    ensures AlwaysTruthful(lib, conds) <==> AllFaithful(lib, conds)
  {
    if c: nat :| c < |conds| && !Faithful(lib, conds, c) {
      var r;
      if Lost(lib, conds, c) {
        r := LostConditionFails(lib, conds, c);
      } else {
        r := RenamedConditionFails(lib, conds, c);
      }
      assert HitVector(lib, conds, Reader(lib, r))[c] != Truth(lib, Reader(lib, r))(conds[c]);
      assert !Truthful(lib, conds, Reader(lib, r), HitVector(lib, conds, Reader(lib, r)));
    } else {
      forall r
        ensures Truthful(lib, conds, Reader(lib, r), HitVector(lib, conds, Reader(lib, r)))
      {
        FaithfulIsTruthful(lib, conds, r);
      }
    }
  }

  lemma OneConditionRule(action: Action, c: Condition)
    requires !c.param.Blank?
    ensures InRule(Rule(true, action, [[c]])) == [c]
    ensures forall at, k :: Wrapped(Rule(true, action, [[c]]), at, k) == [Compiled(true, action, [[at]], k)]
  {
    var groups := [[c]];
    assert Kept([c], 0) == [] && KeptAll([c]) == [c];
    assert InGroups(groups, 0) == [] && InGroups(groups, 1) == [c] && GroupsBefore(groups, 0) == 0;
    forall at: nat
      ensures Numbered(groups, 1, at) == [[at]]
    {
      assert Numbered(groups, 0, at) == [] && Range(at, 1) == [at];
    }
  }

  lemma ShadowedHits(lib: Lib, c: Condition, get: Request)
    requires c.name == "" && FilingOf(lib, c).InEquals? && get(c.param, "") == Some(c.value)
    ensures HitVector(lib, [c, c], get) == [false, true]
  {
    var conds := [c, c];
    assert NameOf(conds, 0, c.param) == NameOf(conds, 1, c.param) == NameOf(conds, 2, c.param) == "";
    assert ComparesWith(lib, conds[1], c.param, c.value);
    assert ComparedLater(lib, conds, 2, 0) && !ComparedLater(lib, conds, 2, 1);
    FilingKeepsMeaning(lib, c, Some(c.value));
    assert !Hit(lib, conds, get, 0) && Hit(lib, conds, get, 1);
  }

  lemma SecondDecides(first: Compiled, second: Compiled)
    requires first.groups == [[0]] && second == Compiled(true, Allow, [[1]], 1)
    ensures First([first, second], 2, Fitting([false, true])) == Some(1)
  {
    var hits := [false, true];
    var ids := first.groups[0];
    assert ids[0] == 0 && !hits[ids[0]];
    assert !GroupHit(first.groups[0], hits) && GroupHit(second.groups[0], hits);
    assert !Fits(first, hits) && Fits(second, hits);
    assert First([first, second], 0, Fitting(hits)) == First([first, second], 1, Fitting(hits)) == None;
  }

  /** A decision that compilation changes: of two rules on the same value the first denies,
      but only the second is left to match, and it allows. */
  lemma ShadowedRule(lib: Lib, c: Condition, get: Request)
    requires !c.param.Blank? && c.name == "" && FilingOf(lib, c).InEquals? && get(c.param, "") == Some(c.value)
    ensures var rules := [Rule(true, Deny, [[c]]), Rule(true, Allow, [[c]])];
            && Outcome(lib, rules, get, Some(0))
            && Decision(rules, HitVector(lib, All(rules), get)) == Some(1)
  {
    var rules := [Rule(true, Deny, [[c]]), Rule(true, Allow, [[c]])];
    OneConditionRule(Deny, c);
    OneConditionRule(Allow, c);
    FilingKeepsMeaning(lib, c, Some(c.value));
    assert GroupMatches(lib, rules[0].groups[0], get);
    assert InRules(rules, 0) == [] && InRules(rules, 1) == [c] && All(rules) == [c, c];
    ShadowedHits(lib, c, get);
    var first, second := Compiled(true, Deny, [[0]], 0), Compiled(true, Allow, [[1]], 1);
    assert CompiledRules(rules, 0) == [] && CompiledRules(rules, 1) == [first] &&
           CompiledRules(rules, 2) == [first, second];
    SecondDecides(first, second);
  }

  lemma OneRuleIsFaithful(lib: Lib, c: Condition)
    requires c.op.StartsWith?
    ensures AllFaithful(lib, [c])
  {
    var conds := [c];
    assert NameOf(conds, 0, c.param) == "";
    assert !Lost(lib, conds, 0);
    assert NameOf(conds, 1, c.param) == c.name;
  }

  lemma OneGroup(lib: Lib, c: Condition, get: Request)
    requires !c.param.Blank?
    ensures Decides(lib, [Rule(true, Deny, [[c]])], get, 0) <==> HoldsOf(lib, c, get)
  {
    var rule := Rule(true, Deny, [[c]]);
    assert rule.groups[0][0] == c;
    assert GroupMatches(lib, [c], get) <==> HoldsOf(lib, c, get);
    assert Matches(lib, rule, get) <==> GroupMatches(lib, rule.groups[0], get);
  }

  /** From end to end: one rule that denies the paths that begin with a text denies, compiled,
      exactly those. */
  lemma PathRule(lib: Lib, x: string, r: Fields)
    ensures var c := Condition(Path, "", StartsWith, x);
            var rules := [Rule(true, Deny, [[c]])];
            Decision(rules, HitVector(lib, All(rules), Reader(lib, r))) ==
            if exists back :: Surrounds(r.path, "", x, back) then Some(0) else None
  {
    var c := Condition(Path, "", StartsWith, x);
    var rules := [Rule(true, Deny, [[c]])];
    OneConditionRule(Deny, c);
    assert InRules(rules, 0) == [] && All(rules) == [c];
    OneRuleIsFaithful(lib, c);
    CompiledIsNaive(lib, rules, r);
    OneGroup(lib, c, Reader(lib, r));
    TextMeans(lib, Path, "", x, r.path);
    PathIsRead(lib, r, r.path, Path, "");
    assert r.(path := r.path) == r;
  }

  // ----- the whole firewall

  /** Compiles the rules and decides about a request. */
  method Enforce(lib: Lib, rules: seq<Rule>, r: Fields) returns (decided: Option<nat>)
    requires Lawful(lib)
    ensures decided == Decision(rules, HitVector(lib, All(rules), Reader(lib, r)))
    ensures AllFaithful(lib, All(rules)) ==> Outcome(lib, rules, Reader(lib, r), decided)
  {
    var rs := new RuleSet();
    rs.Build(lib, rules);
    decided := Evaluate(lib, rs, Reader(lib, r), All(rules));
    if AllFaithful(lib, All(rules)) {
      CompiledIsNaive(lib, rules, r);
    }
  }
}
