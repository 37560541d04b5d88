/** Compiling a rule list: conditions are numbered in order, groups become lists of numbers,
    and every parameter gets its index. */
module WafCompile {
  import opened Basics
  import opened WafRules
  import opened WafIndex
  import opened WafMatcher

  datatype Compiled = Compiled(enabled: bool, action: Action, groups: seq<seq<nat>>, source: nat)

  // ----- the flat list of conditions

  /** The first j conditions of a group without those that name no parameter. */
  function Kept(group: seq<Condition>, j: nat): seq<Condition>
    requires j <= |group|
  {
    if j == 0 then [] else Kept(group, j - 1) + if !group[j - 1].param.Blank? then [group[j - 1]] else []
  }

  function KeptAll(group: seq<Condition>): seq<Condition> {
    Kept(group, |group|)
  }

  /** The conditions of the first i groups in a row, and how many they are. */
  function InGroups(groups: seq<seq<Condition>>, i: nat): seq<Condition>
    requires i <= |groups|
  {
    if i == 0 then [] else InGroups(groups, i - 1) + KeptAll(groups[i - 1])
  }

  function GroupsBefore(groups: seq<seq<Condition>>, i: nat): nat
    requires i <= |groups|
  {
    if i == 0 then 0 else GroupsBefore(groups, i - 1) + |KeptAll(groups[i - 1])|
  }

  function InRule(rule: Rule): seq<Condition> {
    InGroups(rule.groups, |rule.groups|)
  }

  /** The conditions of the first k rules in a row, and how many they are. */
  function InRules(rules: seq<Rule>, k: nat): seq<Condition>
    requires k <= |rules|
  {
    if k == 0 then [] else InRules(rules, k - 1) + InRule(rules[k - 1])
  }

  function Before(rules: seq<Rule>, k: nat): nat
    requires k <= |rules|
  {
    if k == 0 then 0 else Before(rules, k - 1) + |InRule(rules[k - 1])|
  }

  function All(rules: seq<Rule>): seq<Condition> {
    InRules(rules, |rules|)
  }

  /** The part stands in the whole at the given place. */
  ghost predicate Placed<T>(whole: seq<T>, at: nat, part: seq<T>) {
    at + |part| <= |whole| && forall m :: 0 <= m < |part| ==> whole[at + m] == part[m]
  }

  lemma PlacedWithin<T>(whole: seq<T>, at: nat, part: seq<T>, from: nat, inner: seq<T>)
    requires Placed(whole, at, part) && Placed(part, from, inner)
    ensures Placed(whole, at + from, inner)
  {
    forall m | 0 <= m < |inner|
      ensures whole[at + from + m] == inner[m]
    {
      assert whole[at + (from + m)] == part[from + m];
    }
  }

  lemma {:induction false} KeptIsPlaced(group: seq<Condition>, j: nat, n: nat)
    requires j <= n <= |group|
    ensures Placed(Kept(group, n), 0, Kept(group, j))
  {
    if j < n {
      KeptIsPlaced(group, j, n - 1);
    }
  }

  lemma {:induction false} GroupsBeforeIsLength(groups: seq<seq<Condition>>, i: nat)
    requires i <= |groups|
    ensures |InGroups(groups, i)| == GroupsBefore(groups, i)
  {
    if i > 0 {
      GroupsBeforeIsLength(groups, i - 1);
    }
  }

  lemma {:induction false} GroupIsPlaced(groups: seq<seq<Condition>>, i: nat, n: nat)
    requires i < n <= |groups|
    ensures Placed(InGroups(groups, n), GroupsBefore(groups, i), KeptAll(groups[i]))
  {
    if i < n - 1 {
      GroupIsPlaced(groups, i, n - 1);
    } else {
      GroupsBeforeIsLength(groups, i);
    }
  }

  lemma {:induction false} BeforeIsLength(rules: seq<Rule>, k: nat)
    requires k <= |rules|
    ensures |InRules(rules, k)| == Before(rules, k)
  {
    if k > 0 {
      BeforeIsLength(rules, k - 1);
    }
  }

  lemma {:induction false} RuleIsPlaced(rules: seq<Rule>, k: nat, n: nat)
    requires k < n <= |rules|
    ensures Placed(InRules(rules, n), Before(rules, k), InRule(rules[k]))
  {
    if k < n - 1 {
      RuleIsPlaced(rules, k, n - 1);
    } else {
      BeforeIsLength(rules, k);
    }
  }

  // ----- numbers

  function Range(at: nat, n: nat): (r: seq<nat>)
    ensures |r| == n && forall i :: 0 <= i < n ==> r[i] == at + i
  {
    seq(n, i => at + i)
  }

  /** The numbers of the conditions of the first i groups, without empty groups. */
  function Numbered(groups: seq<seq<Condition>>, i: nat, at: nat): seq<seq<nat>>
    requires i <= |groups|
  {
    if i == 0 then []
    else Numbered(groups, i - 1, at) +
         if |KeptAll(groups[i - 1])| == 0 then []
         else [Range(at + GroupsBefore(groups, i - 1), |KeptAll(groups[i - 1])|)]
  }

  /** A rule compiled with its conditions numbered from a place on, unless no group is left. */
  function Wrapped(rule: Rule, at: nat, k: nat): seq<Compiled> {
    var groups := Numbered(rule.groups, |rule.groups|, at);
    if |groups| > 0 then [Compiled(rule.enabled, rule.action, groups, k)] else []
  }

  function CompiledRules(rules: seq<Rule>, k: nat): seq<Compiled>
    requires k <= |rules|
  {
    if k == 0 then []
    else CompiledRules(rules, k - 1) + Wrapped(rules[k - 1], Before(rules, k - 1), k - 1)
  }

  ghost function CompiledBy(rules: seq<Rule>): nat -> seq<Compiled> {
    (k: nat) => if k <= |rules| then CompiledRules(rules, k) else []
  }

  ghost function StartOf(rules: seq<Rule>): nat -> nat {
    (k: nat) => if k <= |rules| then Before(rules, k) else 0
  }

  // Where the conditions of a rule stand, and what compiling it adds.
  ghost predicate LaidOut(
      rules: seq<Rule>, k: nat, conds: seq<Condition>, start: nat -> nat, compiled: nat -> seq<Compiled>)
    requires k < |rules|
  {
    && Placed(conds, start(k), InRule(rules[k])) && start(k + 1) == start(k) + |InRule(rules[k])|
    && compiled(k + 1) == compiled(k) + Wrapped(rules[k], start(k), k)
  }

  lemma Layout(rules: seq<Rule>, k: nat)
    requires k < |rules|
    ensures LaidOut(rules, k, All(rules), StartOf(rules), CompiledBy(rules))
  {
    RuleIsPlaced(rules, k, |rules|);
    assert CompiledBy(rules)(k + 1) == CompiledRules(rules, k + 1);
    assert StartOf(rules)(k + 1) == Before(rules, k + 1);
  }

  function Entry(table: map<Param, Index>, p: Param): Index {
    if p in table then table[p] else EMPTY
  }

  /** The table of indexes after n conditions. */
  function TableOf(lib: Lib, conds: seq<Condition>, n: nat): map<Param, Index>
    requires n <= |conds|
  {
    if n == 0 then map[]
    else
      var t := TableOf(lib, conds, n - 1);
      var c := conds[n - 1];
      t[c.param := Grown(lib, Entry(t, c.param), c, n - 1)]
  }

  /** Only mentioned parameters have an index. */
  lemma {:induction false} TableHas(lib: Lib, conds: seq<Condition>, n: nat, p: Param)
    requires n <= |conds|
    ensures p in TableOf(lib, conds, n) <==> exists i :: 0 <= i < n && conds[i].param == p
  {
    if n > 0 {
      TableHas(lib, conds, n - 1, p);
      assert p in TableOf(lib, conds, n) <==> p in TableOf(lib, conds, n - 1) || conds[n - 1].param == p;
    }
  }

  lemma NextIndexes(lib: Lib, conds: seq<Condition>, n: nat, p: Param, t: map<Param, Index>)
    requires n < |conds| && Indexes(lib, conds, n, p, Entry(t, p))
    ensures var c := conds[n];
            Indexes(lib, conds, n + 1, p, Entry(t[c.param := Grown(lib, Entry(t, c.param), c, n)], p))
  {
    if conds[n].param == p {
      GrownIndexes(lib, conds, n, Entry(t, p));
    } else {
      OtherIndexes(lib, conds, n, p, Entry(t, p));
    }
  }

  /** Every parameter's index lists its conditions. */
  lemma {:induction false} TableIndexes(lib: Lib, conds: seq<Condition>, n: nat, p: Param)
    requires n <= |conds|
    ensures Indexes(lib, conds, n, p, Entry(TableOf(lib, conds, n), p))
  {
    if n > 0 {
      TableIndexes(lib, conds, n - 1, p);
      NextIndexes(lib, conds, n - 1, p, TableOf(lib, conds, n - 1));
    }
  }

  /** The tables of indexes, by the number of conditions compiled in. */
  type Tables = nat -> map<Param, Index>

  ghost predicate Follows(lib: Lib, tables: Tables, conds: seq<Condition>, n: nat) {
    && n < |conds|
    && tables(n + 1) == tables(n)[conds[n].param := Grown(lib, Entry(tables(n), conds[n].param), conds[n], n)]
  }

  ghost predicate AreTables(lib: Lib, tables: Tables, conds: seq<Condition>) {
    forall n :: 0 <= n < |conds| ==> Follows(lib, tables, conds, n)
  }

  function TablesOf(lib: Lib, conds: seq<Condition>): (tables: Tables)
    ensures AreTables(lib, tables, conds) && forall n: nat :: n <= |conds| ==> tables(n) == TableOf(lib, conds, n)
  {
    (n: nat) => if n <= |conds| then TableOf(lib, conds, n) else map[]
  }

  class RuleSet {
    var params: map<Param, Index>
    var rules: seq<Compiled>
    var condCount: nat

    constructor ()
      ensures params == map[] && rules == [] && condCount == 0
    {
      params, rules, condCount := map[], [], 0;
    }

    method AddCondition(lib: Lib, c: Condition, ghost tables: Tables, ghost conds: seq<Condition>)
      requires params == tables(condCount) && Follows(lib, tables, conds, condCount) && c == conds[condCount]
      modifies this
      ensures params == tables(condCount) && condCount == old(condCount) + 1 && rules == old(rules)
    {
      var idx := Wire(lib, Entry(params, c.param), c, condCount);
      params := params[c.param := idx];
      condCount := condCount + 1;
    }

    method AddGroup(lib: Lib, group: seq<Condition>, ghost tables: Tables, ghost conds: seq<Condition>)
        returns (ids: seq<nat>)
      requires AreTables(lib, tables, conds) && params == tables(condCount)
      requires Placed(conds, condCount, KeptAll(group))
      modifies this
      ensures params == tables(condCount) && rules == old(rules)
      ensures condCount == old(condCount) + |KeptAll(group)|
      ensures ids == Range(old(condCount), |KeptAll(group)|)
    {
      ids := [];
      for j := 0 to |group|
        invariant params == tables(condCount) && rules == old(rules)
        invariant condCount == old(condCount) + |Kept(group, j)| && ids == Range(old(condCount), |Kept(group, j)|)
      {
        if !group[j].param.Blank? {
          NextIsPlaced(conds, old(condCount), group, j);
          ids := ids + [condCount];
          AddCondition(lib, group[j], tables, conds);
        }
      }
    }

    method AddRule(lib: Lib, rule: Rule, k: nat, ghost tables: Tables, ghost conds: seq<Condition>)
      requires AreTables(lib, tables, conds) && params == tables(condCount)
      requires Placed(conds, condCount, InRule(rule))
      modifies this
      ensures params == tables(condCount) && condCount == old(condCount) + |InRule(rule)|
      ensures rules == old(rules) + Wrapped(rule, old(condCount), k)
    {
      var groups := [];
      GroupsBeforeIsLength(rule.groups, |rule.groups|);
      for i := 0 to |rule.groups|
        invariant params == tables(condCount) && rules == old(rules)
        invariant condCount == old(condCount) + GroupsBefore(rule.groups, i)
        invariant groups == Numbered(rule.groups, i, old(condCount))
      {
        GroupIsPlaced(rule.groups, i, |rule.groups|);
        PlacedWithin(conds, old(condCount), InRule(rule), GroupsBefore(rule.groups, i), KeptAll(rule.groups[i]));
        var ids := AddGroup(lib, rule.groups[i], tables, conds);
        if |ids| > 0 {
          groups := groups + [ids];
        }
      }
      if |groups| > 0 {
        rules := rules + [Compiled(rule.enabled, rule.action, groups, k)];
      }
    }

    method AddRules(lib: Lib, rs: seq<Rule>, ghost tables: Tables, ghost conds: seq<Condition>, ghost start: nat -> nat,
                    ghost compiled: nat -> seq<Compiled>)
      requires AreTables(lib, tables, conds) && forall k :: 0 <= k < |rs| ==> LaidOut(rs, k, conds, start, compiled)
      requires condCount == start(0) && params == tables(condCount) && rules == compiled(0)
      modifies this
      ensures condCount == start(|rs|) && params == tables(condCount) && rules == compiled(|rs|)
    {
      for k := 0 to |rs|
        invariant condCount == start(k) && params == tables(condCount) && rules == compiled(k)
      {
        assert LaidOut(rs, k, conds, start, compiled);
        AddRule(lib, rs[k], k, tables, conds);
      }
    }

    /** The indexes list the conditions by parameter and kind, and their matchers the patterns. */
    ghost predicate Ready(lib: Lib, conds: seq<Condition>)
      reads this
    {
      && condCount == |conds|
      && (forall i :: 0 <= i < |conds| ==> conds[i].param in params)
      && forall p :: p in params ==> Indexes(lib, conds, |conds|, p, params[p]) && HasMatcher(params[p])
    }

    /** Compiles a rule list. */
    method Build(lib: Lib, rs: seq<Rule>)
      requires params == map[] && rules == [] && condCount == 0
      modifies this
      ensures Ready(lib, All(rs)) && rules == CompiledRules(rs, |rs|)
    {
      ghost var tables := TablesOf(lib, All(rs));
      BeforeIsLength(rs, |rs|);
      forall k | 0 <= k < |rs|
        ensures LaidOut(rs, k, All(rs), StartOf(rs), CompiledBy(rs))
      {
        Layout(rs, k);
      }
      AddRules(lib, rs, tables, All(rs), StartOf(rs), CompiledBy(rs));
      FinalizeIndexes();
      TableIsReady(lib, All(rs), params);
    }

    method FinalizeIndexes()
      modifies this`params
      ensures forall p :: p in params <==> p in old(params)
      ensures forall p :: p in params ==>
                params[p] == old(params)[p].(matcher := params[p].matcher) && HasMatcher(params[p])
    {
      var done, rest := params, params.Keys;
      while rest != {}
        invariant rest <= params.Keys && params == old(params)
        invariant forall p :: p in done <==> p in params
        invariant forall p :: p in params && p in rest ==> done[p] == params[p]
        invariant forall p :: p in params && p !in rest ==>
                    done[p] == params[p].(matcher := done[p].matcher) && HasMatcher(done[p])
        decreases |rest|
      {
        var p :| p in rest;
        var matcher := MatcherFor(List(params[p], Patterns));
        done := done[p := params[p].(matcher := matcher)];
        rest := rest - {p};
      }
      params := done;
    }
  }

  lemma TableIsReady(lib: Lib, conds: seq<Condition>, table: map<Param, Index>)
    requires forall p :: p in table <==> p in TableOf(lib, conds, |conds|)
    requires forall p :: p in table ==> table[p] == TableOf(lib, conds, |conds|)[p].(matcher := table[p].matcher)
    ensures forall i :: 0 <= i < |conds| ==> conds[i].param in table
    ensures forall p :: p in table ==> Indexes(lib, conds, |conds|, p, table[p])
  {
    forall i | 0 <= i < |conds|
      ensures conds[i].param in table
    {
      TableHas(lib, conds, |conds|, conds[i].param);
    }
    forall p | p in table
      ensures Indexes(lib, conds, |conds|, p, table[p])
    {
      TableIndexes(lib, conds, |conds|, p);
      assert forall kind :: List(table[p], kind) == List(TableOf(lib, conds, |conds|)[p], kind);
    }
  }

  ghost predicate HasMatcher(idx: Index) {
    IsMatcher(List(idx, Patterns), idx.matcher)
  }

  method MatcherFor(list: seq<Tagged>) returns (matcher: Option<Matcher>)
    ensures IsMatcher(list, matcher)
  {
    if |list| == 0 {
      return None;
    }
    var patterns, conds, places := Merge(list);
    matcher := BuildMatcher(list, patterns, conds, places);
  }

  lemma NextIsPlaced(conds: seq<Condition>, at: nat, group: seq<Condition>, j: nat)
    requires j < |group| && !group[j].param.Blank? && Placed(conds, at, KeptAll(group))
    ensures at + |Kept(group, j)| < |conds| && conds[at + |Kept(group, j)|] == group[j]
  {
    KeptIsPlaced(group, j + 1, |group|);
    PlacedWithin(conds, at, Kept(group, |group|), 0, Kept(group, j + 1));
    assert Kept(group, j + 1)[|Kept(group, j)|] == group[j];
  }
}
