/** The matcher for all contains-conditions of a parameter: equal patterns share one entry of
    the automaton, empty patterns get none. */
module WafMatcher {
  import opened Basics
  import opened WafRules
  import opened WafIndex

  function TextOf(t: Tagged): string {
    if t.test.Text? then t.test.text else ""
  }

  /** The conditions among the first n that look for a pattern, in order. */
  function IdsOf(list: seq<Tagged>, n: nat, pattern: string): seq<nat>
    requires n <= |list|
  {
    if n == 0 then []
    else IdsOf(list, n - 1, pattern) + if TextOf(list[n - 1]) == pattern then [list[n - 1].id] else []
  }

  /** Each pattern of the list, once and at its place, with all its conditions. */
  ghost predicate Merged(
      list: seq<Tagged>, n: nat, patterns: seq<string>, conds: seq<seq<nat>>, places: map<string, nat>)
    requires n <= |list|
  {
    && |patterns| == |conds|
    && (forall i :: 0 <= i < |patterns| ==> patterns[i] in places && places[patterns[i]] == i)
    && (forall p :: p in places ==> places[p] < |patterns| && patterns[places[p]] == p)
    && (forall i :: 0 <= i < |patterns| ==> conds[i] == IdsOf(list, n, patterns[i]))
    && forall j :: 0 <= j < n ==> TextOf(list[j]) in places
  }

  lemma {:induction false} AbsentPattern(list: seq<Tagged>, n: nat, pattern: string)
    requires n <= |list| && forall j :: 0 <= j < n ==> TextOf(list[j]) != pattern
    ensures IdsOf(list, n, pattern) == []
  {
    if n > 0 {
      AbsentPattern(list, n - 1, pattern);
    }
  }

  lemma AddPattern(
      list: seq<Tagged>, n: nat, patterns: seq<string>, conds: seq<seq<nat>>, places: map<string, nat>, p: string)
    requires n <= |list| && Merged(list, n, patterns, conds, places) && p !in places
    ensures Merged(list, n, patterns + [p], conds + [[]], places[p := |patterns|])
  {
    AbsentPattern(list, n, p);
  }

  lemma AddId(list: seq<Tagged>, n: nat, patterns: seq<string>, conds: seq<seq<nat>>, places: map<string, nat>)
    requires n < |list| && Merged(list, n, patterns, conds, places) && TextOf(list[n]) in places
    ensures var at := places[TextOf(list[n])];
            Merged(list, n + 1, patterns, conds[at := conds[at] + [list[n].id]], places)
  {
    var at := places[TextOf(list[n])];
    forall i | 0 <= i < |patterns|
      ensures conds[at := conds[at] + [list[n].id]][i] == IdsOf(list, n + 1, patterns[i])
    {
      assert i != at ==> patterns[i] != TextOf(list[n]);
    }
  }

  method Merge(list: seq<Tagged>) returns (patterns: seq<string>, conds: seq<seq<nat>>, places: map<string, nat>)
    ensures Merged(list, |list|, patterns, conds, places)
  {
    patterns, conds, places := [], [], map[];
    for i := 0 to |list|
      invariant Merged(list, i, patterns, conds, places)
    {
      var p := TextOf(list[i]);
      if p !in places {
        AddPattern(list, i, patterns, conds, places, p);
        places := places[p := |patterns|];
        patterns, conds := patterns + [p], conds + [[]];
      }
      AddId(list, i, patterns, conds, places);
      var at := places[p];
      conds := conds[at := conds[at] + [list[i].id]];
    }
  }

  /** The conditions of a list, by their pattern. */
  ghost function ByPattern(list: seq<Tagged>): string -> seq<nat> {
    (pattern: string) => IdsOf(list, |list|, pattern)
  }

  // Nonempty patterns, each with all the conditions that look for it.
  ghost predicate Grouped(ids: string -> seq<nat>, kept: seq<string>, conds: seq<seq<nat>>) {
    |kept| == |conds| && forall k :: 0 <= k < |kept| ==> |kept[k]| > 0 && conds[k] == ids(kept[k])
  }

  /** A matcher for exactly the list's nonempty patterns. */
  ghost predicate IsMatcher(list: seq<Tagged>, matcher: Option<Matcher>) {
    match matcher
    case None => forall j :: 0 <= j < |list| ==> |TextOf(list[j])| == 0
    case Some(m) =>
      && Grouped(ByPattern(list), m.patterns, m.conds)
      && forall j :: 0 <= j < |list| && |TextOf(list[j])| > 0 ==> TextOf(list[j]) in m.patterns
  }

  lemma OneMoreGroup(ids: string -> seq<nat>, kept: seq<string>, conds: seq<seq<nat>>, pattern: string)
    requires Grouped(ids, kept, conds) && |pattern| > 0
    ensures Grouped(ids, kept + [pattern], conds + [ids(pattern)])
  {
  }

  ghost predicate AllKept(patterns: seq<string>, n: nat, kept: seq<string>)
    requires n <= |patterns|
  {
    forall k :: 0 <= k < n && |patterns[k]| > 0 ==> patterns[k] in kept
  }

  lemma OneMoreKept(patterns: seq<string>, n: nat, kept: seq<string>)
    requires n < |patterns| && AllKept(patterns, n, kept)
    ensures |patterns[n]| == 0 ==> AllKept(patterns, n + 1, kept)
    ensures AllKept(patterns, n + 1, kept + [patterns[n]])
  {
    var more := kept + [patterns[n]];
    assert more[|kept|] == patterns[n];
    forall k | 0 <= k < n && |patterns[k]| > 0
      ensures patterns[k] in more
    {
      assert patterns[k] in kept;
    }
  }

  method DropEmpty(ghost ids: string -> seq<nat>, patterns: seq<string>, conds: seq<seq<nat>>)
      returns (kept: seq<string>, keptConds: seq<seq<nat>>)
    requires |patterns| == |conds| && forall i :: 0 <= i < |patterns| ==> conds[i] == ids(patterns[i])
    ensures Grouped(ids, kept, keptConds) && AllKept(patterns, |patterns|, kept)
  {
    kept, keptConds := [], [];
    for i := 0 to |patterns|
      invariant Grouped(ids, kept, keptConds) && AllKept(patterns, i, kept)
    {
      OneMoreKept(patterns, i, kept);
      if |patterns[i]| > 0 {
        OneMoreGroup(ids, kept, keptConds, patterns[i]);
        kept, keptConds := kept + [patterns[i]], keptConds + [conds[i]];
      }
    }
  }

  method BuildMatcher(
      ghost list: seq<Tagged>, patterns: seq<string>, conds: seq<seq<nat>>, ghost places: map<string, nat>)
      returns (r: Option<Matcher>)
    requires Merged(list, |list|, patterns, conds, places)
    ensures IsMatcher(list, r)
  {
    var kept, keptConds := DropEmpty(ByPattern(list), patterns, conds);
    forall j | 0 <= j < |list| && |TextOf(list[j])| > 0
      ensures TextOf(list[j]) in kept
    {
      assert patterns[places[TextOf(list[j])]] == TextOf(list[j]);
    }
    if |kept| == 0 {
      return None;
    }
    return Some(Matcher(kept, keptConds));
  }

  /** Some condition with this number looks for a nonempty pattern that occurs in the text. */
  ghost predicate Found(list: seq<Tagged>, text: string, id: nat) {
    exists j :: 0 <= j < |list| && list[j].id == id && |TextOf(list[j])| > 0 && Occurs(TextOf(list[j]), text)
  }

  lemma {:induction false} IdsOfHas(list: seq<Tagged>, n: nat, pattern: string, id: nat)
    requires n <= |list|
    ensures id in IdsOf(list, n, pattern) <==> exists j :: 0 <= j < n && TextOf(list[j]) == pattern && list[j].id == id
  {
    if n > 0 {
      IdsOfHas(list, n - 1, pattern, id);
    }
  }

  method Match(lib: Lib, m: Option<Matcher>, text: string, ghost list: seq<Tagged>) returns (ids: seq<nat>)
    requires Lawful(lib) && IsMatcher(list, m)
    ensures forall id :: id in ids <==> Found(list, text, id)
  {
    if m.None? || |text| == 0 {
      return [];
    }
    ids := [];
    var found := lib.find(m.value.patterns, text);
    var seen: set<nat> := {};
    for i := 0 to |found|
      invariant forall pid :: pid in seen <==> pid in found[..i]
      invariant forall id :: id in ids <==>
                  exists pid :: pid in seen && pid < |m.value.conds| && id in m.value.conds[pid]
    {
      var pid := found[i];
      assert pid in found;
      if pid !in seen {
        seen := seen + {pid};
        ids := ids + m.value.conds[pid];
      }
    }
    MatchFinds(lib, m.value, text, list, ids, seen);
  }

  lemma MatchFinds(lib: Lib, m: Matcher, text: string, list: seq<Tagged>, ids: seq<nat>, seen: set<nat>)
    requires Lawful(lib) && IsMatcher(list, Some(m))
    requires forall pid :: pid in seen <==> pid in lib.find(m.patterns, text)
    requires forall id :: id in ids <==> exists pid :: pid in seen && pid < |m.conds| && id in m.conds[pid]
    ensures forall id :: id in ids <==> Found(list, text, id)
  {
    forall id
      ensures id in ids <==> Found(list, text, id)
    {
      if id in ids {
        var pid :| pid in seen && pid < |m.conds| && id in m.conds[pid];
        IdsOfHas(list, |list|, m.patterns[pid], id);
      }
      if Found(list, text, id) {
        var j :| 0 <= j < |list| && list[j].id == id && |TextOf(list[j])| > 0 && Occurs(TextOf(list[j]), text);
        var pid: nat :| pid < |m.patterns| && m.patterns[pid] == TextOf(list[j]);
        IdsOfHas(list, |list|, m.patterns[pid], id);
        assert pid in lib.find(m.patterns, text);
      }
    }
  }
}
