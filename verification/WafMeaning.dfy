/** What the marks of a compiled rule set mean: exactly the conditions that hold, except for
    those that compilation loses. */
module WafMeaning {
  import opened Basics
  import opened WafRules
  import opened WafIndex
  import opened WafMatcher
  import opened WafCompile
  import opened WafEvaluate

  // ----- one condition

  /** Where a condition is filed, the test made there is the condition's meaning. */
  predicate FiledTest(lib: Lib, f: Filing, value: string, v: Option<string>) {
    match f
    case Nowhere => false
    case InEquals => v == Some(value)
    case InList(kind, test) =>
      if kind.Absent? then v.None?
      else if v.None? then false
      else if kind.Present? then true
      else if kind.Patterns? then test.Text? && Occurs(test.text, lib.lower(v.value))
      else Passes(lib, kind, test, v.value)
  }

  lemma FilingKeepsMeaning(lib: Lib, c: Condition, v: Option<string>)
    ensures FiledTest(lib, FilingOf(lib, c), c.value, v) <==> Holds(lib, c, v)
  {
  }

  // ----- entries of an index

  lemma {:induction false} ListedEntry(lib: Lib, conds: seq<Condition>, n: nat, p: Param, kind: Kind, j: nat)
    requires n <= |conds| && j < |Listed(lib, conds, n, p, kind)|
    ensures var e := Listed(lib, conds, n, p, kind)[j];
            e.id < n && conds[e.id].param == p && FilingOf(lib, conds[e.id]) == InList(kind, e.test)
  {
    if j < |Listed(lib, conds, n - 1, p, kind)| {
      ListedEntry(lib, conds, n - 1, p, kind, j);
    }
  }

  lemma {:induction false} EntryListed(lib: Lib, conds: seq<Condition>, n: nat, id: nat) returns (j: nat)
    requires id < n <= |conds| && FilingOf(lib, conds[id]).InList?
    ensures var f := FilingOf(lib, conds[id]);
            var list := Listed(lib, conds, n, conds[id].param, f.kind);
            j < |list| && list[j] == Tagged(f.test, id)
  {
    if id < n - 1 {
      j := EntryListed(lib, conds, n - 1, id);
    } else {
      j := |Listed(lib, conds, n - 1, conds[id].param, FilingOf(lib, conds[id]).kind)|;
    }
  }

  /** The condition compares p with the value. */
  predicate ComparesWith(lib: Lib, c: Condition, p: Param, value: string) {
    c.param == p && FilingOf(lib, c).InEquals? && c.value == value
  }

  ghost predicate ComparedLater(lib: Lib, conds: seq<Condition>, n: nat, id: nat)
    requires id < n <= |conds|
  {
    exists d :: id < d < n && ComparesWith(lib, conds[d], conds[id].param, conds[id].value)
  }

  lemma {:induction false} EqualsIff(lib: Lib, conds: seq<Condition>, n: nat, p: Param, value: string, id: nat)
    requires n <= |conds|
    ensures (value in EqualsOf(lib, conds, n, p) && EqualsOf(lib, conds, n, p)[value] == id) <==>
            id < n && ComparesWith(lib, conds[id], p, value) && !ComparedLater(lib, conds, n, id)
  {
    if n > 0 {
      EqualsIff(lib, conds, n - 1, p, value, id);
      if ComparesWith(lib, conds[n - 1], p, value) {
        assert id < n - 1 && ComparesWith(lib, conds[id], p, value) ==> ComparedLater(lib, conds, n, id);
      } else if id < n - 1 && ComparesWith(lib, conds[id], p, value) {
        assert ComparedLater(lib, conds, n, id) ==> ComparedLater(lib, conds, n - 1, id);
      }
    }
  }

  // ----- what an index marks

  /** Compilation loses a condition that a later one on the same value replaces, and one that
      looks for an empty pattern. */
  ghost predicate Lost(lib: Lib, conds: seq<Condition>, id: nat)
    requires id < |conds|
  {
    var f := FilingOf(lib, conds[id]);
    (f.InEquals? && ComparedLater(lib, conds, |conds|, id)) ||
    (f.InList? && f.kind.Patterns? && f.test.Text? && |f.test.text| == 0)
  }

  ghost predicate Satisfied(lib: Lib, conds: seq<Condition>, p: Param, v: Option<string>, id: nat) {
    id < |conds| && conds[id].param == p && Holds(lib, conds[id], v) && !Lost(lib, conds, id)
  }

  lemma HasIff(lib: Lib, conds: seq<Condition>, p: Param, idx: Index, kind: Kind, id: nat)
    requires Indexes(lib, conds, |conds|, p, idx)
    ensures Has(List(idx, kind), id) <==>
            && id < |conds| && conds[id].param == p
            && FilingOf(lib, conds[id]).InList? && FilingOf(lib, conds[id]).kind == kind
  {
    assert List(idx, kind) == Listed(lib, conds, |conds|, p, kind);
    if Has(List(idx, kind), id) {
      var j: nat :| j < |List(idx, kind)| && List(idx, kind)[j].id == id;
      ListedEntry(lib, conds, |conds|, p, kind, j);
    }
    if id < |conds| && conds[id].param == p && FilingOf(lib, conds[id]).InList? &&
       FilingOf(lib, conds[id]).kind == kind {
      var j := EntryListed(lib, conds, |conds|, id);
    }
  }

  lemma FiresIff(lib: Lib, conds: seq<Condition>, p: Param, idx: Index, kind: Kind, s: string, id: nat)
    requires Indexes(lib, conds, |conds|, p, idx)
    ensures FiresOf(lib, idx, kind, s, id) <==>
            && id < |conds| && conds[id].param == p && FilingOf(lib, conds[id]).InList?
            && FilingOf(lib, conds[id]).kind == kind && Passes(lib, kind, FilingOf(lib, conds[id]).test, s)
  {
    assert List(idx, kind) == Listed(lib, conds, |conds|, p, kind);
    if FiresOf(lib, idx, kind, s, id) {
      var j: nat :| j < |List(idx, kind)| && List(idx, kind)[j].id == id &&
        Passes(lib, kind, List(idx, kind)[j].test, s);
      ListedEntry(lib, conds, |conds|, p, kind, j);
    }
    if id < |conds| && conds[id].param == p && FilingOf(lib, conds[id]).InList? &&
       FilingOf(lib, conds[id]).kind == kind {
      var j := EntryListed(lib, conds, |conds|, id);
    }
  }

  lemma FoundIff(lib: Lib, conds: seq<Condition>, p: Param, idx: Index, text: string, id: nat)
    requires Indexes(lib, conds, |conds|, p, idx)
    ensures Found(List(idx, Patterns), text, id) <==>
            && id < |conds| && conds[id].param == p && FilingOf(lib, conds[id]).InList?
            && FilingOf(lib, conds[id]).kind.Patterns? && FilingOf(lib, conds[id]).test.Text?
            && |FilingOf(lib, conds[id]).test.text| > 0 && Occurs(FilingOf(lib, conds[id]).test.text, text)
  {
    var list := List(idx, Patterns);
    assert list == Listed(lib, conds, |conds|, p, Patterns);
    if Found(list, text, id) {
      var j: nat :| j < |list| && list[j].id == id && |TextOf(list[j])| > 0 && Occurs(TextOf(list[j]), text);
      ListedEntry(lib, conds, |conds|, p, Patterns, j);
    }
    if id < |conds| && conds[id].param == p && FilingOf(lib, conds[id]).InList? &&
       FilingOf(lib, conds[id]).kind.Patterns? {
      var j := EntryListed(lib, conds, |conds|, id);
    }
  }

  /** An index marks exactly the conditions on its parameter that hold and were not lost. */
  lemma MarksIff(lib: Lib, conds: seq<Condition>, p: Param, idx: Index, v: Option<string>, id: nat)
    requires Indexes(lib, conds, |conds|, p, idx)
    ensures Marks(lib, idx, v, id) <==> Satisfied(lib, conds, p, v, id)
  {
    match v
    case None =>
      HasIff(lib, conds, p, idx, Absent, id);
      if id < |conds| {
        FilingKeepsMeaning(lib, conds[id], v);
      }
    case Some(s) =>
      HasIff(lib, conds, p, idx, Present, id);
      FoundIff(lib, conds, p, idx, lib.lower(s), id);
      EqualsIff(lib, conds, |conds|, p, s, id);
      forall kind
        ensures FiresOf(lib, idx, kind, s, id) <==>
                && id < |conds| && conds[id].param == p && FilingOf(lib, conds[id]).InList?
                && FilingOf(lib, conds[id]).kind == kind && Passes(lib, kind, FilingOf(lib, conds[id]).test, s)
      {
        FiresIff(lib, conds, p, idx, kind, s, id);
      }
      if id < |conds| {
        FilingKeepsMeaning(lib, conds[id], v);
      }
  }
}
