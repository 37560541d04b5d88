/** Evaluating a compiled rule set: each index is scanned once with its parameter's value and
    marks the conditions that hold; rules are then decided on the marks alone. */
module WafEvaluate {
  import opened Basics
  import opened WafRules
  import opened WafIndex
  import opened WafMatcher
  import opened WafCompile

  // ----- scanning an index

  /** The test an index makes for an entry of one of its lists. */
  predicate Passes(lib: Lib, kind: Kind, test: Test, v: string) {
    match kind
    case Prefixes => test.Text? && HasPrefix(v, test.text)
    case Suffixes => test.Text? && HasSuffix(v, test.text)
    case Regexes => test.Text? && lib.matches(test.text, v)
    case Memberships => test.Values? && (v in test.values) != test.negate
    case Above => test.Limit? && lib.number(lib.trim(v)).Some? && Less(test.limit, lib.number(lib.trim(v)).value)
    case Below => test.Limit? && lib.number(lib.trim(v)).Some? && Less(lib.number(lib.trim(v)).value, test.limit)
    case Networks =>
      test.Nets? && lib.address(lib.trim(v)).Some? &&
      Inside(lib, test.nets, lib.address(lib.trim(v)).value) != test.outside
    case _ => false
  }

  ghost predicate Has(list: seq<Tagged>, id: nat) {
    exists j :: 0 <= j < |list| && list[j].id == id
  }

  ghost predicate Fires(lib: Lib, kind: Kind, list: seq<Tagged>, v: string, id: nat) {
    exists j :: 0 <= j < |list| && list[j].id == id && Passes(lib, kind, list[j].test, v)
  }

  ghost predicate FiresOf(lib: Lib, idx: Index, kind: Kind, v: string, id: nat) {
    Fires(lib, kind, List(idx, kind), v, id)
  }

  /** The index marks the condition for a parameter's value, or its absence. */
  ghost predicate Marks(lib: Lib, idx: Index, v: Option<string>, id: nat) {
    match v
    case None => Has(List(idx, Absent), id)
    case Some(s) =>
      || Has(List(idx, Present), id)
      || Found(List(idx, Patterns), lib.lower(s), id)
      || (s in idx.equals && idx.equals[s] == id)
      || exists kind :: FiresOf(lib, idx, kind, s, id)
  }

  ghost predicate Within(list: seq<Tagged>, n: nat) {
    forall j :: 0 <= j < |list| ==> list[j].id < n
  }

  /** All numbers in the index are below n. */
  ghost predicate InBounds(idx: Index, n: nat) {
    (forall kind :: Within(List(idx, kind), n)) && forall s :: s in idx.equals ==> idx.equals[s] < n
  }

  method MarkListed(list: seq<Tagged>, hits: array<bool>)
    requires Within(list, hits.Length)
    modifies hits
    ensures forall c :: 0 <= c < hits.Length ==> hits[c] == (old(hits[c]) || Has(list, c))
  {
    for i := 0 to |list|
      invariant forall c :: 0 <= c < hits.Length ==> hits[c] == (old(hits[c]) || Has(list[..i], c))
    {
      hits[list[i].id] := true;
      assert list[..i + 1] == list[..i] + [list[i]];
    }
    assert list[..|list|] == list;
  }

  method MarkIds(ids: seq<nat>, hits: array<bool>)
    requires forall j :: 0 <= j < |ids| ==> ids[j] < hits.Length
    modifies hits
    ensures forall c :: 0 <= c < hits.Length ==> hits[c] == (old(hits[c]) || c in ids)
  {
    for i := 0 to |ids|
      invariant forall c :: 0 <= c < hits.Length ==> hits[c] == (old(hits[c]) || c in ids[..i])
    {
      hits[ids[i]] := true;
      assert ids[..i + 1] == ids[..i] + [ids[i]];
    }
    assert ids[..|ids|] == ids;
  }

  method MarkPassing(lib: Lib, kind: Kind, list: seq<Tagged>, v: string, hits: array<bool>)
    requires Within(list, hits.Length)
    modifies hits
    ensures forall c :: 0 <= c < hits.Length ==> hits[c] == (old(hits[c]) || Fires(lib, kind, list, v, c))
  {
    for i := 0 to |list|
      invariant forall c :: 0 <= c < hits.Length ==> hits[c] == (old(hits[c]) || Fires(lib, kind, list[..i], v, c))
    {
      if Passes(lib, kind, list[i].test, v) {
        hits[list[i].id] := true;
      }
      assert list[..i + 1] == list[..i] + [list[i]];
    }
    assert list[..|list|] == list;
  }

  lemma SomeKindFires(lib: Lib, idx: Index, v: string, id: nat)
    ensures (exists kind :: FiresOf(lib, idx, kind, v, id)) <==>
            || FiresOf(lib, idx, Prefixes, v, id) || FiresOf(lib, idx, Suffixes, v, id)
            || FiresOf(lib, idx, Regexes, v, id) || FiresOf(lib, idx, Memberships, v, id)
            || FiresOf(lib, idx, Networks, v, id) || FiresOf(lib, idx, Above, v, id) || FiresOf(lib, idx, Below, v, id)
  {
    if kind :| FiresOf(lib, idx, kind, v, id) {
      match kind
      case Patterns =>
      case Present =>
      case Absent =>
      case _ =>
    }
  }

  method ApplyTests(lib: Lib, idx: Index, v: string, hits: array<bool>)
    requires InBounds(idx, hits.Length)
    modifies hits
    ensures forall c :: 0 <= c < hits.Length ==>
              hits[c] == (old(hits[c]) || exists kind :: FiresOf(lib, idx, kind, v, c))
  {
    MarkPassing(lib, Prefixes, List(idx, Prefixes), v, hits);
    MarkPassing(lib, Suffixes, List(idx, Suffixes), v, hits);
    MarkPassing(lib, Regexes, List(idx, Regexes), v, hits);
    MarkPassing(lib, Memberships, List(idx, Memberships), v, hits);
    if lib.address(lib.trim(v)).Some? {
      MarkPassing(lib, Networks, List(idx, Networks), v, hits);
    }
    if lib.number(lib.trim(v)).Some? {
      MarkPassing(lib, Above, List(idx, Above), v, hits);
      MarkPassing(lib, Below, List(idx, Below), v, hits);
    }
    forall c | 0 <= c < hits.Length
      ensures hits[c] == (old(hits[c]) || exists kind :: FiresOf(lib, idx, kind, v, c))
    {
      SomeKindFires(lib, idx, v, c);
    }
  }

  lemma FoundIsListed(list: seq<Tagged>, text: string, id: nat, n: nat)
    requires Within(list, n) && Found(list, text, id)
    ensures id < n
  {
  }

  method ApplyIndex(lib: Lib, idx: Index, v: Option<string>, hits: array<bool>)
    requires Lawful(lib) && InBounds(idx, hits.Length) && IsMatcher(List(idx, Patterns), idx.matcher)
    modifies hits
    ensures forall c :: 0 <= c < hits.Length ==> hits[c] == (old(hits[c]) || Marks(lib, idx, v, c))
  {
    if v.Some? {
      MarkListed(List(idx, Present), hits);
    } else {
      MarkListed(List(idx, Absent), hits);
      return;
    }
    var ids := Match(lib, idx.matcher, lib.lower(v.value), List(idx, Patterns));
    forall j | 0 <= j < |ids|
      ensures ids[j] < hits.Length
    {
      assert ids[j] in ids;
      FoundIsListed(List(idx, Patterns), lib.lower(v.value), ids[j], hits.Length);
    }
    MarkIds(ids, hits);
    if v.value in idx.equals {
      hits[idx.equals[v.value]] := true;
    }
    ApplyTests(lib, idx, v.value, hits);
  }
}
