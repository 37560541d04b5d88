/** Compiling conditions into one index per parameter. A condition's number is its place in
    the flat list of all conditions; each list of an index holds the conditions of one kind. */
module WafIndex {
  import opened Basics
  import opened WafRules

  /** The lists of an index. */
  datatype Kind = Patterns | Prefixes | Suffixes | Regexes | Memberships | Above | Below | Networks | Present | Absent

  /** What a condition compiles to. */
  datatype Test =
    | Text(text: string)
    | Values(values: set<string>, negate: bool)
    | Limit(limit: Float)
    | Nets(nets: seq<Net>, outside: bool)
    | Always

  datatype Tagged = Tagged(test: Test, id: nat)

  /** The multi-pattern matcher: distinct patterns, and for each the conditions it satisfies. */
  datatype Matcher = Matcher(patterns: seq<string>, conds: seq<seq<nat>>)

  datatype Index = Index(
    name: string, equals: map<string, nat>, lists: map<Kind, seq<Tagged>>, matcher: Option<Matcher>)

  const EMPTY := Index("", map[], map[], None)

  function List(idx: Index, kind: Kind): seq<Tagged> {
    if kind in idx.lists then idx.lists[kind] else []
  }

  function Append(idx: Index, kind: Kind, test: Test, id: nat): Index {
    idx.(lists := idx.lists[kind := List(idx, kind) + [Tagged(test, id)]])
  }

  // ----- which list a condition goes to, if any, and as what

  datatype Filing = Nowhere | InEquals | InList(kind: Kind, test: Test)

  function Numeric(lib: Lib, kind: Kind, value: string): Filing {
    var limit := lib.number(lib.trim(value));
    if limit.Some? then InList(kind, Limit(limit.value)) else Nowhere
  }

  function FilingOf(lib: Lib, c: Condition): Filing {
    if OnNetworks(c) then
      if |lib.nets(c.value)| > 0 then InList(Networks, Nets(lib.nets(c.value), Negated(c.op))) else Nowhere
    else
      match c.op
      case Contains => InList(Patterns, Text(lib.lower(c.value)))
      case Equals => InEquals
      case StartsWith => InList(Prefixes, Text(c.value))
      case EndsWith => InList(Suffixes, Text(c.value))
      case Regex => if lib.compiles(c.value) then InList(Regexes, Text(c.value)) else Nowhere
      case In => InList(Memberships, Values(Items(lib, c.value), false))
      case NotIn => InList(Memberships, Values(Items(lib, c.value), true))
      case Gt => Numeric(lib, Above, c.value)
      case Lt => Numeric(lib, Below, c.value)
      case Exists => InList(Present, Always)
      case NotExists => InList(Absent, Always)
      case _ => Nowhere
  }

  function Filed(idx: Index, filing: Filing, value: string, id: nat): Index {
    match filing
    case Nowhere => idx
    case InEquals => idx.(equals := idx.equals[value := id])
    case InList(kind, test) => Append(idx, kind, test, id)
  }

  /** An index with one more condition, which may also name the parameter. */
  function Grown(lib: Lib, idx: Index, c: Condition, id: nat): Index {
    Filed(if |c.name| > 0 then idx.(name := c.name) else idx, FilingOf(lib, c), c.value, id)
  }

  // ----- the code

  method ItemsIn(lib: Lib, list: string) returns (values: set<string>)
    ensures values == Items(lib, list)
  {
    values := {};
    var parts := lib.split(list);
    for i := 0 to |parts|
      invariant values == set j | 0 <= j < i && |lib.trim(parts[j])| > 0 :: lib.trim(parts[j])
    {
      if |lib.trim(parts[i])| > 0 {
        values := values + {lib.trim(parts[i])};
      }
    }
  }

  method CompileCondition(lib: Lib, idx: Index, c: Condition, id: nat) returns (r: Index)
    ensures !OnNetworks(c) ==> r == Filed(idx, FilingOf(lib, c), c.value, id)
  {
    r := idx;
    match c.op
    case Contains =>
      r := Append(r, Patterns, Text(lib.lower(c.value)), id);
    case Equals =>
      r := r.(equals := r.equals[c.value := id]);
    case StartsWith =>
      r := Append(r, Prefixes, Text(c.value), id);
    case EndsWith =>
      r := Append(r, Suffixes, Text(c.value), id);
    case Regex =>
      if lib.compiles(c.value) {
        r := Append(r, Regexes, Text(c.value), id);
      }
    case In | NotIn =>
      var values := ItemsIn(lib, c.value);
      r := Append(r, Memberships, Values(values, c.op.NotIn?), id);
    case Gt | Lt =>
      var limit := lib.number(lib.trim(c.value));
      if limit.Some? {
        r := Append(r, if c.op.Gt? then Above else Below, Limit(limit.value), id);
      }
    case Exists =>
      r := Append(r, Present, Always, id);
    case NotExists =>
      r := Append(r, Absent, Always, id);
    case _ =>
  }

  method AddNetworks(lib: Lib, idx: Index, c: Condition, outside: bool, id: nat) returns (r: Index)
    ensures OnNetworks(c) && outside == Negated(c.op) ==> r == Filed(idx, FilingOf(lib, c), c.value, id)
  {
    var nets := lib.nets(c.value);
    if |nets| == 0 {
      return idx;
    }
    return Append(idx, Networks, Nets(nets, outside), id);
  }

  /** One condition compiled into the index of its parameter. */
  method Wire(lib: Lib, idx: Index, c: Condition, id: nat) returns (r: Index)
    ensures r == Grown(lib, idx, c, id)
  {
    r := if |c.name| > 0 then idx.(name := c.name) else idx;
    if OnNetworks(c) {
      r := AddNetworks(lib, r, c, Negated(c.op), id);
    } else {
      r := CompileCondition(lib, r, c, id);
    }
  }

  // ----- the index as a function of the first n conditions

  /** The conditions on p of one kind, in order. */
  function Listed(lib: Lib, conds: seq<Condition>, n: nat, p: Param, kind: Kind): seq<Tagged>
    requires n <= |conds|
  {
    if n == 0 then []
    else
      var c := conds[n - 1];
      var before := Listed(lib, conds, n - 1, p, kind);
      var f := FilingOf(lib, c);
      if c.param == p && f.InList? && f.kind == kind then before + [Tagged(f.test, n - 1)] else before
  }

  /** The last name given for p, if any. */
  function NameOf(conds: seq<Condition>, n: nat, p: Param): string
    requires n <= |conds|
  {
    if n == 0 then ""
    else if conds[n - 1].param == p && |conds[n - 1].name| > 0 then conds[n - 1].name
    else NameOf(conds, n - 1, p)
  }

  /** Condition i names p and no later one does. */
  ghost predicate IsLastName(conds: seq<Condition>, n: nat, p: Param, i: nat)
    requires n <= |conds|
  {
    && i < n && conds[i].param == p && conds[i].name != ""
    && forall j :: i < j < n && conds[j].param == p ==> conds[j].name == ""
  }

  /** A parameter goes by the last name that any of its conditions gives, of all rules. */
  lemma {:induction false} LastNameCounts(conds: seq<Condition>, n: nat, p: Param)
    requires n <= |conds|
    ensures NameOf(conds, n, p) == "" ==> forall i :: 0 <= i < n && conds[i].param == p ==> conds[i].name == ""
    ensures NameOf(conds, n, p) != "" ==>
              exists i: nat :: IsLastName(conds, n, p, i) && conds[i].name == NameOf(conds, n, p)
  {
    if n > 0 {
      LastNameCounts(conds, n - 1, p);
      if conds[n - 1].param == p && |conds[n - 1].name| > 0 {
        assert IsLastName(conds, n, p, n - 1);
      } else if NameOf(conds, n, p) != "" {
        var i: nat :| IsLastName(conds, n - 1, p, i) && conds[i].name == NameOf(conds, n - 1, p);
        assert IsLastName(conds, n, p, i);
      }
    }
  }

  /** For each value the last condition that compares p with it. */
  function EqualsOf(lib: Lib, conds: seq<Condition>, n: nat, p: Param): map<string, nat>
    requires n <= |conds|
  {
    if n == 0 then map[]
    else
      var c := conds[n - 1];
      var before := EqualsOf(lib, conds, n - 1, p);
      if c.param == p && FilingOf(lib, c).InEquals? then before[c.value := n - 1] else before
  }

  /** The index lists exactly the conditions on p among the first n. */
  ghost predicate Indexes(lib: Lib, conds: seq<Condition>, n: nat, p: Param, idx: Index)
    requires n <= |conds|
  {
    && idx.name == NameOf(conds, n, p) && idx.equals == EqualsOf(lib, conds, n, p)
    && forall kind :: List(idx, kind) == Listed(lib, conds, n, p, kind)
  }

  lemma OtherIndexes(lib: Lib, conds: seq<Condition>, n: nat, p: Param, idx: Index)
    requires n < |conds| && conds[n].param != p && Indexes(lib, conds, n, p, idx)
    ensures Indexes(lib, conds, n + 1, p, idx)
  {
    assert forall kind :: Listed(lib, conds, n + 1, p, kind) == Listed(lib, conds, n, p, kind);
  }

  lemma GrownIndexes(lib: Lib, conds: seq<Condition>, n: nat, idx: Index)
    requires n < |conds| && Indexes(lib, conds, n, conds[n].param, idx)
    ensures Indexes(lib, conds, n + 1, conds[n].param, Grown(lib, idx, conds[n], n))
  {
    var c, f := conds[n], FilingOf(lib, conds[n]);
    forall kind
      ensures List(Grown(lib, idx, c, n), kind) == Listed(lib, conds, n + 1, c.param, kind)
    {
      assert List(idx, kind) == Listed(lib, conds, n, c.param, kind);
    }
  }
}
