/** Firewall rules and what they mean: a rule is an OR of AND groups of conditions on request
    parameters, and the first enabled rule that matches and decides, decides. */
module WafRules {
  import opened Basics

  /** A floating-point number as it compares; rounding happens in parsing. */
  datatype Float = NaN | NegInf | Finite(value: real) | PosInf

  predicate Less(a: Float, b: Float) {
    match (a, b)
    case (NaN, _) => false
    case (_, NaN) => false
    case (NegInf, _) => b != NegInf
    case (_, PosInf) => a != PosInf
    case (Finite(x), Finite(y)) => x < y
    case (_, _) => false
  }

  type Net = string
  type Addr = string

  /** What the standard and third-party libraries provide. */
  datatype Lib = Lib(
    lower: string -> string,
    trim: string -> string,
    split: string -> seq<string>,
    number: string -> Option<Float>,
    address: string -> Option<Addr>,
    nets: string -> seq<Net>,
    within: (Addr, Net) -> bool,
    compiles: string -> bool,
    matches: (string, string) -> bool,
    find: (seq<string>, string) -> seq<nat>,
    canonical: string -> string,
    decimal: nat -> string)

  predicate Occurs(pattern: string, text: string) {
    exists i :: 0 <= i <= |text| && HasPrefix(text[i..], pattern)
  }

  predicate HasPrefix(s: string, prefix: string) {
    |prefix| <= |s| && s[..|prefix|] == prefix
  }

  predicate HasSuffix(s: string, suffix: string) {
    |suffix| <= |s| && s[|s| - |suffix|..] == suffix
  }

  /** The multi-pattern search reports the patterns that occur, in any order and number. */
  ghost predicate Lawful(lib: Lib) {
    forall patterns, text ::
      (forall i :: 0 <= i < |patterns| ==> |patterns[i]| > 0) ==>
        forall id: nat :: id in lib.find(patterns, text) <==> id < |patterns| && Occurs(patterns[id], text)
  }

  /** Operators, whatever their spelling; Other is one that no index knows. */
  datatype Op = Contains | Equals | StartsWith | EndsWith | Regex | In | NotIn | InIp | NotInIp
              | Gt | Lt | Exists | NotExists | Other

  /** What a condition looks at; Blank is an empty name, Unheard one that no request answers. */
  datatype Param = Blank | Host | UserAgent | Referer | Cookie | Url | Path | Query | Method | Ip
                 | Country | Asn | AsnOrg | City | Body | Arg | Header | Unheard(text: string)

  datatype Condition = Condition(param: Param, name: string, op: Op, value: string)

  datatype Action = Allow | Log | Deny | RateLimit | Unknown

  datatype Rule = Rule(enabled: bool, action: Action, groups: seq<seq<Condition>>)

  /** The value of a parameter, under the name some parameters take, if the request has it. */
  type Request = (Param, string) -> Option<string>

  // ----- one condition

  predicate Negated(op: Op) {
    op.NotIn? || op.NotInIp?
  }

  /** Conditions on the client address that are about networks. */
  predicate OnNetworks(c: Condition) {
    c.param.Ip? && (c.op.Equals? || c.op.In? || c.op.NotIn? || c.op.InIp? || c.op.NotInIp?)
  }

  function Items(lib: Lib, list: string): set<string> {
    var parts := lib.split(list);
    set i | 0 <= i < |parts| && |lib.trim(parts[i])| > 0 :: lib.trim(parts[i])
  }

  predicate Inside(lib: Lib, nets: seq<Net>, addr: Addr) {
    exists i :: 0 <= i < |nets| && lib.within(addr, nets[i])
  }

  predicate InNetworks(lib: Lib, c: Condition, v: string) {
    && |lib.nets(c.value)| > 0 && lib.address(lib.trim(v)).Some?
    && Inside(lib, lib.nets(c.value), lib.address(lib.trim(v)).value) != Negated(c.op)
  }

  predicate Compares(lib: Lib, lo: string, hi: string) {
    && lib.number(lib.trim(lo)).Some? && lib.number(lib.trim(hi)).Some?
    && Less(lib.number(lib.trim(lo)).value, lib.number(lib.trim(hi)).value)
  }

  predicate HoldsOfText(lib: Lib, c: Condition, v: string) {
    match c.op
    case Contains => Occurs(lib.lower(c.value), lib.lower(v))
    case Equals => v == c.value
    case StartsWith => HasPrefix(v, c.value)
    case EndsWith => HasSuffix(v, c.value)
    case Regex => lib.compiles(c.value) && lib.matches(c.value, v)
    case In => v in Items(lib, c.value)
    case NotIn => v !in Items(lib, c.value)
    case Gt => Compares(lib, c.value, v)
    case Lt => Compares(lib, v, c.value)
    case Exists => true
    case _ => false
  }

  ghost predicate Surrounds(text: string, front: string, part: string, back: string) {
    text == front + part + back
  }

  lemma OccursIff(part: string, text: string)
    ensures Occurs(part, text) <==> exists front, back :: Surrounds(text, front, part, back)
  {
    if Occurs(part, text) {
      var i :| 0 <= i <= |text| && HasPrefix(text[i..], part);
      assert Surrounds(text, text[..i], part, text[i + |part|..]);
    }
    if front, back :| Surrounds(text, front, part, back) {
      assert text[|front|..] == part + back;
      assert HasPrefix(text[|front|..], part);
    }
  }

  lemma PrefixIff(text: string, part: string)
    ensures HasPrefix(text, part) <==> exists back :: Surrounds(text, "", part, back)
  {
    if HasPrefix(text, part) {
      assert Surrounds(text, "", part, text[|part|..]);
    }
  }

  lemma SuffixIff(text: string, part: string)
    ensures HasSuffix(text, part) <==> exists front :: Surrounds(text, front, part, "")
  {
    if HasSuffix(text, part) {
      assert Surrounds(text, text[..|text| - |part|], part, "");
    }
  }

  /** What a condition on numbers says: greater and less are each other turned round, and numbers
      compare as they do. */
  lemma ComparisonsMean(lib: Lib, p: Param, n: string, x: string, v: string)
    ensures Holds(lib, Condition(p, n, Gt, x), Some(v)) <==> Holds(lib, Condition(p, n, Lt, v), Some(x))
    ensures forall a, b ::
              lib.number(lib.trim(v)) == Some(Finite(a)) && lib.number(lib.trim(x)) == Some(Finite(b)) ==>
                (Holds(lib, Condition(p, n, Gt, x), Some(v)) <==> a > b)
  {
  }

  /** What a condition on text says of a value, by how the value is made up. */
  lemma TextMeans(lib: Lib, p: Param, n: string, x: string, v: string)
    requires !p.Ip?
    ensures Holds(lib, Condition(p, n, Equals, x), Some(v)) <==> v == x
    ensures Holds(lib, Condition(p, n, StartsWith, x), Some(v)) <==> exists back :: Surrounds(v, "", x, back)
    ensures Holds(lib, Condition(p, n, EndsWith, x), Some(v)) <==> exists front :: Surrounds(v, front, x, "")
    ensures Holds(lib, Condition(p, n, Regex, x), Some(v)) <==> lib.compiles(x) && lib.matches(x, v)
  {
    PrefixIff(v, x);
    SuffixIff(v, x);
  }

  /** Text is contained without regard to case. */
  lemma ContainsMeans(lib: Lib, p: Param, n: string, x: string, v: string)
    ensures Holds(lib, Condition(p, n, Contains, x), Some(v)) <==>
            exists front, back :: Surrounds(lib.lower(v), front, lib.lower(x), back)
  {
    OccursIff(lib.lower(x), lib.lower(v));
  }

  /** What a condition on lists, or on presence, says of a value. */
  lemma ListsMean(lib: Lib, p: Param, n: string, x: string, v: string)
    requires !p.Ip?
    ensures Holds(lib, Condition(p, n, In, x), Some(v)) <==>
            v != "" && exists i :: 0 <= i < |lib.split(x)| && lib.trim(lib.split(x)[i]) == v
    ensures Holds(lib, Condition(p, n, NotIn, x), Some(v)) <==> !Holds(lib, Condition(p, n, In, x), Some(v))
    ensures Holds(lib, Condition(p, n, Exists, x), Some(v)) && !Holds(lib, Condition(p, n, NotExists, x), Some(v))
    ensures Holds(lib, Condition(p, n, NotExists, x), None) && !Holds(lib, Condition(p, n, Exists, x), None)
  {
  }

  /** What a condition on networks says of an address: it lies in one of them, or in none. */
  lemma NetworksMean(lib: Lib, n: string, x: string, v: string)
    ensures Holds(lib, Condition(Ip, n, InIp, x), Some(v)) <==>
            && lib.address(lib.trim(v)).Some?
            && exists i :: 0 <= i < |lib.nets(x)| && lib.within(lib.address(lib.trim(v)).value, lib.nets(x)[i])
    ensures Holds(lib, Condition(Ip, n, NotInIp, x), Some(v)) <==>
            && lib.address(lib.trim(v)).Some? && lib.nets(x) != []
            && forall i :: 0 <= i < |lib.nets(x)| ==> !lib.within(lib.address(lib.trim(v)).value, lib.nets(x)[i])
  {
  }

  /** The condition holds of a parameter's value, or of its absence. */
  predicate Holds(lib: Lib, c: Condition, v: Option<string>) {
    if OnNetworks(c) then v.Some? && InNetworks(lib, c, v.value)
    else if c.op.NotExists? then v.None?
    else v.Some? && HoldsOfText(lib, c, v.value)
  }

  predicate HoldsOf(lib: Lib, c: Condition, get: Request) {
    Holds(lib, c, get(c.param, c.name))
  }

  // ----- rules

  /** Conditions without a parameter are ignored, and a group of none but those never matches. */
  predicate GroupMatches(lib: Lib, group: seq<Condition>, get: Request) {
    && (exists i :: 0 <= i < |group| && !group[i].param.Blank?)
    && forall i :: 0 <= i < |group| && !group[i].param.Blank? ==> HoldsOf(lib, group[i], get)
  }

  predicate Matches(lib: Lib, rule: Rule, get: Request) {
    exists i :: 0 <= i < |rule.groups| && GroupMatches(lib, rule.groups[i], get)
  }

  predicate Decisive(action: Action) {
    action.Allow? || action.Deny? || action.RateLimit?
  }

  /** The rule, by its place in the list, that decides about the request. */
  ghost predicate Decides(lib: Lib, rules: seq<Rule>, get: Request, k: nat) {
    k < |rules| && rules[k].enabled && Decisive(rules[k].action) && Matches(lib, rules[k], get)
  }

  /** The outcome: the first decisive rule, or none. */
  ghost predicate Outcome(lib: Lib, rules: seq<Rule>, get: Request, decided: Option<nat>) {
    match decided
    case None => forall k: nat :: !Decides(lib, rules, get, k)
    case Some(k) => Decides(lib, rules, get, k) && forall j: nat :: j < k ==> !Decides(lib, rules, get, j)
  }

  /** A rule is an OR of its groups. */
  lemma GroupsAreOr(lib: Lib, on: bool, act: Action, a: seq<seq<Condition>>, b: seq<seq<Condition>>, get: Request)
    ensures Matches(lib, Rule(on, act, a + b), get) <==>
            Matches(lib, Rule(on, act, a), get) || Matches(lib, Rule(on, act, b), get)
  {
    var both := a + b;
    assert forall i :: 0 <= i < |a| ==> both[i] == a[i];
    assert forall i :: 0 <= i < |b| ==> both[|a| + i] == b[i];
    if Matches(lib, Rule(on, act, b), get) {
      var i :| 0 <= i < |b| && GroupMatches(lib, b[i], get);
      assert GroupMatches(lib, both[|a| + i], get);
    }
  }

  /** A group is an AND of its conditions that name a parameter. */
  lemma ConditionsAreAnd(lib: Lib, g: seq<Condition>, c: Condition, get: Request)
    requires !c.param.Blank?
    ensures GroupMatches(lib, g + [c], get) <==>
            HoldsOf(lib, c, get) && ((forall i :: 0 <= i < |g| ==> g[i].param.Blank?) || GroupMatches(lib, g, get))
  {
    var more := g + [c];
    assert more[|g|] == c && forall i :: 0 <= i < |g| ==> more[i] == g[i];
  }

  /** Only enabled rules that allow, deny or limit decide, and of those that match the first does. */
  lemma FirstOfTheseDecides(lib: Lib, rules: seq<Rule>, get: Request, decided: Option<nat>, k: nat)
    requires Outcome(lib, rules, get, decided) && k < |rules| && Matches(lib, rules[k], get)
    ensures rules[k].enabled && rules[k].action in {Allow, Deny, RateLimit} ==> decided.Some? && decided.value <= k
    ensures !rules[k].enabled || rules[k].action in {Log, Unknown} ==> decided != Some(k)
  {
    if rules[k].enabled && Decisive(rules[k].action) {
      assert Decides(lib, rules, get, k);
    }
  }
}
