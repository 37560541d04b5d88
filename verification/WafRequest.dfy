/** What a request answers for a parameter, and which answers there are. */
module WafRequest {
  import opened Basics
  import opened WafRules

  /** A network number in 32 bits. */
  type Number = n: nat | n < 0x1_0000_0000

  /** Text that no request lacks: its address, which is at least a slash, and its method. */
  type Text = s: string | |s| > 0 witness "/"

  /** A request as far as the firewall reads it. A field that is missing is empty; headers go
      by canonical name, and the network number 0 is none. A body over the limit reads as
      missing. */
  datatype Fields = Fields(
    host: string, headers: string -> string, url: Text, path: string, query: string, method_: Text,
    ip: string, country: string, asn: Number, asnOrg: string, city: string, body: string, args: string -> string)

  /** A request with nothing in it that can be missing. */
  const BARE := Fields("", _ => "", "/", "", "", "/", "", "", 0, "", "", "", _ => "")

  const AGENT := "User-Agent"
  const REFERER := "Referer"
  const COOKIE := "Cookie"

  function Present(v: string): Option<string> {
    if |v| > 0 then Some(v) else None
  }

  function Get(lib: Lib, r: Fields, p: Param, name: string): Option<string> {
    match p
    case Host => Present(r.host)
    case UserAgent => Present(r.headers(AGENT))
    case Referer => Present(r.headers(REFERER))
    case Cookie => Present(r.headers(COOKIE))
    case Url => Some(r.url)
    case Path => Some(r.path)
    case Query => Some(r.query)
    case Method => Some(r.method_)
    case Ip => Present(r.ip)
    case Country => Present(r.country)
    case Asn => if r.asn == 0 then None else Some(lib.decimal(r.asn))
    case AsnOrg => Present(r.asnOrg)
    case City => Present(r.city)
    case Body => Present(r.body)
    case Arg => Present(r.args(name))
    case Header => Present(r.headers(lib.canonical(name)))
    case _ => None
  }

  function Reader(lib: Lib, r: Fields): Request {
    (p, name) => Get(lib, r, p, name)
  }

  /** Names that read the same: only arguments and headers have any, and headers go by their
      canonical name. */
  function KeyOf(lib: Lib, p: Param, name: string): string {
    match p
    case Arg => name
    case Header => lib.canonical(name)
    case _ => ""
  }

  /** The answers there are for a parameter. */
  ghost predicate CanRead(lib: Lib, p: Param, v: Option<string>) {
    match p
    case Url => v.Some? && |v.value| > 0
    case Path => v.Some?
    case Query => v.Some?
    case Method => v.Some? && |v.value| > 0
    case Asn => v.None? || exists n: Number :: n > 0 && v.value == lib.decimal(n)
    case Unheard(_) => v.None?
    case Blank => v.None?
    case _ => v.Some? ==> |v.value| > 0
  }

  lemma ReadsWhatCanBe(lib: Lib, r: Fields, p: Param, name: string)
    ensures CanRead(lib, p, Get(lib, r, p, name))
  {
  }

  lemma SameKeySameAnswer(lib: Lib, r: Fields, p: Param, name: string, other: string)
    requires KeyOf(lib, p, name) == KeyOf(lib, p, other)
    ensures Get(lib, r, p, name) == Get(lib, r, p, other)
  {
  }

  function TextOr(v: Option<string>): string {
    if v.Some? then v.value else ""
  }

  function At(key: string, v: string, other: string): string -> string {
    k => if k == key then v else other
  }

  // ----- which field a parameter reads

  predicate OnHeaders(p: Param) {
    p.Header? || p.UserAgent? || p.Referer? || p.Cookie?
  }

  /** The path is read, whatever it is, as the path and as nothing else. */
  lemma PathIsRead(lib: Lib, r: Fields, v: string, q: Param, n: string)
    ensures Get(lib, r.(path := v), Path, n) == Some(v)
    ensures !q.Path? ==> Get(lib, r.(path := v), q, n) == Get(lib, r, q, n)
  {
  }

  /** The query is read, whatever it is, as the query and as nothing else. */
  lemma QueryIsRead(lib: Lib, r: Fields, v: string, q: Param, n: string)
    ensures Get(lib, r.(query := v), Query, n) == Some(v)
    ensures !q.Query? ==> Get(lib, r.(query := v), q, n) == Get(lib, r, q, n)
  {
  }

  /** So is the address. */
  lemma UrlIsRead(lib: Lib, r: Fields, v: Text, q: Param, n: string)
    ensures Get(lib, r.(url := v), Url, n) == Some(v)
    ensures !q.Url? ==> Get(lib, r.(url := v), q, n) == Get(lib, r, q, n)
  {
  }

  /** So is the method. */
  lemma MethodIsRead(lib: Lib, r: Fields, v: Text, q: Param, n: string)
    ensures Get(lib, r.(method_ := v), Method, n) == Some(v)
    ensures !q.Method? ==> Get(lib, r.(method_ := v), q, n) == Get(lib, r, q, n)
  {
  }

  /** The host is read unless it is empty. */
  lemma HostIsRead(lib: Lib, r: Fields, v: string, q: Param, n: string)
    ensures Get(lib, r.(host := v), Host, n) == if v == "" then None else Some(v)
    ensures !q.Host? ==> Get(lib, r.(host := v), q, n) == Get(lib, r, q, n)
  {
  }

  /** The client address is read unless it is empty. */
  lemma IpIsRead(lib: Lib, r: Fields, v: string, q: Param, n: string)
    ensures Get(lib, r.(ip := v), Ip, n) == if v == "" then None else Some(v)
    ensures !q.Ip? ==> Get(lib, r.(ip := v), q, n) == Get(lib, r, q, n)
  {
  }

  /** The country is read unless it is empty. */
  lemma CountryIsRead(lib: Lib, r: Fields, v: string, q: Param, n: string)
    ensures Get(lib, r.(country := v), Country, n) == if v == "" then None else Some(v)
    ensures !q.Country? ==> Get(lib, r.(country := v), q, n) == Get(lib, r, q, n)
  {
  }

  /** The organisation of the network is read unless it is empty. */
  lemma AsnOrgIsRead(lib: Lib, r: Fields, v: string, q: Param, n: string)
    ensures Get(lib, r.(asnOrg := v), AsnOrg, n) == if v == "" then None else Some(v)
    ensures !q.AsnOrg? ==> Get(lib, r.(asnOrg := v), q, n) == Get(lib, r, q, n)
  {
  }

  /** The city is read unless it is empty. */
  lemma CityIsRead(lib: Lib, r: Fields, v: string, q: Param, n: string)
    ensures Get(lib, r.(city := v), City, n) == if v == "" then None else Some(v)
    ensures !q.City? ==> Get(lib, r.(city := v), q, n) == Get(lib, r, q, n)
  {
  }

  /** The body is read unless it is empty. */
  lemma BodyIsRead(lib: Lib, r: Fields, v: string, q: Param, n: string)
    ensures Get(lib, r.(body := v), Body, n) == if v == "" then None else Some(v)
    ensures !q.Body? ==> Get(lib, r.(body := v), q, n) == Get(lib, r, q, n)
  {
  }

  /** The number of the network is read, in decimal, unless it is 0. */
  lemma AsnIsRead(lib: Lib, r: Fields, v: Number, q: Param, n: string)
    ensures Get(lib, r.(asn := v), Asn, n) == if v == 0 then None else Some(lib.decimal(v))
    ensures !q.Asn? ==> Get(lib, r.(asn := v), q, n) == Get(lib, r, q, n)
  {
  }

  /** An argument is read by its name unless it is empty. */
  lemma ArgsAreRead(lib: Lib, r: Fields, v: string -> string, q: Param, n: string)
    ensures Get(lib, r.(args := v), Arg, n) == if v(n) == "" then None else Some(v(n))
    ensures !q.Arg? ==> Get(lib, r.(args := v), q, n) == Get(lib, r, q, n)
  {
  }

  /** A header is read by its canonical name unless it is empty; three have parameters of their own. */
  lemma HeadersAreRead(lib: Lib, r: Fields, v: string -> string, q: Param, n: string)
    ensures Get(lib, r.(headers := v), Header, n) ==
            if v(lib.canonical(n)) == "" then None else Some(v(lib.canonical(n)))
    ensures Get(lib, r.(headers := v), UserAgent, n) == if v("User-Agent") == "" then None else Some(v("User-Agent"))
    ensures Get(lib, r.(headers := v), Referer, n) == if v("Referer") == "" then None else Some(v("Referer"))
    ensures Get(lib, r.(headers := v), Cookie, n) == if v("Cookie") == "" then None else Some(v("Cookie"))
    ensures !OnHeaders(q) ==> Get(lib, r.(headers := v), q, n) == Get(lib, r, q, n)
  {
  }

  // ----- every answer is given by some request

  ghost function NumberOf(lib: Lib, v: Option<string>): Number {
    if v.Some? && exists n: Number :: n > 0 && v.value == lib.decimal(n) then
      (var n: Number :| n > 0 && v.value == lib.decimal(n); n)
    else 0 as Number
  }

  /** The request changed, in the field of one parameter alone, so that it answers v under one
      name of the parameter and w under all others. */
  ghost function Answering(lib: Lib, r: Fields, p: Param, name: string, v: Option<string>, w: Option<string>): Fields
    requires CanRead(lib, p, v)
  {
    var t := TextOr(v);
    match p
    case Host => r.(host := t)
    case UserAgent => r.(headers := At(AGENT, t, ""))
    case Referer => r.(headers := At(REFERER, t, ""))
    case Cookie => r.(headers := At(COOKIE, t, ""))
    case Header => r.(headers := At(lib.canonical(name), t, TextOr(w)))
    case Url => r.(url := t)
    case Path => r.(path := t)
    case Query => r.(query := t)
    case Method => r.(method_ := t)
    case Ip => r.(ip := t)
    case Country => r.(country := t)
    case Asn => r.(asn := NumberOf(lib, v))
    case AsnOrg => r.(asnOrg := t)
    case City => r.(city := t)
    case Body => r.(body := t)
    case Arg => r.(args := At(name, t, TextOr(w)))
    case _ => r
  }

  /** Every answer there is, any request gives once the field of the parameter is changed, and
      one under one name does not bind the answer under a name that reads otherwise. */
  lemma AnswersAsAsked(
      lib: Lib, r: Fields, p: Param, name: string, v: Option<string>, other: string, w: Option<string>)
    requires CanRead(lib, p, v) && CanRead(lib, p, w)
    ensures Get(lib, Answering(lib, r, p, name, v, w), p, name) == v
    ensures KeyOf(lib, p, other) != KeyOf(lib, p, name) ==>
              Get(lib, Answering(lib, r, p, name, v, w), p, other) == w
  {
  }

  /** Nor does it bind the answer of a parameter that reads another field. */
  lemma OthersAreUnbound(
      lib: Lib, r: Fields, p: Param, name: string, v: Option<string>, w: Option<string>, q: Param, other: string)
    requires CanRead(lib, p, v) && q != p && !(OnHeaders(p) && OnHeaders(q))
    ensures Get(lib, Answering(lib, r, p, name, v, w), q, other) == Get(lib, r, q, other)
  {
    var t := TextOr(v);
    match p
    case Host => HostIsRead(lib, r, t, q, other);
    case UserAgent => HeadersAreRead(lib, r, At(AGENT, t, ""), q, other);
    case Referer => HeadersAreRead(lib, r, At(REFERER, t, ""), q, other);
    case Cookie => HeadersAreRead(lib, r, At(COOKIE, t, ""), q, other);
    case Header => HeadersAreRead(lib, r, At(lib.canonical(name), t, TextOr(w)), q, other);
    case Url => UrlIsRead(lib, r, t, q, other);
    case Path => PathIsRead(lib, r, t, q, other);
    case Query => QueryIsRead(lib, r, t, q, other);
    case Method => MethodIsRead(lib, r, t, q, other);
    case Ip => IpIsRead(lib, r, t, q, other);
    case Country => CountryIsRead(lib, r, t, q, other);
    case Asn => AsnIsRead(lib, r, NumberOf(lib, v), q, other);
    case AsnOrg => AsnOrgIsRead(lib, r, t, q, other);
    case City => CityIsRead(lib, r, t, q, other);
    case Body => BodyIsRead(lib, r, t, q, other);
    case Arg => ArgsAreRead(lib, r, At(name, t, TextOr(w)), q, other);
    case _ =>
  }
}
