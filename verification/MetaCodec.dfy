/** The binary sidecar of a cached response: status, host, path and headers. The current
    format starts with a version byte; the legacy format starts with the status and is
    told apart by its first byte alone. */
module MetaCodec {
  type byte = x: nat | x < 256
  type Bytes = seq<byte>

  const META_VERSION: byte := 2
  const MAX_HEADERS: nat := 10000
  const MAX_STRING: nat := 0x10_0000

  /** Header names with their values, as in a response. */
  type Headers = map<Bytes, seq<Bytes>>

  datatype Meta = Meta(status: nat, host: Bytes, path: Bytes, headers: Headers)

  datatype Parsed<+T> = Got(value: T, rest: Bytes) | Bad

  // ----- writing

  /** The low k bytes of a number, least significant first. */
  function LittleEndian(x: nat, k: nat): (b: Bytes)
    ensures |b| == k
  {
    if k == 0 then [] else [x % 256] + LittleEndian(x / 256, k - 1)
  }

  function WriteString(s: Bytes): Bytes {
    LittleEndian(|s|, 4) + s
  }

  /** The values of a header joined with ", ". */
  function Join(vals: seq<Bytes>): Bytes {
    if vals == [] then []
    else if |vals| == 1 then vals[0]
    else vals[0] + [44, 32] + Join(vals[1..])
  }

  /** One value is joined to itself, and two lists to what each is joined to with ", " between. */
  lemma {:induction false} JoinConcat(a: seq<Bytes>, b: seq<Bytes>, v: Bytes)
    ensures Join([v]) == v
    ensures a != [] && b != [] ==> Join(a + b) == Join(a) + [44, 32] + Join(b)
  {
    if a != [] && b != [] {
      if |a| == 1 {
        assert (a + b)[0] == a[0] && (a + b)[1..] == b;
      } else {
        JoinConcat(a[1..], b, v);
        assert (a + b)[0] == a[0] && (a + b)[1..] == a[1..] + b;
      }
    }
  }

  function JoinedValue(h: Headers, k: Bytes): Bytes {
    if k in h then Join(h[k]) else []
  }

  function WriteHeader(h: Headers, k: Bytes): Bytes {
    WriteString(k) + WriteString(JoinedValue(h, k))
  }

  function Concat(item: Bytes -> Bytes, ks: seq<Bytes>): Bytes {
    if ks == [] then [] else item(ks[0]) + Concat(item, ks[1..])
  }

  function WriteHeaders(h: Headers, order: seq<Bytes>): Bytes {
    Concat(k => WriteHeader(h, k), order)
  }

  /** Any order in which a run over the header map may meet its keys. */
  ghost predicate IsOrder(order: seq<Bytes>, h: Headers) {
    |order| == |h| && forall k :: k in order <==> k in h
  }

  function HeaderBlock(h: Headers, order: seq<Bytes>): Bytes {
    LittleEndian(|h|, 4) + WriteHeaders(h, order)
  }

  function Encode(m: Meta, order: seq<Bytes>): Bytes {
    [META_VERSION] + (LittleEndian(m.status, 2) +
      (WriteString(m.host) + WriteString(m.path) + HeaderBlock(m.headers, order)))
  }

  /** The legacy sidecar: no version byte, no host and no path. */
  function EncodeLegacy(status: nat, h: Headers, order: seq<Bytes>): Bytes {
    LittleEndian(status, 2) + HeaderBlock(h, order)
  }

  method AppendHeaders(front: Bytes, h: Headers, order: seq<Bytes>) returns (buf: Bytes)
    requires forall k :: k in order ==> k in h
    ensures buf == front + WriteHeaders(h, order)
  {
    buf := front;
    ghost var item := k => WriteHeader(h, k);
    assert order[0..] == order;
    for i := 0 to |order|
      invariant buf + Concat(item, order[i..]) == front + Concat(item, order)
    {
      var k := order[i];
      OneMore(item, order, i);
      AppendTwo(buf, WriteString(k), WriteString(Join(h[k])), Concat(item, order[i + 1..]));
      buf := buf + WriteString(k);
      buf := buf + WriteString(Join(h[k]));
    }
    assert order[|order|..] == [] && buf + [] == buf;
  }

  lemma OneMore(item: Bytes -> Bytes, ks: seq<Bytes>, i: nat)
    requires i < |ks|
    ensures Concat(item, ks[i..]) == item(ks[i]) + Concat(item, ks[i + 1..])
  {
    assert ks[i..][1..] == ks[i + 1..];
  }

  lemma AppendTwo(front: Bytes, a: Bytes, b: Bytes, rest: Bytes)
    ensures front + a + b + rest == front + ((a + b) + rest)
  {
  }

  method WriteMetadata(m: Meta, order: seq<Bytes>) returns (buf: Bytes)
    requires IsOrder(order, m.headers)
    ensures buf == Encode(m, order)
  {
    buf := [META_VERSION];
    buf := buf + LittleEndian(m.status, 2);
    buf := buf + WriteString(m.host);
    buf := buf + WriteString(m.path);
    buf := buf + LittleEndian(|m.headers|, 4);
    FieldsInOrder(m, order, buf);
    buf := AppendHeaders(buf, m.headers, order);
  }

  lemma FieldsInOrder(m: Meta, order: seq<Bytes>, front: Bytes)
    requires front == [META_VERSION] + LittleEndian(m.status, 2) + WriteString(m.host) + WriteString(m.path) +
                      LittleEndian(|m.headers|, 4)
    ensures front + WriteHeaders(m.headers, order) == Encode(m, order)
  {
    var a, b, c, d, e := LittleEndian(m.status, 2), WriteString(m.host), WriteString(m.path),
                         LittleEndian(|m.headers|, 4), WriteHeaders(m.headers, order);
    Regroup([META_VERSION], a, b, c, d, e);
  }

  lemma Regroup(v: Bytes, a: Bytes, b: Bytes, c: Bytes, d: Bytes, e: Bytes)
    ensures v + a + b + c + d + e == v + (a + (b + c + (d + e)))
  {
    assert v + a + b + c + d + e == v + a + b + c + (d + e);
    assert v + a + b + c + (d + e) == v + a + (b + c + (d + e));
  }

  // ----- reading

  function FromLittleEndian(b: Bytes): nat {
    if b == [] then 0 else b[0] as nat + 256 * FromLittleEndian(b[1..])
  }

  function ReadNumber(b: Bytes, k: nat): Parsed<nat> {
    if |b| < k then Bad else Got(FromLittleEndian(b[..k]), b[k..])
  }

  function ReadString(b: Bytes): Parsed<Bytes> {
    match ReadNumber(b, 4)
    case Bad => Bad
    case Got(n, rest) =>
      if n > MAX_STRING || |rest| < n then Bad else Got(rest[..n], rest[n..])
  }

  function ReadPair(b: Bytes): Parsed<(Bytes, Bytes)> {
    match ReadString(b)
    case Bad => Bad
    case Got(k, rest) =>
      match ReadString(rest)
      case Bad => Bad
      case Got(v, rest') => Got((k, v), rest')
  }

  /** n pairs read by item, a later value of a name replacing an earlier one. */
  function Repeat(item: Bytes -> Parsed<(Bytes, Bytes)>, b: Bytes, n: nat, h: Headers): Parsed<Headers>
    decreases n
  {
    if n == 0 then Got(h, b)
    else
      match item(b)
      case Bad => Bad
      case Got(p, rest) => Repeat(item, rest, n - 1, h[p.0 := [p.1]])
  }

  function ReadHeaderBlock(b: Bytes): Parsed<Headers> {
    match ReadNumber(b, 4)
    case Bad => Bad
    case Got(n, rest) => if n > MAX_HEADERS then Bad else Repeat(ReadPair, rest, n, map[])
  }

  function ReadLegacy(b: Bytes): Parsed<Meta> {
    match ReadNumber(b, 2)
    case Bad => Bad
    case Got(status, rest) =>
      match ReadHeaderBlock(rest)
      case Bad => Bad
      case Got(h, rest') => Got(Meta(status, [], [], h), rest')
  }

  function ReadCurrent(b: Bytes): Parsed<Meta> {
    match ReadNumber(b, 2)
    case Bad => Bad
    case Got(status, rest) =>
      match ReadPair(rest)
      case Bad => Bad
      case Got(p, rest') =>
        match ReadHeaderBlock(rest')
        case Bad => Bad
        case Got(h, rest'') => Got(Meta(status, p.0, p.1, h), rest'')
  }

  function Read(b: Bytes): Parsed<Meta> {
    if b == [] then Bad
    else if b[0] == 1 || b[0] == 2 then ReadCurrent(b[1..])
    else ReadLegacy(b)
  }

  method ReadMany(item: Bytes -> Parsed<(Bytes, Bytes)>, b: Bytes, n: nat) returns (r: Parsed<Headers>)
    ensures r == Repeat(item, b, n, map[])
  {
    var h: Headers, rest := map[], b;
    for i := 0 to n
      invariant Repeat(item, rest, n - i, h) == Repeat(item, b, n, map[])
    {
      var p := item(rest);
      if p.Bad? {
        return Bad;
      }
      h, rest := h[p.value.0 := [p.value.1]], p.rest;
    }
    return Got(h, rest);
  }

  method ReadHeaders(b: Bytes) returns (r: Parsed<Headers>)
    ensures r == ReadHeaderBlock(b)
  {
    var n := ReadNumber(b, 4);
    if n.Bad? || n.value > MAX_HEADERS {
      return Bad;
    }
    r := ReadMany(ReadPair, n.rest, n.value);
  }

  method ReadMetadata(b: Bytes) returns (r: Parsed<Meta>)
    ensures r == Read(b)
  {
    if |b| < 1 {
      return Bad;
    }
    if b[0] != 1 && b[0] != 2 {
      var legacy := ReadNumber(b, 2);
      if legacy.Bad? {
        return Bad;
      }
      var h := ReadHeaders(legacy.rest);
      return if h.Bad? then Bad else Got(Meta(legacy.value, [], [], h.value), h.rest);
    }
    var status := ReadNumber(b[1..], 2);
    if status.Bad? {
      return Bad;
    }
    var host := ReadString(status.rest);
    if host.Bad? {
      return Bad;
    }
    var path := ReadString(host.rest);
    if path.Bad? {
      return Bad;
    }
    var h := ReadHeaders(path.rest);
    return if h.Bad? then Bad else Got(Meta(status.value, host.value, path.value, h.value), h.rest);
  }

  // ----- what a reader sees of what was written

  ghost function Joined(h: Headers): Headers {
    map k | k in h :: [JoinedValue(h, k)]
  }

  ghost function AsRead(m: Meta): Meta {
    m.(headers := Joined(m.headers))
  }

  /** The limits the reader enforces and the width of the status field. */
  ghost predicate WithinLimits(m: Meta) {
    && m.status < 0x1_0000 && |m.host| <= MAX_STRING && |m.path| <= MAX_STRING
    && HeadersWithinLimits(m.headers)
  }

  ghost predicate HeadersWithinLimits(h: Headers) {
    |h| <= MAX_HEADERS && forall k :: k in h ==> |k| <= MAX_STRING && |Join(h[k])| <= MAX_STRING
  }

  ghost function Pow256(k: nat): nat {
    if k == 0 then 1 else 256 * Pow256(k - 1)
  }

  lemma NumberRoundTrip(x: nat, k: nat, rest: Bytes)
    requires x < Pow256(k)
    ensures ReadNumber(LittleEndian(x, k) + rest, k) == Got(x, rest)
  {
    var b := LittleEndian(x, k);
    assert (b + rest)[..k] == b && (b + rest)[k..] == rest;
    LittleEndianIsExact(x, k);
  }

  lemma {:induction false} LittleEndianIsExact(x: nat, k: nat)
    requires x < Pow256(k)
    ensures FromLittleEndian(LittleEndian(x, k)) == x
  {
    if k > 0 {
      assert x / 256 < Pow256(k - 1);
      LittleEndianIsExact(x / 256, k - 1);
      assert LittleEndian(x, k)[1..] == LittleEndian(x / 256, k - 1);
    }
  }

  lemma StatusRoundTrip(x: nat, rest: Bytes)
    requires x < 0x1_0000
    ensures ReadNumber(LittleEndian(x, 2) + rest, 2) == Got(x, rest)
  {
    assert Pow256(2) == 0x1_0000;
    NumberRoundTrip(x, 2, rest);
  }

  lemma LengthRoundTrip(x: nat, rest: Bytes)
    requires x < 0x1_0000_0000
    ensures ReadNumber(LittleEndian(x, 4) + rest, 4) == Got(x, rest)
  {
    assert Pow256(4) == 0x1_0000_0000;
    NumberRoundTrip(x, 4, rest);
  }

  lemma StringRoundTrip(s: Bytes, rest: Bytes)
    requires |s| <= MAX_STRING
    ensures ReadString(WriteString(s) + rest) == Got(s, rest)
  {
    LengthRoundTrip(|s|, s + rest);
    assert WriteString(s) + rest == LittleEndian(|s|, 4) + (s + rest);
    assert (s + rest)[..|s|] == s && (s + rest)[|s|..] == rest;
  }

  lemma PairRoundTrip(k: Bytes, v: Bytes, rest: Bytes)
    requires |k| <= MAX_STRING && |v| <= MAX_STRING
    ensures ReadPair(WriteString(k) + WriteString(v) + rest) == Got((k, v), rest)
  {
    assert WriteString(k) + WriteString(v) + rest == WriteString(k) + (WriteString(v) + rest);
    StringRoundTrip(k, WriteString(v) + rest);
    StringRoundTrip(v, rest);
  }

  ghost function Singles(value: Bytes -> Bytes, ks: seq<Bytes>): Headers {
    map k | k in ks :: [value(k)]
  }

  lemma SinglesStep(value: Bytes -> Bytes, ks: seq<Bytes>, seen: Headers)
    requires ks != []
    ensures seen[ks[0] := [value(ks[0])]] + Singles(value, ks[1..]) == seen + Singles(value, ks)
  {
    assert ks == [ks[0]] + ks[1..];
    assert forall j :: j in ks <==> j == ks[0] || j in ks[1..];
  }

  lemma {:induction false} RepeatRoundTrip(
      item: Bytes -> Parsed<(Bytes, Bytes)>, write: Bytes -> Bytes, value: Bytes -> Bytes,
                                           ks: seq<Bytes>, seen: Headers, rest: Bytes)
    requires forall k, r :: k in ks ==> item(write(k) + r) == Got((k, value(k)), r)
    ensures Repeat(item, Concat(write, ks) + rest, |ks|, seen) == Got(seen + Singles(value, ks), rest)
    decreases |ks|
  {
    if ks == [] {
      assert Concat(write, ks) + rest == rest;
      assert seen + Singles(value, ks) == seen;
    } else {
      var k, more := ks[0], Concat(write, ks[1..]) + rest;
      assert Concat(write, ks) + rest == write(k) + more;
      RepeatRoundTrip(item, write, value, ks[1..], seen[k := [value(k)]], rest);
      SinglesStep(value, ks, seen);
    }
  }

  ghost function JoinedAt(h: Headers, order: seq<Bytes>): Headers {
    Singles(k => JoinedValue(h, k), order)
  }

  lemma PairsRoundTrip(h: Headers, order: seq<Bytes>, rest: Bytes)
    requires HeadersWithinLimits(h) && forall k :: k in order ==> k in h
    ensures Repeat(ReadPair, WriteHeaders(h, order) + rest, |order|, map[]) == Got(map[] + JoinedAt(h, order), rest)
  {
    var item, write, value := ReadPair, k => WriteHeader(h, k), k => JoinedValue(h, k);
    forall k, r | k in order
      ensures item(write(k) + r) == Got((k, value(k)), r)
    {
      PairRoundTrip(k, JoinedValue(h, k), r);
    }
    RepeatRoundTrip(item, write, value, order, map[], rest);
  }

  lemma JoinedInAnyOrder(h: Headers, order: seq<Bytes>)
    requires IsOrder(order, h)
    ensures map[] + JoinedAt(h, order) == Joined(h)
  {
    assert JoinedAt(h, order).Keys == Joined(h).Keys;
  }

  lemma HeaderBlockRoundTrip(h: Headers, order: seq<Bytes>, rest: Bytes)
    requires IsOrder(order, h) && HeadersWithinLimits(h)
    ensures ReadHeaderBlock(HeaderBlock(h, order) + rest) == Got(Joined(h), rest)
  {
    var count, pairs := LittleEndian(|h|, 4), WriteHeaders(h, order);
    assert count + pairs + rest == count + (pairs + rest);
    LengthRoundTrip(|h|, pairs + rest);
    PairsRoundTrip(h, order, rest);
    JoinedInAnyOrder(h, order);
  }

  lemma CurrentRoundTrip(m: Meta, order: seq<Bytes>, status: Bytes, block: Bytes, rest: Bytes)
    requires IsOrder(order, m.headers) && WithinLimits(m)
    requires status == LittleEndian(m.status, 2) && block == HeaderBlock(m.headers, order)
    ensures ReadCurrent(status + (WriteString(m.host) + WriteString(m.path) + (block + rest))) == Got(AsRead(m), rest)
  {
    var fields := WriteString(m.host) + WriteString(m.path) + (block + rest);
    StatusRoundTrip(m.status, fields);
    PairRoundTrip(m.host, m.path, block + rest);
    HeaderBlockRoundTrip(m.headers, order, rest);
  }

  lemma EncodeThenRead(m: Meta, order: seq<Bytes>, rest: Bytes)
    requires IsOrder(order, m.headers) && WithinLimits(m)
    ensures Read(Encode(m, order) + rest) == Got(AsRead(m), rest)
  {
    var status, block := LittleEndian(m.status, 2), HeaderBlock(m.headers, order);
    var names := WriteString(m.host) + WriteString(m.path);
    CurrentRoundTrip(m, order, status, block, rest);
    SplitVersion(META_VERSION, status, names, block, rest);
  }

  lemma SplitVersion(v: byte, a: Bytes, b: Bytes, c: Bytes, d: Bytes)
    ensures ([v] + (a + (b + c)) + d)[0] == v && ([v] + (a + (b + c)) + d)[1..] == a + (b + (c + d))
  {
    assert a + (b + c) + d == a + (b + (c + d));
    assert [v] + (a + (b + c)) + d == [v] + (a + (b + c) + d);
  }

  // ----- every successful read is within the limits

  ghost predicate SingleBounded(h: Headers) {
    forall k :: k in h ==> |k| <= MAX_STRING && |h[k]| == 1 && |h[k][0]| <= MAX_STRING
  }

  lemma {:induction false} RepeatIsBounded(item: Bytes -> Parsed<(Bytes, Bytes)>, b: Bytes, n: nat, h: Headers)
    requires forall c :: item(c).Got? ==> |item(c).value.0| <= MAX_STRING && |item(c).value.1| <= MAX_STRING
    requires SingleBounded(h)
    ensures var r := Repeat(item, b, n, h); r.Got? ==> SingleBounded(r.value) && |r.value| <= |h| + n
    decreases n
  {
    if n > 0 && item(b).Got? {
      var p := item(b);
      RepeatIsBounded(item, p.rest, n - 1, h[p.value.0 := [p.value.1]]);
    }
  }

  lemma HeaderBlockIsBounded(b: Bytes)
    ensures var r := ReadHeaderBlock(b); r.Got? ==> SingleBounded(r.value) && |r.value| <= MAX_HEADERS
  {
    var n := ReadNumber(b, 4);
    if n.Got? && n.value <= MAX_HEADERS {
      RepeatIsBounded(ReadPair, n.rest, n.value, map[]);
    }
  }

  lemma {:induction false} NumberIsBounded(b: Bytes)
    ensures FromLittleEndian(b) < Pow256(|b|)
  {
    if b != [] {
      NumberIsBounded(b[1..]);
    }
  }

  lemma ReadIsBounded(b: Bytes)
    ensures Read(b).Got? ==>
              var m := Read(b).value;
              && m.status < 0x1_0000 && |m.host| <= MAX_STRING && |m.path| <= MAX_STRING
              && |m.headers| <= MAX_HEADERS && SingleBounded(m.headers)
  {
    if Read(b).Got? {
      var c := if b[0] == 1 || b[0] == 2 then b[1..] else b;
      assert Pow256(2) == 0x1_0000;
      NumberIsBounded(c[..2]);
      var rest := c[2..];
      if b[0] == 1 || b[0] == 2 {
        rest := ReadPair(c[2..]).rest;
      }
      HeaderBlockIsBounded(rest);
    }
  }

  /** Writing and reading back is exact, up to joining, precisely within the limits. */
  lemma RoundTripIff(m: Meta, order: seq<Bytes>)
    requires IsOrder(order, m.headers)
    ensures Read(Encode(m, order)) == Got(AsRead(m), []) <==> WithinLimits(m)
  {
    if WithinLimits(m) {
      EncodeThenRead(m, order, []);
      assert Encode(m, order) + [] == Encode(m, order);
    }
    if Read(Encode(m, order)) == Got(AsRead(m), []) {
      ReadIsBounded(Encode(m, order));
      assert Joined(m.headers).Keys == m.headers.Keys;
      forall k | k in m.headers
        ensures |k| <= MAX_STRING && |Join(m.headers[k])| <= MAX_STRING
      {
        assert Joined(m.headers)[k] == [Join(m.headers[k])];
      }
    }
  }

  // ----- prefixes and trailing bytes

  lemma NumberExtends(p: Bytes, q: Bytes, k: nat)
    requires ReadNumber(p, k).Got?
    ensures ReadNumber(p + q, k) == Got(ReadNumber(p, k).value, ReadNumber(p, k).rest + q)
  {
    assert (p + q)[..k] == p[..k] && (p + q)[k..] == p[k..] + q;
  }

  lemma StringExtends(p: Bytes, q: Bytes)
    requires ReadString(p).Got?
    ensures ReadString(p + q) == Got(ReadString(p).value, ReadString(p).rest + q)
  {
    NumberExtends(p, q, 4);
    var n := ReadNumber(p, 4);
    assert (n.rest + q)[..n.value] == n.rest[..n.value];
    assert (n.rest + q)[n.value..] == n.rest[n.value..] + q;
  }

  lemma PairExtends(p: Bytes, q: Bytes)
    requires ReadPair(p).Got?
    ensures ReadPair(p + q) == Got(ReadPair(p).value, ReadPair(p).rest + q)
  {
    StringExtends(p, q);
    StringExtends(ReadString(p).rest, q);
  }

  lemma {:induction false} RepeatExtends(item: Bytes -> Parsed<(Bytes, Bytes)>, p: Bytes, q: Bytes, n: nat, h: Headers)
    requires forall c {:trigger item(c + q)} :: item(c).Got? ==> item(c + q) == Got(item(c).value, item(c).rest + q)
    requires Repeat(item, p, n, h).Got?
    ensures Repeat(item, p + q, n, h) == Got(Repeat(item, p, n, h).value, Repeat(item, p, n, h).rest + q)
    decreases n
  {
    if n > 0 {
      var r := item(p);
      assert item(p + q) == Got(r.value, r.rest + q);
      RepeatExtends(item, r.rest, q, n - 1, h[r.value.0 := [r.value.1]]);
    }
  }

  lemma HeaderBlockExtends(p: Bytes, q: Bytes)
    requires ReadHeaderBlock(p).Got?
    ensures ReadHeaderBlock(p + q) == Got(ReadHeaderBlock(p).value, ReadHeaderBlock(p).rest + q)
  {
    NumberExtends(p, q, 4);
    var item := ReadPair;
    forall c | item(c).Got?
      ensures item(c + q) == Got(item(c).value, item(c).rest + q)
    {
      PairExtends(c, q);
    }
    RepeatExtends(item, ReadNumber(p, 4).rest, q, ReadNumber(p, 4).value, map[]);
  }

  lemma CurrentExtends(p: Bytes, q: Bytes)
    requires ReadCurrent(p).Got?
    ensures ReadCurrent(p + q) == Got(ReadCurrent(p).value, ReadCurrent(p).rest + q)
  {
    NumberExtends(p, q, 2);
    var rest := ReadNumber(p, 2).rest;
    PairExtends(rest, q);
    HeaderBlockExtends(ReadPair(rest).rest, q);
  }

  lemma LegacyExtends(p: Bytes, q: Bytes)
    requires ReadLegacy(p).Got?
    ensures ReadLegacy(p + q) == Got(ReadLegacy(p).value, ReadLegacy(p).rest + q)
  {
    NumberExtends(p, q, 2);
    HeaderBlockExtends(ReadNumber(p, 2).rest, q);
  }

  lemma ReadExtends(p: Bytes, q: Bytes)
    requires Read(p).Got?
    ensures Read(p + q) == Got(Read(p).value, Read(p).rest + q)
  {
    assert (p + q)[0] == p[0] && (p + q)[1..] == p[1..] + q;
    if p[0] == 1 || p[0] == 2 {
      CurrentExtends(p[1..], q);
    } else {
      LegacyExtends(p, q);
    }
  }

  /** A sidecar cut short anywhere is rejected rather than misread. */
  lemma StrictPrefixIsRejected(m: Meta, order: seq<Bytes>, k: nat)
    requires IsOrder(order, m.headers) && WithinLimits(m) && k < |Encode(m, order)|
    ensures Read(Encode(m, order)[..k]).Bad?
  {
    var e := Encode(m, order);
    EncodeThenRead(m, order, []);
    assert e + [] == e;
    LeavesNothing(e, k);
  }

  // What reads to the very end reads no strict prefix.
  lemma LeavesNothing(e: Bytes, k: nat)
    requires k < |e| && Read(e).Got? && Read(e).rest == []
    ensures Read(e[..k]).Bad?
  {
    assert e[..k] + e[k..] == e;
    if Read(e[..k]).Got? {
      ReadExtends(e[..k], e[k..]);
    }
  }

  // ----- the legacy format

  lemma LegacyThenRead(status: nat, h: Headers, order: seq<Bytes>, rest: Bytes)
    requires IsOrder(order, h) && HeadersWithinLimits(h) && status < 0x1_0000
    requires status % 256 != 1 && status % 256 != 2
    ensures Read(EncodeLegacy(status, h, order) + rest) == Got(Meta(status, [], [], Joined(h)), rest)
  {
    var block := HeaderBlock(h, order);
    var e := EncodeLegacy(status, h, order) + rest;
    assert e == LittleEndian(status, 2) + (block + rest);
    assert e[0] == status % 256;
    StatusRoundTrip(status, block + rest);
    HeaderBlockRoundTrip(h, order, rest);
  }

  /** Bytes a header takes on disk once it has a single value. */
  ghost function Cost(k: Bytes, vals: seq<Bytes>): nat {
    8 + |k| + |Join(vals)|
  }

  ghost function Size(h: Headers): nat
    decreases |h|
  {
    if h == map[] then 0
    else
      var k :| k in h;
      Cost(k, h[k]) + Size(h - {k})
  }

  lemma {:induction false} SizeLessOne(h: Headers, k: Bytes)
    requires k in h
    ensures Size(h) == Cost(k, h[k]) + Size(h - {k})
    decreases |h|
  {
    var j :| j in h && Size(h) == Cost(j, h[j]) + Size(h - {j});
    if j != k {
      SizeLessOne(h - {j}, k);
      SizeLessOne(h - {k}, j);
      assert h - {j} - {k} == h - {k} - {j};
    }
  }

  lemma SizeAfterInsert(h: Headers, k: Bytes, vals: seq<Bytes>)
    ensures Size(h[k := vals]) <= Size(h) + Cost(k, vals)
  {
    var g := h[k := vals];
    SizeLessOne(g, k);
    if k in h {
      SizeLessOne(h, k);
      assert g - {k} == h - {k};
    } else {
      assert g - {k} == h;
    }
  }

  lemma PairCost(b: Bytes)
    requires ReadPair(b).Got?
    ensures var r := ReadPair(b); |b| == |r.rest| + 8 + |r.value.0| + |r.value.1|
  {
  }

  // The headers read never take less room in the sidecar than Size.
  lemma {:induction false} RepeatCost(item: Bytes -> Parsed<(Bytes, Bytes)>, b: Bytes, n: nat, h: Headers)
    requires forall c :: item(c).Got? ==> |c| == |item(c).rest| + 8 + |item(c).value.0| + |item(c).value.1|
    requires Repeat(item, b, n, h).Got?
    ensures var r := Repeat(item, b, n, h); Size(r.value) + |r.rest| <= Size(h) + |b|
    decreases n
  {
    if n > 0 {
      var p := item(b);
      SizeAfterInsert(h, p.value.0, [p.value.1]);
      RepeatCost(item, p.rest, n - 1, h[p.value.0 := [p.value.1]]);
    }
  }

  lemma HeaderBlockCost(b: Bytes)
    requires ReadHeaderBlock(b).Got?
    ensures var r := ReadHeaderBlock(b); 4 + Size(r.value) + |r.rest| <= |b|
  {
    var item := ReadPair;
    forall c | item(c).Got?
      ensures |c| == |item(c).rest| + 8 + |item(c).value.0| + |item(c).value.1|
    {
      PairCost(c);
    }
    RepeatCost(item, ReadNumber(b, 4).rest, ReadNumber(b, 4).value, map[]);
  }

  lemma CurrentCost(b: Bytes)
    requires ReadCurrent(b).Got?
    ensures var m := ReadCurrent(b).value; 14 + |m.host| + |m.path| + Size(m.headers) <= |b|
  {
    var rest := ReadNumber(b, 2).rest;
    PairCost(rest);
    HeaderBlockCost(ReadPair(rest).rest);
  }

  lemma JoinedLessFirst(h: Headers, order: seq<Bytes>)
    requires order != [] && order[0] !in order[1..]
    ensures JoinedAt(h, order) - {order[0]} == JoinedAt(h, order[1..])
  {
    assert order == [order[0]] + order[1..];
    assert forall j :: j in order <==> j == order[0] || j in order[1..];
  }

  lemma {:induction false} HeadersLength(h: Headers, order: seq<Bytes>)
    requires forall i, j :: 0 <= i < j < |order| ==> order[i] != order[j]
    ensures |WriteHeaders(h, order)| == Size(JoinedAt(h, order))
    decreases |order|
  {
    if order == [] {
      assert JoinedAt(h, order) == map[];
    } else {
      SizeLessOne(JoinedAt(h, order), order[0]);
      JoinedLessFirst(h, order);
      HeadersLength(h, order[1..]);
    }
  }

  lemma {:induction false} OrderHasNoRepeats(order: seq<Bytes>, keys: set<Bytes>)
    requires |order| == |keys| && forall k :: k in order <==> k in keys
    ensures forall i, j :: 0 <= i < j < |order| ==> order[i] != order[j]
  {
    forall i, j | 0 <= i < j < |order|
      ensures order[i] != order[j]
    {
      if order[i] == order[j] {
        var less := order[..j] + order[j + 1..];
        assert forall k :: k in keys ==> k in less by {
          forall k | k in keys
            ensures k in less
          {
            var p :| 0 <= p < |order| && order[p] == k;
            var q := if p == j then i else if p < j then p else p - 1;
            assert less[q] == k;
          }
        }
        Covers(less, keys);
      }
    }
  }

  lemma {:induction false} Covers(s: seq<Bytes>, keys: set<Bytes>)
    requires forall k :: k in keys ==> k in s
    ensures |keys| <= |s|
    decreases |s|
  {
    if s == [] {
      assert keys == {};
    } else {
      Covers(s[1..], keys - {s[0]});
    }
  }

  ghost predicate LegacyReturns(status: nat, h: Headers, order: seq<Bytes>) {
    Read(EncodeLegacy(status, h, order)) == Got(Meta(status, [], [], Joined(h)), [])
  }

  // A low byte taken for a version byte leaves too few bytes for what was written.
  lemma LegacyIsMisread(status: nat, h: Headers, order: seq<Bytes>)
    requires IsOrder(order, h) && status < 0x1_0000 && (status % 256 == 1 || status % 256 == 2)
    ensures !LegacyReturns(status, h, order)
  {
    var e := EncodeLegacy(status, h, order);
    assert e[0] == status % 256;
    if LegacyReturns(status, h, order) {
      CurrentCost(e[1..]);
      OrderHasNoRepeats(order, h.Keys);
      assert Joined(h) == JoinedAt(h, order);
      HeadersLength(h, order);
    }
  }

  /** A legacy sidecar is read back exactly if and only if the low byte of its status is
      not taken for a version byte. */
  lemma LegacyIff(status: nat, h: Headers, order: seq<Bytes>)
    requires IsOrder(order, h) && HeadersWithinLimits(h) && status < 0x1_0000
    ensures LegacyReturns(status, h, order) <==> status % 256 != 1 && status % 256 != 2
  {
    if status % 256 != 1 && status % 256 != 2 {
      LegacyThenRead(status, h, order, []);
      assert EncodeLegacy(status, h, order) + [] == EncodeLegacy(status, h, order);
    } else {
      LegacyIsMisread(status, h, order);
    }
  }

  lemma LowByteOfSuccess(status: nat)
    requires 200 <= status < 300
    ensures status % 256 == 1 <==> status == 257
    ensures status % 256 == 2 <==> status == 258
  {
  }

  /** Among the cacheable statuses only 257 and 258 are misread. */
  lemma LegacySuccessStatuses(status: nat, h: Headers, order: seq<Bytes>)
    requires IsOrder(order, h) && HeadersWithinLimits(h) && 200 <= status < 300
    ensures LegacyReturns(status, h, order) <==> status != 257 && status != 258
  {
    LowByteOfSuccess(status);
    LegacyIff(status, h, order);
  }

  // ----- the bytes of a sidecar

  /** Four bytes read as a number, the least significant first. */
  function Word(b: Bytes, i: nat): nat
    requires i + 4 <= |b|
  {
    var b0: int, b1: int, b2: int, b3: int := b[i], b[i + 1], b[i + 2], b[i + 3];
    b0 + 0x100 * b1 + 0x1_0000 * b2 + 0x100_0000 * b3
  }

  function HalfWord(b: Bytes, i: nat): nat
    requires i + 2 <= |b|
  {
    var b0: int, b1: int := b[i], b[i + 1];
    b0 + 0x100 * b1
  }

  lemma TwoBytes(x: nat)
    requires x < 0x1_0000
    ensures LittleEndian(x, 2) == [x % 256, x / 256]
  {
    assert LittleEndian(x / 256, 1) == [x / 256 % 256] + LittleEndian(x / 256 / 256, 0);
  }

  lemma FourBytes(x: nat)
    requires x < 0x1_0000_0000
    ensures Word(LittleEndian(x, 4), 0) == x
  {
    var a, b, c := x / 256, x / 256 / 256, x / 256 / 256 / 256;
    assert LittleEndian(c, 1) == [c % 256] + LittleEndian(c / 256, 0);
    assert LittleEndian(b, 2) == [b % 256] + LittleEndian(c, 1);
    assert LittleEndian(a, 3) == [a % 256] + LittleEndian(b, 2);
    assert LittleEndian(x, 4) == [x % 256] + LittleEndian(a, 3);
  }

  /** A string stands at a place, behind its length. */
  ghost predicate StringAt(e: Bytes, i: nat, s: Bytes) {
    i + 4 + |s| <= |e| && Word(e, i) == |s| && e[i + 4..i + 4 + |s|] == s
  }

  lemma StringBytes(front: Bytes, s: Bytes, back: Bytes)
    requires |s| < 0x1_0000_0000
    ensures StringAt(front + WriteString(s) + back, |front|, s)
  {
    FourBytes(|s|);
    var n, e, i := LittleEndian(|s|, 4), front + WriteString(s) + back, |front|;
    assert e == front + n + s + back;
    assert e[i] == n[0] && e[i + 1] == n[1] && e[i + 2] == n[2] && e[i + 3] == n[3];
  }

  lemma NumberBytes(front: Bytes, x: nat, back: Bytes)
    requires x < 0x1_0000_0000
    ensures var e := front + LittleEndian(x, 4) + back; |e| == |front| + 4 + |back| && Word(e, |front|) == x
  {
    FourBytes(x);
    var n, e, i := LittleEndian(x, 4), front + LittleEndian(x, 4) + back, |front|;
    assert e[i] == n[0] && e[i + 1] == n[1] && e[i + 2] == n[2] && e[i + 3] == n[3];
  }

  // The parts of a sidecar, one after the other.
  lemma Parts(m: Meta, order: seq<Bytes>) returns (top: Bytes, host: Bytes, path: Bytes, rest: Bytes)
    requires m.status < 0x1_0000
    ensures Encode(m, order) == top + host + path + rest
    ensures |top| == 3 && top[0] == 2 && HalfWord(top, 1) == m.status
    ensures host == WriteString(m.host) && path == WriteString(m.path)
    ensures rest == LittleEndian(|m.headers|, 4) + WriteHeaders(m.headers, order)
  {
    top, host, path := [2] + LittleEndian(m.status, 2), WriteString(m.host), WriteString(m.path);
    rest := HeaderBlock(m.headers, order);
    TwoBytes(m.status);
  }

  lemma FromTheRight(a: Bytes, b: Bytes, c: Bytes, d: Bytes)
    ensures a + b + c + d == a + (b + c + d) == a + b + (c + d)
  {
  }

  lemma TopBytes(top: Bytes, back: Bytes)
    requires |top| == 3
    ensures (top + back)[0] == top[0] && HalfWord(top + back, 1) == HalfWord(top, 1)
  {
  }

  /** A sidecar starts with the version and the status. */
  lemma TopLayout(m: Meta, order: seq<Bytes>)
    requires m.status < 0x1_0000
    ensures |Encode(m, order)| >= 3 && Encode(m, order)[0] == 2 && HalfWord(Encode(m, order), 1) == m.status
  {
    var top, host, path, rest := Parts(m, order);
    FromTheRight(top, host, path, rest);
    TopBytes(top, host + path + rest);
  }

  /** Then comes the host, behind its length. */
  lemma HostLayout(m: Meta, order: seq<Bytes>)
    requires m.status < 0x1_0000 && |m.host| < 0x1_0000_0000
    ensures StringAt(Encode(m, order), 3, m.host)
  {
    var top, host, path, rest := Parts(m, order);
    FromTheRight(top, host, path, rest);
    StringBytes(top, m.host, path + rest);
  }

  /** Then the path, behind its length. */
  lemma PathLayout(m: Meta, order: seq<Bytes>)
    requires m.status < 0x1_0000 && |m.path| < 0x1_0000_0000
    ensures StringAt(Encode(m, order), 7 + |m.host|, m.path)
  {
    var top, host, path, rest := Parts(m, order);
    StringBytes(top + host, m.path, rest);
  }

  /** And then the number of headers, before the headers. */
  lemma CountLayout(m: Meta, order: seq<Bytes>)
    requires m.status < 0x1_0000 && |m.headers| < 0x1_0000_0000
    ensures |Encode(m, order)| >= 15 + |m.host| + |m.path|
    ensures Word(Encode(m, order), 11 + |m.host| + |m.path|) == |m.headers|
  {
    var top, host, path, rest := Parts(m, order);
    var front, headers := top + host + path, WriteHeaders(m.headers, order);
    assert Encode(m, order) == front + LittleEndian(|m.headers|, 4) + headers;
    NumberBytes(front, |m.headers|, headers);
  }

  /** Each header is its name and then its values joined, both behind their lengths. */
  lemma HeaderLayout(h: Headers, k: Bytes)
    requires k in h && |k| < 0x1_0000_0000 && |Join(h[k])| < 0x1_0000_0000
    ensures StringAt(WriteHeader(h, k), 0, k) && StringAt(WriteHeader(h, k), 4 + |k|, Join(h[k]))
  {
    var value := WriteString(Join(h[k]));
    assert WriteHeader(h, k) == [] + WriteString(k) + value == WriteString(k) + value + [];
    StringBytes([], k, value);
    StringBytes(WriteString(k), Join(h[k]), []);
  }
}
