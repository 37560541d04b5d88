/** How an edge node applies retained configuration events to its host-keyed store, and
    why replaying them in any order, with repeats and crashes, ends in the same store. */
module EdgeStore {
  import opened Basics

  type Host = string

  /** A target: the hostnames its server_name lists and the rest of its configuration. */
  datatype Config = Config(names: seq<Host>, body: string)

  /** A retained message. One can be unreadable as a whole, or readable with a configuration
      that is not. An update falls back on the hostnames of its own subject when its
      configuration lists none. */
  datatype Event =
    | Malformed
    | Unreadable(name: Host)
    | Delete(name: Host)
    | Update(name: Host, fallback: seq<Host>, config: Config)

  function Claims(e: Event): seq<Host>
    requires e.Update?
  {
    if |e.config.names| > 0 then e.config.names else e.fallback
  }

  // ----- the store

  type Store = map<Host, Config>

  function Row(s: Store, h: Host): Option<Config> {
    if h in s then Some(s[h]) else None
  }

  /** One configuration written under the first k of some hosts. */
  function PutFirst(s: Store, hosts: seq<Host>, k: nat, c: Config): Store
    requires k <= |hosts|
  {
    if k == 0 then s else PutFirst(s, hosts, k - 1, c)[hosts[k - 1] := c]
  }

  function FirstHosts(hosts: seq<Host>, k: nat): set<Host>
    requires k <= |hosts|
  {
    if k == 0 then {} else FirstHosts(hosts, k - 1) + {hosts[k - 1]}
  }

  /** A delivery of an event, which changes this many rows, if it has that many, before the
      store fails or the edge crashes. */
  datatype Delivery = Delivery(event: Event, rows: nat)

  function Written(d: Delivery): (k: nat)
    requires d.event.Update?
    ensures k <= |Claims(d.event)|
  {
    if d.rows < |Claims(d.event)| then d.rows else |Claims(d.event)|
  }

  /** A deletion that the store fails to make. */
  predicate FailedDelete(d: Delivery) {
    d.event.Delete? && d.rows == 0
  }

  predicate InFull(d: Delivery) {
    !FailedDelete(d) && (d.event.Update? ==> Written(d) == |Claims(d.event)|)
  }

  function Deliver(s: Store, d: Delivery): Store {
    match d.event
    case Malformed => s
    case Unreadable(_) => s
    case Delete(n) => if d.rows == 0 then s else s - {n}
    case Update(_, _, c) => PutFirst(s, Claims(d.event), Written(d), c)
  }

  /** The hosts whose compiled handler a delivery drops: those whose row it writes, and that
      of a deletion, made or not. */
  function Dropped(d: Delivery): set<Host> {
    match d.event
    case Malformed => {}
    case Unreadable(_) => {}
    case Delete(n) => {n}
    case Update(_, _, _) => FirstHosts(Claims(d.event), Written(d))
  }

  datatype Settlement = Ack | Nak | Term

  /** Malformed events are dropped; an update is acknowledged only if it was applied in full,
      but a deletion always. */
  function Settled(d: Delivery): Settlement {
    match d.event
    case Malformed => Term
    case Unreadable(_) => Nak
    case Delete(_) => Ack
    case Update(_, _, _) => if |Claims(d.event)| == 0 || !InFull(d) then Nak else Ack
  }

  /** The store after the first k deliveries. */
  function After(s: Store, ds: seq<Delivery>, k: nat): Store
    requires k <= |ds|
  {
    if k == 0 then s else Deliver(After(s, ds, k - 1), ds[k - 1])
  }

  /** The store after a sequence of deliveries. */
  function Replayed(s: Store, ds: seq<Delivery>): Store {
    After(s, ds, |ds|)
  }

  /** One fetch: its deliveries, whether it failed before or after them, and whether the drain
      is canceled when they are applied. */
  datatype Batch = Batch(deliveries: seq<Delivery>, failed: bool, canceled: bool)

  function ReplayedBatches(s: Store, batches: seq<Batch>, n: nat): Store
    requires n <= |batches|
  {
    if n == 0 then s else Replayed(ReplayedBatches(s, batches, n - 1), batches[n - 1].deliveries)
  }

  /** A fetch that ends the drain, and one that ends it well. */
  predicate Stops(b: Batch) {
    b.failed || b.canceled || |b.deliveries| == 0
  }

  predicate Drained(b: Batch) {
    !b.failed && |b.deliveries| == 0
  }

  /** A drain fetches n batches, up to the first that ends it, and reports ok exactly if that
      one ended it well. */
  ghost predicate Drains(batches: seq<Batch>, n: nat, ok: bool) {
    && n <= |batches| && (n < |batches| ==> n > 0 && Stops(batches[n - 1]))
    && (forall i :: 0 <= i < n - 1 ==> !Stops(batches[i]))
    && (ok <==> n > 0 && Drained(batches[n - 1]))
  }

  // ----- the code

  class Edge<Handler> {
    var store: Store
    var resident: map<Host, Handler>

    constructor (store: Store)
      ensures this.store == store && resident == map[]
    {
      this.store, resident := store, map[];
    }

    method ApplyUpdate(d: Delivery) returns (ok: bool)
      requires d.event.Update?
      modifies this
      ensures store == Deliver(old(store), d) && (ok <==> Settled(d) == Ack)
      ensures resident == old(resident) - Dropped(d)
    {
      var names := d.event.config.names;
      if |names| == 0 {
        names := d.event.fallback;
      }
      if |names| == 0 {
        return false;
      }
      for i := 0 to |names|
        invariant i <= d.rows && store == PutFirst(old(store), names, i, d.event.config)
        invariant resident == old(resident) - FirstHosts(names, i)
      {
        if i == d.rows {
          return false;
        }
        store := store[names[i] := d.event.config];
        resident := resident - {names[i]};
      }
      return true;
    }

    /** An error of the store is only logged. */
    method ApplyDelete(name: Host, fails: bool)
      modifies this
      ensures store == (if fails then old(store) else old(store) - {name}) && resident == old(resident) - {name}
    {
      if !fails {
        store := store - {name};
      }
      resident := resident - {name};
    }

    method ApplyMessage(d: Delivery) returns (settlement: Settlement)
      modifies this
      ensures store == Deliver(old(store), d) && resident == old(resident) - Dropped(d)
      ensures settlement == Settled(d)
    {
      match d.event
      case Malformed =>
        return Term;
      case Unreadable(_) =>
        return Nak;
      case Delete(name) =>
        ApplyDelete(name, d.rows == 0);
        return Ack;
      case Update(_, _, _) =>
        var ok := ApplyUpdate(d);
        return if ok then Ack else Nak;
    }

    method FetchBatch(batch: Batch) returns (applied: nat, ok: bool)
      modifies this
      ensures store == Replayed(old(store), batch.deliveries) && applied == |batch.deliveries| && ok == !batch.failed
    {
      applied := 0;
      for i := 0 to |batch.deliveries|
        invariant applied == i && store == After(old(store), batch.deliveries, i)
      {
        var settlement := ApplyMessage(batch.deliveries[i]);
        applied := applied + 1;
      }
      ok := !batch.failed;
    }

    /** Fetches batches, n of them in all, up to and including the first that ends the drain;
        ok says that it ended with nothing more to fetch. */
    method CatchUp(batches: seq<Batch>) returns (n: nat, ok: bool)
      modifies this
      ensures Drains(batches, n, ok) && store == ReplayedBatches(old(store), batches, n)
    {
      n := 0;
      while n < |batches|
        invariant n <= |batches| && store == ReplayedBatches(old(store), batches, n)
        invariant forall i :: 0 <= i < n ==> !Stops(batches[i])
      {
        var applied;
        applied, ok := FetchBatch(batches[n]);
        n := n + 1;
        if !ok || applied == 0 {
          return;
        }
        if batches[n - 1].canceled {
          return n, false;
        }
      }
      ok := false;
    }
  }

  /** The deliveries of the first n batches. */
  function Flatten(batches: seq<Batch>, n: nat): seq<Delivery>
    requires n <= |batches|
  {
    if n == 0 then [] else Flatten(batches, n - 1) + batches[n - 1].deliveries
  }

  lemma {:induction false} AfterPrefix(s: Store, a: seq<Delivery>, b: seq<Delivery>, k: nat)
    requires k <= |a| && k <= |b| && forall i :: 0 <= i < k ==> a[i] == b[i]
    ensures After(s, a, k) == After(s, b, k)
  {
    if k > 0 {
      AfterPrefix(s, a, b, k - 1);
    }
  }

  lemma {:induction false} AfterConcat(s: Store, a: seq<Delivery>, b: seq<Delivery>, j: nat)
    requires j <= |b|
    ensures After(s, a + b, |a| + j) == After(Replayed(s, a), b, j)
  {
    if j == 0 {
      AfterPrefix(s, a + b, a, |a|);
    } else {
      AfterConcat(s, a, b, j - 1);
    }
  }

  /** Draining batch by batch is replaying all their deliveries in a row. */
  lemma {:induction false} BatchesFlatten(s: Store, batches: seq<Batch>, n: nat)
    requires n <= |batches|
    ensures ReplayedBatches(s, batches, n) == Replayed(s, Flatten(batches, n))
  {
    if n > 0 {
      BatchesFlatten(s, batches, n - 1);
      AfterConcat(s, Flatten(batches, n - 1), batches[n - 1].deliveries, |batches[n - 1].deliveries|);
    }
  }

  // ----- convergence

  /** The retained state: one event per subject. */
  type Retained = map<Host, Event>

  /** The event decides the row of the host. */
  predicate Speaks(e: Event, h: Host) {
    match e
    case Malformed => false
    case Unreadable(_) => false
    case Delete(n) => h == n
    case Update(_, _, _) => h in Claims(e)
  }

  function Verdict(e: Event): Option<Config> {
    if e.Update? then Some(e.config) else None
  }

  /** No two retained events disagree about a host. */
  ghost predicate Consistent(r: Retained) {
    forall s, t, h :: s in r && t in r && Speaks(r[s], h) && Speaks(r[t], h) ==> Verdict(r[s]) == Verdict(r[t])
  }

  /** Some retained event is about the host. */
  ghost predicate Affected(r: Retained, h: Host) {
    exists s :: s in r && Speaks(r[s], h)
  }

  ghost function AffectedHosts(r: Retained): (hs: set<Host>)
    ensures forall h :: h in hs <==> Affected(r, h)
  {
    if r == map[] then {}
    else
      var s :| s in r;
      var rest := r - {s};
      var own := if r[s].Update? then set h | h in Claims(r[s]) else if r[s].Delete? then {r[s].name} else {};
      assert forall h :: Affected(r, h) <==> Speaks(r[s], h) || Affected(rest, h) by {
        assert forall t :: t in r <==> t == s || t in rest;
        assert forall t :: t in rest ==> rest[t] == r[t];
      }
      own + AffectedHosts(rest)
  }

  ghost function TargetRow(r: Retained, h: Host): Option<Config>
    requires Affected(r, h)
  {
    var s :| s in r && Speaks(r[s], h); Verdict(r[s])
  }

  /** Live hosts have their configuration and no other host has a row. */
  ghost function TargetStore(r: Retained): Store {
    map h | h in AffectedHosts(r) && TargetRow(r, h).Some? :: TargetRow(r, h).value
  }

  ghost predicate FullyApplied(ds: seq<Delivery>, e: Event) {
    exists i :: 0 <= i < |ds| && ds[i].event == e && InFull(ds[i])
  }

  ghost predicate FromRetained(r: Retained, d: Delivery) {
    exists s :: s in r && r[s] == d.event
  }

  /** Deliveries of retained events, in any order and number, complete or not. */
  ghost predicate AllRetained(r: Retained, ds: seq<Delivery>) {
    forall i :: 0 <= i < |ds| ==> FromRetained(r, ds[i])
  }

  /** Deliveries of retained events, in any order and number, each applied in full at least once. */
  ghost predicate Complete(r: Retained, ds: seq<Delivery>) {
    AllRetained(r, ds) && forall s :: s in r ==> FullyApplied(ds, r[s])
  }

  lemma {:induction false} RowAfterPuts(s: Store, hosts: seq<Host>, k: nat, c: Config, h: Host)
    requires k <= |hosts|
    ensures Row(PutFirst(s, hosts, k, c), h) == if h in hosts[..k] then Some(c) else Row(s, h)
  {
    if k > 0 {
      RowAfterPuts(s, hosts, k - 1, c, h);
      assert hosts[..k] == hosts[..k - 1] + [hosts[k - 1]];
    }
  }

  /** The delivery changes, or confirms, the row of the host. */
  predicate Writes(d: Delivery, h: Host) {
    match d.event
    case Malformed => false
    case Unreadable(_) => false
    case Delete(n) => h == n && d.rows > 0
    case Update(_, _, _) => h in Claims(d.event)[..Written(d)]
  }

  // A delivery puts its verdict on the hosts it writes and leaves the others alone.
  lemma RowAfterDelivery(s: Store, d: Delivery, h: Host)
    ensures Row(Deliver(s, d), h) == if Writes(d, h) then Verdict(d.event) else Row(s, h)
    ensures Writes(d, h) ==> Speaks(d.event, h)
    ensures Speaks(d.event, h) && InFull(d) ==> Writes(d, h)
  {
    if d.event.Update? {
      var hosts, k := Claims(d.event), Written(d);
      RowAfterPuts(s, hosts, k, d.event.config, h);
      if k == |hosts| {
        assert hosts[..k] == hosts;
      }
    }
  }

  lemma {:induction false} FirstHostsHas(hosts: seq<Host>, k: nat, h: Host)
    requires k <= |hosts|
    ensures h in FirstHosts(hosts, k) <==> h in hosts[..k]
  {
    if k > 0 {
      FirstHostsHas(hosts, k - 1, h);
      assert hosts[..k] == hosts[..k - 1] + [hosts[k - 1]];
    }
  }

  /** A delivery drops the handler of every host whose row it writes, and of no other but that of
      a deletion that failed. */
  lemma DropsWhatItWrites(d: Delivery, h: Host)
    ensures h in Dropped(d) <==> Writes(d, h) || (FailedDelete(d) && d.event.name == h)
  {
    if d.event.Update? {
      FirstHostsHas(Claims(d.event), Written(d), h);
    }
  }

  ghost predicate WrittenBy(ds: seq<Delivery>, k: nat, h: Host)
    requires k <= |ds|
  {
    exists i :: 0 <= i < k && Writes(ds[i], h)
  }

  // While all deliveries that write a row agree, it is theirs once one of them has written it.
  lemma {:induction false} RowAfterDeliveries(s: Store, ds: seq<Delivery>, k: nat, h: Host, row: Option<Config>)
    requires k <= |ds| && forall i :: 0 <= i < k && Writes(ds[i], h) ==> Verdict(ds[i].event) == row
    ensures Row(After(s, ds, k), h) == if WrittenBy(ds, k, h) then row else Row(s, h)
  {
    if k > 0 {
      RowAfterDeliveries(s, ds, k - 1, h, row);
      RowAfterDelivery(After(s, ds, k - 1), ds[k - 1], h);
      assert WrittenBy(ds, k, h) <==> WrittenBy(ds, k - 1, h) || Writes(ds[k - 1], h);
    }
  }

  /** What any deliveries of retained events make of a host's row. */
  lemma DeliveredRow(r: Retained, s: Store, ds: seq<Delivery>, h: Host)
    requires Consistent(r) && AllRetained(r, ds)
    ensures WrittenBy(ds, |ds|, h) ==> Affected(r, h)
    ensures Row(Replayed(s, ds), h) == if WrittenBy(ds, |ds|, h) then TargetRow(r, h) else Row(s, h)
  {
    var row := if Affected(r, h) then TargetRow(r, h) else None;
    forall i | 0 <= i < |ds| && Writes(ds[i], h)
      ensures Affected(r, h) && Verdict(ds[i].event) == row
    {
      RowAfterDelivery(s, ds[i], h);
      assert FromRetained(r, ds[i]);
      var t :| t in r && r[t] == ds[i].event;
      assert Speaks(r[t], h);
    }
    RowAfterDeliveries(s, ds, |ds|, h, row);
  }

  lemma CompleteWrites(r: Retained, ds: seq<Delivery>, h: Host)
    requires Complete(r, ds) && Affected(r, h)
    ensures WrittenBy(ds, |ds|, h)
  {
    var t :| t in r && Speaks(r[t], h);
    assert FullyApplied(ds, r[t]);
    var i :| 0 <= i < |ds| && ds[i].event == r[t] && InFull(ds[i]);
    RowAfterDelivery(map[], ds[i], h);
  }

  /** What every complete replay makes of a host's row. */
  lemma ReplayedRow(r: Retained, s: Store, ds: seq<Delivery>, h: Host)
    requires Consistent(r) && Complete(r, ds)
    ensures Row(Replayed(s, ds), h) == if Affected(r, h) then TargetRow(r, h) else Row(s, h)
  {
    DeliveredRow(r, s, ds, h);
    if Affected(r, h) {
      CompleteWrites(r, ds, h);
    }
  }

  lemma SameRows(s: Store, t: Store)
    ensures s == t <==> forall h :: Row(s, h) == Row(t, h)
  {
    if forall h :: Row(s, h) == Row(t, h) {
      forall h
        ensures h in s <==> h in t
        ensures h in s && h in t ==> s[h] == t[h]
      {
        assert Row(s, h) == Row(t, h);
      }
    }
  }

  lemma TargetStoreRow(r: Retained, h: Host)
    ensures Row(TargetStore(r), h) == if Affected(r, h) then TargetRow(r, h) else None
  {
  }

  /** The row of the host is right from the start, or some delivery writes it. */
  ghost predicate Reached(r: Retained, s: Store, ds: seq<Delivery>, h: Host) {
    Affected(r, h) && (Row(s, h) == TargetRow(r, h) || WrittenBy(ds, |ds|, h))
  }

  lemma RightRowIff(r: Retained, s: Store, ds: seq<Delivery>, h: Host)
    requires Consistent(r) && AllRetained(r, ds)
    ensures Row(Replayed(s, ds), h) == Row(TargetStore(r), h) <==>
            if Affected(r, h) then Reached(r, s, ds, h) else h !in s
  {
    DeliveredRow(r, s, ds, h);
    TargetStoreRow(r, h);
  }

  /** Deliveries of retained events, whichever there were and however far each got, end in the
      target store if and only if the first store has no rows that the events do not speak of
      and every row it has wrong was written. */
  lemma ConvergesIff(r: Retained, s: Store, ds: seq<Delivery>)
    requires Consistent(r) && AllRetained(r, ds)
    ensures Replayed(s, ds) == TargetStore(r) <==>
            s.Keys <= AffectedHosts(r) && forall h :: Affected(r, h) ==> Reached(r, s, ds, h)
  {
    SameRows(Replayed(s, ds), TargetStore(r));
    forall h
      ensures Row(Replayed(s, ds), h) == Row(TargetStore(r), h) <==>
              if Affected(r, h) then Reached(r, s, ds, h) else h !in s
    {
      RightRowIff(r, s, ds, h);
    }
  }

  /** Every complete replay ends in the target store, exactly if the store it starts from has
      no rows that the retained events do not speak of. */
  lemma ReplayConverges(r: Retained, s: Store, ds: seq<Delivery>)
    requires Consistent(r) && Complete(r, ds)
    ensures Replayed(s, ds) == TargetStore(r) <==> s.Keys <= AffectedHosts(r)
  {
    ConvergesIff(r, s, ds);
    forall h | Affected(r, h)
      ensures Reached(r, s, ds, h)
    {
      CompleteWrites(r, ds, h);
    }
  }

  // ----- what a drain is worth

  /** A drain ends in the target store under the same condition on the deliveries it fetched,
      whether it reports success or not. */
  lemma DrainIff(r: Retained, s: Store, batches: seq<Batch>, n: nat)
    requires n <= |batches| && Consistent(r) && AllRetained(r, Flatten(batches, n))
    ensures ReplayedBatches(s, batches, n) == TargetStore(r) <==>
            && s.Keys <= AffectedHosts(r)
            && forall h :: Affected(r, h) ==> Reached(r, s, Flatten(batches, n), h)
  {
    BatchesFlatten(s, batches, n);
    ConvergesIff(r, s, Flatten(batches, n));
  }

  lemma OneDelivery(s: Store, d: Delivery)
    ensures Replayed(s, [d]) == Deliver(s, d)
  {
    assert After(s, [d], 0) == s;
  }

  /** A drain that reports success with a row missing: an update of two rows is cut short
      after the first and returned, and the next fetch finds nothing yet. */
  lemma DrainedTooEarly(g: Host, h: Host)
    requires g != h
    ensures var c := Config([h, g], "");
            var d := Delivery(Update(h, [h], c), 1);
            var batches := [Batch([d], false, false), Batch([], false, false)];
            && Drains(batches, 2, true) && Settled(d) == Nak
            && ReplayedBatches(map[], batches, 2) == map[h := c]
            && TargetStore(map[h := d.event]) == map[g := c, h := c]
  {
    var c := Config([h, g], "");
    var d := Delivery(Update(h, [h], c), 1);
    var batches := [Batch([d], false, false), Batch([], false, false)];
    OneDelivery(map[], d);
    assert PutFirst(map[], [h, g], 0, c) == map[];
    assert ReplayedBatches(map[], batches, 0) == map[];
    assert ReplayedBatches(map[], batches, 1) == map[h := c];
    TwoRows(g, h, d.event);
  }

  lemma TwoRows(g: Host, h: Host, e: Event)
    requires e.Update? && e.config.names == [h, g]
    ensures TargetStore(map[h := e]) == map[g := e.config, h := e.config]
  {
    var r: Retained := map[h := e];
    forall x
      ensures Row(TargetStore(r), x) == Row(map[g := e.config, h := e.config], x)
    {
      assert Affected(r, x) <==> Speaks(r[h], x);
      TargetStoreRow(r, x);
    }
    SameRows(TargetStore(r), map[g := e.config, h := e.config]);
  }

  // ----- what an acknowledgement is worth

  /** Every row the event decides is as it says. */
  ghost predicate TookEffect(s: Store, e: Event) {
    forall h :: Speaks(e, h) ==> Row(s, h) == Verdict(e)
  }

  /** An acknowledged delivery took effect exactly if it is not a deletion that the store
      failed to make of a row it has. */
  lemma AcknowledgedIff(s: Store, d: Delivery)
    requires Settled(d) == Ack
    ensures TookEffect(Deliver(s, d), d.event) <==> !(FailedDelete(d) && d.event.name in s)
  {
    forall h | Speaks(d.event, h) && InFull(d)
      ensures Row(Deliver(s, d), h) == Verdict(d.event)
    {
      RowAfterDelivery(s, d, h);
    }
    if FailedDelete(d) {
      assert Speaks(d.event, d.event.name);
    }
  }

  /** No delivery of the event, however far it gets, is ever acknowledged. */
  ghost predicate Hopeless(e: Event) {
    forall rows: nat :: Settled(Delivery(e, rows)) != Ack
  }

  /** Events that no delivery can settle are malformed, unreadable or updates of no host; of these
      the malformed ones alone are taken out of the stream, the others come back every time. */
  lemma HopelessIff(e: Event)
    ensures Hopeless(e) <==> e.Malformed? || e.Unreadable? || (e.Update? && Claims(e) == [])
    ensures e.Malformed? <==> forall rows: nat :: Settled(Delivery(e, rows)) == Term
    ensures Hopeless(e) && !e.Malformed? ==> forall rows: nat :: Settled(Delivery(e, rows)) == Nak
  {
    if !(e.Malformed? || e.Unreadable? || (e.Update? && Claims(e) == [])) {
      assert Settled(Whole(e)) == Ack;
    }
    assert Settled(Delivery(e, 0)) == Term ==> e.Malformed?;
  }

  /** Settled for good: acknowledged, or terminated as malformed. */
  ghost predicate Done(ds: seq<Delivery>, e: Event) {
    exists i :: 0 <= i < |ds| && ds[i].event == e && Settled(ds[i]) != Nak
  }

  /** Deliveries of retained events, in any order and number, each settled for good at least once. */
  ghost predicate AllDone(r: Retained, ds: seq<Delivery>) {
    AllRetained(r, ds) && forall s :: s in r ==> Done(ds, r[s])
  }

  ghost predicate Deleted(ds: seq<Delivery>, h: Host) {
    exists i :: 0 <= i < |ds| && ds[i].event == Delete(h) && ds[i].rows > 0
  }

  lemma DoneIsWritten(r: Retained, ds: seq<Delivery>, h: Host)
    requires Consistent(r) && AllDone(r, ds) && Affected(r, h)
    ensures WrittenBy(ds, |ds|, h) <==> TargetRow(r, h).Some? || Deleted(ds, h)
  {
    DeliveredRow(r, map[], ds, h);
    var t :| t in r && Speaks(r[t], h);
    assert Done(ds, r[t]);
    var i :| 0 <= i < |ds| && ds[i].event == r[t] && Settled(ds[i]) != Nak;
    if r[t].Update? {
      RowAfterDelivery(map[], ds[i], h);
    } else {
      assert TargetRow(r, h) == None;
      forall j | 0 <= j < |ds| && Writes(ds[j], h)
        ensures ds[j].event == Delete(h)
      {
        RowAfterDelivery(map[], ds[j], h);
        assert FromRetained(r, ds[j]);
        var u :| u in r && r[u] == ds[j].event;
        assert Speaks(r[u], h);
      }
    }
  }

  /** Once every event is settled for good the store is the target store, if and only if the
      first one has no rows unknown to the events and each of its rows that is to go was
      deleted by some delivery, whatever others failed. */
  lemma SettledConvergesIff(r: Retained, s: Store, ds: seq<Delivery>)
    requires Consistent(r) && AllDone(r, ds)
    ensures Replayed(s, ds) == TargetStore(r) <==>
            && s.Keys <= AffectedHosts(r)
            && forall h :: h in s && Affected(r, h) && TargetRow(r, h).None? ==> Deleted(ds, h)
  {
    ConvergesIff(r, s, ds);
    forall h | Affected(r, h)
      ensures Reached(r, s, ds, h) <==> (h in s && TargetRow(r, h).None? ==> Deleted(ds, h))
    {
      DoneIsWritten(r, ds, h);
    }
  }

  /** A failed deletion is acknowledged, so it is not delivered again, and its row stays. */
  lemma FailedDeleteDiverges(h: Host, c: Config)
    ensures var r, s, ds := map[h := Delete(h)], map[h := c], [Delivery(Delete(h), 0)];
            AllDone(r, ds) && h in Replayed(s, ds) && h !in TargetStore(r) && s.Keys <= AffectedHosts(r)
  {
    var r: Retained, s, ds := map[h := Delete(h)], map[h := c], [Delivery(Delete(h), 0)];
    assert FromRetained(r, ds[0]) by {
      assert h in r;
    }
    assert Done(ds, r[h]) by {
      assert ds[0].event == r[h];
    }
    OneDelivery(s, ds[0]);
    assert Affected(r, h) by {
      assert h in r && Speaks(r[h], h);
    }
    assert TargetRow(r, h) == None;
  }

  // ----- giving up

  /** How often the consumer has an event delivered before it gives up on it. */
  const MAX_DELIVER: nat := 5

  function Tries(ds: seq<Delivery>, k: nat, e: Event): nat
    requires k <= |ds|
  {
    if k == 0 then 0 else Tries(ds, k - 1, e) + if ds[k - 1].event == e then 1 else 0
  }

  /** Nothing is left to deliver: every event is settled for good or given up. */
  ghost predicate Exhausted(r: Retained, ds: seq<Delivery>) {
    AllRetained(r, ds) && forall s :: s in r ==> Done(ds, r[s]) || Tries(ds, |ds|, r[s]) >= MAX_DELIVER
  }

  /** The events about the host are deletions, or updates that were given up. */
  ghost predicate AtRisk(r: Retained, ds: seq<Delivery>, h: Host) {
    Affected(r, h) && forall t :: t in r && Speaks(r[t], h) && r[t].Update? ==> !Done(ds, r[t])
  }

  /** Some update about the host was delivered as often as it ever is and never settled. */
  ghost predicate GivenUp(r: Retained, ds: seq<Delivery>, h: Host) {
    exists t :: t in r && Speaks(r[t], h) && r[t].Update? && Tries(ds, |ds|, r[t]) >= MAX_DELIVER && !Done(ds, r[t])
  }

  lemma SafeIsWritten(r: Retained, ds: seq<Delivery>, h: Host)
    requires Affected(r, h) && !AtRisk(r, ds, h)
    ensures WrittenBy(ds, |ds|, h)
  {
    var t :| t in r && Speaks(r[t], h) && r[t].Update? && Done(ds, r[t]);
    var i :| 0 <= i < |ds| && ds[i].event == r[t] && Settled(ds[i]) != Nak;
    RowAfterDelivery(map[], ds[i], h);
  }

  /** When nothing is left to deliver, the store is the target store if and only if the first
      one has no rows unknown to the events and every row it has wrong that only deletions or
      updates given up decide was written nevertheless. */
  lemma ExhaustedConvergesIff(r: Retained, s: Store, ds: seq<Delivery>)
    requires Consistent(r) && Exhausted(r, ds)
    ensures Replayed(s, ds) == TargetStore(r) <==>
            s.Keys <= AffectedHosts(r) && forall h :: AtRisk(r, ds, h) ==> Reached(r, s, ds, h)
    ensures forall h :: AtRisk(r, ds, h) && TargetRow(r, h).Some? ==> GivenUp(r, ds, h)
  {
    ConvergesIff(r, s, ds);
    forall h | AtRisk(r, ds, h) && TargetRow(r, h).Some?
      ensures GivenUp(r, ds, h)
    {
      var t :| t in r && Speaks(r[t], h);
      assert Verdict(r[t]).Some?;
    }
    forall h | Affected(r, h) && !AtRisk(r, ds, h)
      ensures Reached(r, s, ds, h)
    {
      SafeIsWritten(r, ds, h);
    }
  }

  /** An update of two rows that is cut short after the first five times over is given up, and
      its second row is never written. */
  lemma GivenUpTooEarly(g: Host, h: Host)
    requires g != h
    ensures var d := Delivery(Update(h, [h], Config([h, g], "")), 1);
            var r, ds := map[h := d.event], [d, d, d, d, d];
            Exhausted(r, ds) && g in TargetStore(r) && g !in Replayed(map[], ds)
  {
    var d := Delivery(Update(h, [h], Config([h, g], "")), 1);
    var r: Retained, ds := map[h := d.event], [d, d, d, d, d];
    assert forall i :: 0 <= i < |ds| ==> ds[i] == d;
    assert FromRetained(r, d) by {
      assert h in r && r[h] == d.event;
    }
    assert Tries(ds, 0, d.event) == 0 && Tries(ds, 2, d.event) == 2 && Tries(ds, 4, d.event) == 4;
    TwoRows(g, h, d.event);
    assert Claims(d.event)[..1] == [h];
    RowAfterDeliveries(map[], ds, 5, g, Some(d.event.config));
    assert !WrittenBy(ds, 5, g);
  }

  // ----- when replay does not converge

  /** The order and number of deliveries makes no difference to the store. */
  ghost predicate OrderIndependent(r: Retained) {
    forall ds, ds' :: Complete(r, ds) && Complete(r, ds') ==> Replayed(map[], ds) == Replayed(map[], ds')
  }

  function Whole(e: Event): (d: Delivery)
    ensures d.event == e && InFull(d)
  {
    Delivery(e, if e.Update? then |Claims(e)| else 1)
  }

  lemma CompleteOneMore(r: Retained, ds: seq<Delivery>, s: Host)
    requires s in r && AllRetained(r, ds)
    requires forall t :: t in r && t != s ==> FullyApplied(ds, r[t])
    ensures Complete(r, ds + [Whole(r[s])])
  {
    var all := ds + [Whole(r[s])];
    assert all[|ds|] == Whole(r[s]);
    forall i | 0 <= i < |all|
      ensures FromRetained(r, all[i])
    {
      assert i < |ds| ==> all[i] == ds[i];
    }
    forall t | t in r
      ensures FullyApplied(all, r[t])
    {
      if t != s {
        assert FullyApplied(ds, r[t]);
        var i :| 0 <= i < |ds| && ds[i].event == r[t] && InFull(ds[i]);
        assert all[i] == ds[i];
      }
    }
  }

  lemma {:induction false} CompleteReplay(r: Retained) returns (ds: seq<Delivery>)
    ensures Complete(r, ds)
  {
    if r == map[] {
      ds := [];
    } else {
      var s :| s in r;
      var rest := r - {s};
      var before := CompleteReplay(rest);
      forall i | 0 <= i < |before|
        ensures FromRetained(r, before[i])
      {
        assert FromRetained(rest, before[i]);
      }
      forall t | t in r && t != s
        ensures FullyApplied(before, r[t])
      {
        assert FullyApplied(before, rest[t]);
      }
      ds := before + [Whole(r[s])];
      CompleteOneMore(r, before, s);
    }
  }

  // A complete replay may end with any event, whose verdict then stands.
  lemma EndWith(r: Retained, s: Host, h: Host) returns (ds: seq<Delivery>)
    requires s in r && Speaks(r[s], h)
    ensures Complete(r, ds) && Row(Replayed(map[], ds), h) == Verdict(r[s])
  {
    var all := CompleteReplay(r);
    ds := all + [Whole(r[s])];
    CompleteOneMore(r, all, s);
    RowAfterDelivery(After(map[], ds, |all|), Whole(r[s]), h);
  }

  /** Replay is independent of delivery order exactly when the events are consistent. */
  lemma OrderIndependentIff(r: Retained)
    ensures OrderIndependent(r) <==> Consistent(r)
  {
    if Consistent(r) {
      forall ds, ds' | Complete(r, ds) && Complete(r, ds')
        ensures Replayed(map[], ds) == Replayed(map[], ds')
      {
        ReplayConverges(r, map[], ds);
        ReplayConverges(r, map[], ds');
      }
    } else {
      var s, t, h :| s in r && t in r && Speaks(r[s], h) && Speaks(r[t], h) && Verdict(r[s]) != Verdict(r[t]);
      var ds := EndWith(r, s, h);
      var ds' := EndWith(r, t, h);
      assert Row(Replayed(map[], ds), h) != Row(Replayed(map[], ds'), h);
    }
  }
}
