/** The Maglev table as its hashes and the health of the upstreams determine it: healthy
    upstreams pick slots in turns, each the first of its own walk that is still free. Slots of
    upstream 0 count as free, because 0 is also what an empty slot holds. */
module MaglevPicks {
  /** The two CRC-32 values of an upstream's URL, here arbitrary numbers. */
  datatype Hash = Hash(h1: nat, h2: nat)

  /** The j-th slot of an upstream's walk through m slots. */
  function Slot(h: Hash, j: nat, m: nat): (s: nat)
    requires m > 0
    ensures s < m
  {
    (h.h1 + j * h.h2) % m
  }

  ghost function Walk(h: Hash, m: nat): (p: seq<nat>)
    requires m > 0
    ensures |p| == m && forall j :: 0 <= j < m ==> p[j] == Slot(h, j, m)
  {
    seq(m, (j: nat) => Slot(h, j, m))
  }

  /** How many of the first k upstreams are healthy. */
  function Alive(healthy: seq<bool>, k: nat): nat
    requires k <= |healthy|
  {
    if k == 0 then 0 else Alive(healthy, k - 1) + if healthy[k - 1] then 1 else 0
  }

  function AliveCount(healthy: seq<bool>): nat {
    Alive(healthy, |healthy|)
  }

  lemma {:induction false} AliveIsMonotone(healthy: seq<bool>, j: nat, k: nat)
    requires j <= k <= |healthy|
    ensures Alive(healthy, j) <= Alive(healthy, k)
    ensures j < k && healthy[j] ==> Alive(healthy, j) < Alive(healthy, k)
    decreases k
  {
    if j < k {
      AliveIsMonotone(healthy, j, k - 1);
    }
  }

  lemma {:induction false} SomeoneIsAlive(healthy: seq<bool>, k: nat)
    requires k <= |healthy|
    ensures Alive(healthy, k) > 0 <==> exists j :: 0 <= j < k && healthy[j]
  {
    if k > 0 {
      SomeoneIsAlive(healthy, k - 1);
    }
  }

  // ----- picks

  datatype Pick = Pick(owner: nat, slot: nat)

  /** The slot was picked before the q-th turn by an upstream other than 0. */
  ghost predicate Held(picks: seq<Pick>, q: nat, s: nat)
    requires q <= |picks|
  {
    exists p :: 0 <= p < q && picks[p].owner != 0 && picks[p].slot == s
  }

  ghost predicate AllHeld(picks: seq<Pick>, q: nat, walk: seq<nat>, j: nat)
    requires q <= |picks| && j <= |walk|
  {
    forall k :: 0 <= k < j ==> Held(picks, q, walk[k])
  }

  ghost predicate FreeAt(picks: seq<Pick>, q: nat, walk: seq<nat>, j: nat)
    requires q < |picks|
  {
    j < |walk| && picks[q].slot == walk[j] && AllHeld(picks, q, walk, j)
  }

  /** The q-th pick is the first slot of the walk that was not held by then. */
  ghost predicate FirstFree(picks: seq<Pick>, q: nat, walk: seq<nat>)
    requires q < |picks|
  {
    !Held(picks, q, picks[q].slot) && exists j: nat :: FreeAt(picks, q, walk, j)
  }

  /** Turns go round the healthy upstreams in order. */
  ghost predicate IsTurn(healthy: seq<bool>, q: nat, i: nat) {
    i < |healthy| && healthy[i] && AliveCount(healthy) > 0 && Alive(healthy, i) == q % AliveCount(healthy)
  }

  ghost predicate GoodPick(t: seq<nat>, hashes: seq<Hash>, healthy: seq<bool>, picks: seq<Pick>, q: nat)
    requires |hashes| == |healthy| && q < |picks| && |t| > 0
  {
    var i := picks[q].owner;
    && IsTurn(healthy, q, i)
    && (i != 0 ==> picks[q].slot < |t| && t[picks[q].slot] == i && FirstFree(picks, q, Walk(hashes[i], |t|)))
  }

  /** The table is what the picks make of it, as many as there are slots. */
  ghost predicate PickedBy(t: seq<nat>, hashes: seq<Hash>, healthy: seq<bool>, picks: seq<Pick>) {
    && |hashes| == |healthy| && |picks| == |t| > 0
    && (forall q :: 0 <= q < |picks| ==> GoodPick(t, hashes, healthy, picks, q))
    && forall s :: 0 <= s < |t| && t[s] != 0 ==> Held(picks, |picks|, s)
  }

  /** The table that belongs to the hashes and the health of the upstreams. */
  ghost predicate IsTable(t: seq<nat>, hashes: seq<Hash>, healthy: seq<bool>) {
    exists picks :: PickedBy(t, hashes, healthy, picks)
  }

  // ----- there is only one

  lemma TurnIsUnique(healthy: seq<bool>, q: nat, i: nat, j: nat)
    requires IsTurn(healthy, q, i) && IsTurn(healthy, q, j)
    ensures i == j
  {
    if i < j {
      AliveIsMonotone(healthy, i, j);
    } else {
      AliveIsMonotone(healthy, j, i);
    }
  }

  ghost predicate SamePick(a: Pick, b: Pick) {
    a.owner == b.owner && (a.owner != 0 ==> a.slot == b.slot)
  }

  lemma SameHeld(a: seq<Pick>, b: seq<Pick>, q: nat, s: nat)
    requires q <= |a| && q <= |b| && forall p :: 0 <= p < q ==> SamePick(a[p], b[p])
    requires Held(a, q, s)
    ensures Held(b, q, s)
  {
    var p :| 0 <= p < q && a[p].owner != 0 && a[p].slot == s;
    assert SamePick(a[p], b[p]);
  }

  // If the first free slot came earlier in one walk than in the other, it would be held there.
  lemma NotEarlier(a: seq<Pick>, b: seq<Pick>, q: nat, walk: seq<nat>, j: nat, k: nat)
    requires q < |a| && q < |b| && forall p :: 0 <= p < q ==> SamePick(a[p], b[p])
    requires FreeAt(a, q, walk, j) && !Held(a, q, a[q].slot) && FreeAt(b, q, walk, k)
    ensures k <= j
  {
    if j < k {
      assert Held(b, q, walk[j]);
      SameHeld(b, a, q, walk[j]);
    }
  }

  lemma SameFirstFree(a: seq<Pick>, b: seq<Pick>, q: nat, walk: seq<nat>)
    requires q < |a| && q < |b| && forall p :: 0 <= p < q ==> SamePick(a[p], b[p])
    requires FirstFree(a, q, walk) && FirstFree(b, q, walk)
    ensures a[q].slot == b[q].slot
  {
    var j: nat :| FreeAt(a, q, walk, j);
    var k: nat :| FreeAt(b, q, walk, k);
    NotEarlier(a, b, q, walk, j, k);
    NotEarlier(b, a, q, walk, k, j);
  }

  lemma {:induction false} SamePicks(
      t: seq<nat>, u: seq<nat>, hashes: seq<Hash>, healthy: seq<bool>, a: seq<Pick>, b: seq<Pick>, n: nat)
    requires PickedBy(t, hashes, healthy, a) && PickedBy(u, hashes, healthy, b) && |t| == |u| && n <= |t|
    ensures forall p :: 0 <= p < n ==> SamePick(a[p], b[p])
  {
    if n > 0 {
      SamePicks(t, u, hashes, healthy, a, b, n - 1);
      assert GoodPick(t, hashes, healthy, a, n - 1) && GoodPick(u, hashes, healthy, b, n - 1);
      TurnIsUnique(healthy, n - 1, a[n - 1].owner, b[n - 1].owner);
      if a[n - 1].owner != 0 {
        SameFirstFree(a, b, n - 1, Walk(hashes[a[n - 1].owner], |t|));
      }
    }
  }

  lemma HolderIsSame(
      t: seq<nat>, u: seq<nat>, hashes: seq<Hash>, healthy: seq<bool>, a: seq<Pick>, b: seq<Pick>, s: nat)
    requires PickedBy(t, hashes, healthy, a) && PickedBy(u, hashes, healthy, b) && |t| == |u| && s < |t|
    requires t[s] != 0
    ensures u[s] == t[s]
  {
    SamePicks(t, u, hashes, healthy, a, b, |t|);
    assert Held(a, |a|, s);
    var p :| 0 <= p < |a| && a[p].owner != 0 && a[p].slot == s;
    assert GoodPick(t, hashes, healthy, a, p) && GoodPick(u, hashes, healthy, b, p) && SamePick(a[p], b[p]);
  }

  /** Hashes and health determine the table. */
  lemma TableIsUnique(t: seq<nat>, u: seq<nat>, hashes: seq<Hash>, healthy: seq<bool>)
    requires IsTable(t, hashes, healthy) && IsTable(u, hashes, healthy) && |t| == |u|
    ensures t == u
  {
    var a :| PickedBy(t, hashes, healthy, a);
    var b :| PickedBy(u, hashes, healthy, b);
    forall s | 0 <= s < |t|
      ensures t[s] == u[s]
    {
      if t[s] != 0 {
        HolderIsSame(t, u, hashes, healthy, a, b, s);
      } else if u[s] != 0 {
        HolderIsSame(u, t, hashes, healthy, b, a, s);
      }
    }
  }

  // ----- where an upstream's slots are

  lemma HeldIsNotZero(t: seq<nat>, hashes: seq<Hash>, healthy: seq<bool>, picks: seq<Pick>, q: nat, s: nat)
    requires PickedBy(t, hashes, healthy, picks) && q <= |picks| && Held(picks, q, s)
    ensures s < |t| && t[s] != 0
  {
    var p :| 0 <= p < q && picks[p].owner != 0 && picks[p].slot == s;
    assert GoodPick(t, hashes, healthy, picks, p);
  }

  /** An upstream other than 0 that holds a slot of its walk has come to it past held slots only:
      every earlier slot of the walk belongs to an upstream other than 0. */
  lemma EarlierSlotsAreHeld(t: seq<nat>, hashes: seq<Hash>, healthy: seq<bool>, i: nat, s: nat) returns (j: nat)
    requires IsTable(t, hashes, healthy) && 1 <= i < |hashes| && s < |t| && t[s] == i
    ensures j < |t| && s == Slot(hashes[i], j, |t|)
    ensures forall k: nat :: k < j ==> t[Slot(hashes[i], k, |t|)] != 0
  {
    var picks: seq<Pick> :| PickedBy(t, hashes, healthy, picks);
    assert Held(picks, |picks|, s);
    var q :| 0 <= q < |picks| && picks[q].owner != 0 && picks[q].slot == s;
    assert GoodPick(t, hashes, healthy, picks, q);
    var walk := Walk(hashes[i], |t|);
    j :| FreeAt(picks, q, walk, j);
    forall k: nat | k < j
      ensures t[Slot(hashes[i], k, |t|)] != 0
    {
      assert Held(picks, q, walk[k]);
      HeldIsNotZero(t, hashes, healthy, picks, q, walk[k]);
    }
  }
}
