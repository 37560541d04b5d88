/** The Maglev lookup table of the load balancer: healthy upstreams take turns, and
    each turn claims the next slot of the upstream's own permutation that still looks
    empty. The table starts at 0 and 0 is also the index of the first upstream, so a
    slot claimed by upstream 0 keeps looking empty and may be claimed again. */
module Maglev {
  import opened NumberTheory
  import opened MaglevPicks

  const TABLE_SIZE: nat := 65537

  lemma TableSizeIsPrime()
    ensures IsPrime(TABLE_SIZE)
  {
    TrialDivision(65537, 257);
  }

  // ----- what a finished table promises

  ghost function SlotsOf(t: seq<nat>, i: nat): set<nat> {
    set s: nat | s < |t| && t[s] == i
  }

  ghost function NonZero(t: seq<nat>): set<nat> {
    set s: nat | s < |t| && t[s] != 0
  }

  /** The exact number of slots due to upstream i: an equal share of m, plus one of the
      m % AliveCount leftover slots if i is among the first that many healthy upstreams. */
  function Share(m: nat, healthy: seq<bool>, i: nat): nat
    requires i < |healthy| && AliveCount(healthy) > 0
  {
    if !healthy[i] then 0
    else m / AliveCount(healthy) + if Alive(healthy, i) < m % AliveCount(healthy) then 1 else 0
  }

  ghost predicate NamesOnlyHealthy(t: seq<nat>, healthy: seq<bool>) {
    forall s :: 0 <= s < |t| ==> t[s] < |healthy| && healthy[t[s]]
  }

  ghost predicate TableFor(t: seq<nat>, healthy: seq<bool>) {
    && AliveCount(healthy) > 0
    && NamesOnlyHealthy(t, healthy)
    && forall i :: 0 <= i < |healthy| ==> |SlotsOf(t, i)| == Share(|t|, healthy, i)
  }

  /** The balance guarantee in its usual form. */
  lemma HealthySharesDifferByAtMostOne(t: seq<nat>, healthy: seq<bool>, i: nat, j: nat)
    requires TableFor(t, healthy)
    requires i < |healthy| && j < |healthy| && healthy[i] && healthy[j]
    ensures -1 <= |SlotsOf(t, i)| - |SlotsOf(t, j)| <= 1
    ensures forall k :: 0 <= k < |healthy| && !healthy[k] ==> SlotsOf(t, k) == {}
  {
    assert |SlotsOf(t, i)| == Share(|t|, healthy, i) && |SlotsOf(t, j)| == Share(|t|, healthy, j);
  }

  // ----- permutations

  ghost predicate Injective(p: seq<nat>) {
    forall j, k :: 0 <= j < k < |p| ==> p[j] != p[k]
  }

  ghost predicate Constant(p: seq<nat>) {
    forall j :: 0 <= j < |p| ==> p[j] == p[0]
  }

  ghost predicate IsWalk(p: seq<nat>, h: Hash, m: nat)
    requires m > 0
  {
    |p| == m && forall j :: 0 <= j < m ==> p[j] == Slot(h, j, m)
  }

  lemma SlotsDiffer(h: Hash, m: nat, j: nat, k: nat)
    requires IsPrime(m) && h.h2 % m != 0 && j < k < m
    ensures Slot(h, j, m) != Slot(h, k, m)
  {
    WalkIsInjective(h.h1, h.h2, m, j, k);
  }

  lemma WalkVisitsDistinctSlots(p: seq<nat>, h: Hash, m: nat)
    requires IsPrime(m) && IsWalk(p, h, m) && h.h2 % m != 0
    ensures Injective(p)
  {
    forall j, k | 0 <= j < k < |p|
      ensures p[j] != p[k]
    {
      SlotsDiffer(h, m, j, k);
    }
  }

  lemma WalkIsConstant(p: seq<nat>, h: Hash, m: nat)
    requires IsPrime(m) && IsWalk(p, h, m) && h.h2 % m == 0
    ensures Constant(p)
  {
    forall j | 0 <= j < |p|
      ensures p[j] == p[0]
    {
      WalkStandsStill(h.h1, h.h2, m, j);
      WalkStandsStill(h.h1, h.h2, m, 0);
    }
  }

  ghost function Image(p: seq<nat>, js: set<nat>): set<nat> {
    set j | j in js && j < |p| :: p[j]
  }

  lemma {:induction false} ImageOfDistinct(p: seq<nat>, js: set<nat>)
    requires Injective(p) && forall j :: j in js ==> j < |p|
    ensures |Image(p, js)| == |js|
  {
    if js == {} {
      assert Image(p, js) == {};
    } else {
      var k :| k in js;
      ImageOfDistinct(p, js - {k});
      assert Image(p, js) == Image(p, js - {k}) + {p[k]};
    }
  }

  ghost function Below(k: nat): (js: set<nat>)
    ensures |js| == k && forall j: nat :: j in js <==> j < k
  {
    if k == 0 then {} else Below(k - 1) + {k - 1}
  }

  // ----- the filling loop, as a value

  /** Table, per-upstream cursors, per-upstream fill counts, the probe (by number) that took
      each slot, the probes at which upstream 0 found a slot of another upstream, and the
      picks so far. */
  datatype Fill = Fill(
    t: seq<nat>, next: seq<nat>, fills: seq<nat>, from: seq<nat>, blocked: set<nat>, picks: seq<Pick>)

  ghost predicate Shaped(f: Fill, perms: seq<seq<nat>>, healthy: seq<bool>) {
    && 0 < |healthy| == |perms| == |f.next| == |f.fills|
    && 0 < |f.t| == |f.from|
    && (forall i :: 0 <= i < |perms| ==> |perms[i]| == |f.t|)
    && (forall i, j :: 0 <= i < |perms| && 0 <= j < |perms[i]| ==> perms[i][j] < |f.t|)
    && forall i :: 0 <= i < |f.next| ==> f.next[i] <= |f.t|
  }

  /** Slots that do not look empty belong to a healthy upstream other than 0, sit on its
      permutation and are never given up; an upstream other than 0 has passed no slot
      that still looks empty. */
  ghost predicate Claims(f: Fill, perms: seq<seq<nat>>, healthy: seq<bool>)
    requires Shaped(f, perms, healthy)
  {
    && (forall s :: 0 <= s < |f.t| ==> f.t[s] < |healthy|)
    && (forall s :: 0 <= s < |f.t| && f.t[s] != 0 ==>
          healthy[f.t[s]] && f.from[s] < |f.t| && perms[f.t[s]][f.from[s]] == s)
    && (forall i {:trigger SlotsOf(f.t, i)} :: 1 <= i < |perms| ==> |SlotsOf(f.t, i)| == f.fills[i])
    && forall i, j :: 1 <= i < |perms| && 0 <= j < f.next[i] ==> f.t[perms[i][j]] != 0
  }

  /** Every probe of upstream 0 either was counted as a fill or met another upstream. */
  ghost predicate ZeroAccounted(f: Fill, perms: seq<seq<nat>>, healthy: seq<bool>)
    requires Shaped(f, perms, healthy)
  {
    && |f.blocked| + f.fills[0] == f.next[0]
    && forall j :: j in f.blocked ==> j < f.next[0] && f.t[perms[0][j]] != 0
  }

  ghost predicate FillInv(f: Fill, perms: seq<seq<nat>>, healthy: seq<bool>) {
    Shaped(f, perms, healthy) && Claims(f, perms, healthy) && ZeroAccounted(f, perms, healthy)
  }

  ghost predicate WellPicked(f: Fill, perms: seq<seq<nat>>, q: nat)
    requires q < |f.picks|
  {
    var i := f.picks[q].owner;
    i != 0 ==>
      && i < |perms| && f.picks[q].slot < |f.t| && f.t[f.picks[q].slot] == i
      && FirstFree(f.picks, q, perms[i])
  }

  /** The picks of upstreams other than 0 are the slots they hold, each the first that was free
      on the owner's permutation. */
  ghost predicate PicksInv(f: Fill, perms: seq<seq<nat>>) {
    && (forall q :: 0 <= q < |f.picks| ==> WellPicked(f, perms, q))
    && forall s :: 0 <= s < |f.t| && f.t[s] != 0 ==> Held(f.picks, |f.picks|, s)
  }

  ghost predicate BuildInv(f: Fill, perms: seq<seq<nat>>, healthy: seq<bool>) {
    FillInv(f, perms, healthy) && PicksInv(f, perms)
  }

  /** A name for the invariant. */
  ghost predicate Means(inv: Fill -> bool, perms: seq<seq<nat>>, healthy: seq<bool>) {
    forall f {:trigger BuildInv(f, perms, healthy)} :: inv(f) <==> BuildInv(f, perms, healthy)
  }

  /** The code's counter: fills of upstream 0, overwritten or not, and held slots. */
  ghost function Filled(f: Fill): nat
    requires |f.fills| > 0
  {
    f.fills[0] + |NonZero(f.t)|
  }

  lemma SubsetIsNoLarger<T>(a: set<T>, b: set<T>)
    requires a <= b
    ensures |a| <= |b|
  {
    assert b == a + (b - a);
  }

  /** An upstream that cannot run off its permutation: one that visits every slot, and
      upstream 0 if no other is healthy, for then every slot looks empty to the end. */
  ghost predicate Safe(perms: seq<seq<nat>>, healthy: seq<bool>, i: nat)
    requires i < |perms| == |healthy|
  {
    Injective(perms[i]) || (i == 0 && OnlyZero(healthy))
  }

  ghost predicate OnlyZero(healthy: seq<bool>) {
    forall k :: 1 <= k < |healthy| ==> !healthy[k]
  }

  /** While the counter is below the table size no cursor has reached the end. */
  lemma CursorInBounds(f: Fill, perms: seq<seq<nat>>, healthy: seq<bool>, i: nat)
    requires FillInv(f, perms, healthy) && i < |perms| && Safe(perms, healthy, i)
    requires Filled(f) < |f.t|
    ensures f.next[i] < |f.t|
  {
    if !Injective(perms[i]) {
      assert f.blocked == {};
    } else if i == 0 {
      ImageOfDistinct(perms[0], f.blocked);
      SubsetIsNoLarger(Image(perms[0], f.blocked), NonZero(f.t));
    } else {
      var visited := Below(f.next[i]);
      ImageOfDistinct(perms[i], visited);
      assert Image(perms[i], visited) <= NonZero(f.t);
      SubsetIsNoLarger(Image(perms[i], visited), NonZero(f.t));
    }
  }

  ghost function Missed(f: Fill, i: nat): Fill
    requires i < |f.next|
  {
    f.(next := f.next[i := f.next[i] + 1], blocked := if i == 0 then f.blocked + {f.next[0]} else f.blocked)
  }

  lemma MissKeepsInv(f: Fill, perms: seq<seq<nat>>, healthy: seq<bool>, i: nat)
    requires FillInv(f, perms, healthy) && i < |perms| && f.next[i] < |f.t|
    requires f.t[perms[i][f.next[i]]] != 0
    ensures FillInv(Missed(f, i), perms, healthy)
  {
    var g := Missed(f, i);
    assert Shaped(g, perms, healthy);
    assert Claims(g, perms, healthy) by {
      forall k, j | 1 <= k < |perms| && 0 <= j < g.next[k]
        ensures g.t[perms[k][j]] != 0
      {
        assert (k == i && j == f.next[i]) || j < f.next[k];
      }
    }
  }

  ghost function Taken(f: Fill, i: nat, idx: nat): Fill
    requires i < |f.next| == |f.fills| && idx < |f.t| == |f.from|
  {
    Fill(f.t[idx := i], f.next[i := f.next[i] + 1], f.fills[i := f.fills[i] + 1], f.from[idx := f.next[i]], f.blocked,
         f.picks + [Pick(i, idx)])
  }

  lemma TakeChangesCounts(f: Fill, i: nat, idx: nat)
    requires i < |f.next| == |f.fills| && idx < |f.t| == |f.from| && f.t[idx] == 0
    ensures Filled(Taken(f, i, idx)) == Filled(f) + 1
    ensures i != 0 ==> |SlotsOf(f.t[idx := i], i)| == |SlotsOf(f.t, i)| + 1
    ensures forall k :: k != 0 && k != i ==> SlotsOf(f.t[idx := i], k) == SlotsOf(f.t, k)
    ensures NonZero(f.t) <= NonZero(f.t[idx := i])
  {
    var u := f.t[idx := i];
    if i == 0 {
      assert u == f.t;
    } else {
      assert SlotsOf(u, i) == SlotsOf(f.t, i) + {idx};
      assert NonZero(u) == NonZero(f.t) + {idx};
    }
  }

  lemma TakeKeepsInv(f: Fill, perms: seq<seq<nat>>, healthy: seq<bool>, i: nat)
    requires FillInv(f, perms, healthy) && i < |perms| && healthy[i] && f.next[i] < |f.t|
    requires f.t[perms[i][f.next[i]]] == 0
    ensures FillInv(Taken(f, i, perms[i][f.next[i]]), perms, healthy)
  {
    var idx := perms[i][f.next[i]];
    var g := Taken(f, i, idx);
    TakeChangesCounts(f, i, idx);
    assert Shaped(g, perms, healthy);
    forall k | 1 <= k < |perms|
      ensures |SlotsOf(g.t, k)| == g.fills[k]
    {
      assert |SlotsOf(f.t, k)| == f.fills[k];
    }
  }

  // ----- picks

  lemma HeldAlready(picks: seq<Pick>, p: Pick, q: nat, s: nat)
    requires q <= |picks|
    ensures Held(picks + [p], q, s) <==> Held(picks, q, s)
  {
    assert forall k :: 0 <= k < q ==> (picks + [p])[k] == picks[k];
  }

  lemma FirstFreeAlready(picks: seq<Pick>, p: Pick, q: nat, walk: seq<nat>)
    requires q < |picks| && FirstFree(picks, q, walk)
    ensures FirstFree(picks + [p], q, walk)
  {
    var j: nat :| FreeAt(picks, q, walk, j);
    HeldAlready(picks, p, q, picks[q].slot);
    forall k | 0 <= k < j
      ensures Held(picks + [p], q, walk[k])
    {
      assert Held(picks, q, walk[k]);
      HeldAlready(picks, p, q, walk[k]);
    }
    assert FreeAt(picks + [p], q, walk, j);
  }

  lemma HeldLooksTaken(f: Fill, perms: seq<seq<nat>>, q: nat, s: nat)
    requires PicksInv(f, perms) && q <= |f.picks| && Held(f.picks, q, s)
    ensures s < |f.t| && f.t[s] != 0
  {
    var p :| 0 <= p < q && f.picks[p].owner != 0 && f.picks[p].slot == s;
    assert WellPicked(f, perms, p);
  }

  // An upstream other than 0 takes the first slot of its permutation that looks empty.
  lemma NewPickIsFirst(f: Fill, perms: seq<seq<nat>>, healthy: seq<bool>, i: nat)
    requires BuildInv(f, perms, healthy) && 1 <= i < |perms| && f.next[i] < |f.t|
    requires f.t[perms[i][f.next[i]]] == 0
    ensures FirstFree(f.picks + [Pick(i, perms[i][f.next[i]])], |f.picks|, perms[i])
  {
    var p, n := Pick(i, perms[i][f.next[i]]), |f.picks|;
    HeldAlready(f.picks, p, n, p.slot);
    if Held(f.picks, n, p.slot) {
      HeldLooksTaken(f, perms, n, p.slot);
    }
    forall k | 0 <= k < f.next[i]
      ensures Held(f.picks + [p], n, perms[i][k])
    {
      assert f.t[perms[i][k]] != 0;
      HeldAlready(f.picks, p, n, perms[i][k]);
    }
    assert FreeAt(f.picks + [p], n, perms[i], f.next[i]);
  }

  lemma TakeKeepsPicks(f: Fill, perms: seq<seq<nat>>, healthy: seq<bool>, i: nat)
    requires BuildInv(f, perms, healthy) && i < |perms| && f.next[i] < |f.t|
    requires f.t[perms[i][f.next[i]]] == 0
    ensures PicksInv(Taken(f, i, perms[i][f.next[i]]), perms)
  {
    var idx := perms[i][f.next[i]];
    var g, p := Taken(f, i, idx), Pick(i, idx);
    forall q | 0 <= q < |g.picks|
      ensures WellPicked(g, perms, q)
    {
      if q < |f.picks| {
        assert WellPicked(f, perms, q);
        if f.picks[q].owner != 0 {
          FirstFreeAlready(f.picks, p, q, perms[f.picks[q].owner]);
        }
      } else if i != 0 {
        NewPickIsFirst(f, perms, healthy, i);
      }
    }
    forall s | 0 <= s < |g.t| && g.t[s] != 0
      ensures Held(g.picks, |g.picks|, s)
    {
      StillHeld(f.picks, p, s);
    }
  }

  lemma StillHeld(picks: seq<Pick>, p: Pick, s: nat)
    ensures Held(picks, |picks|, s) || (p.owner != 0 && p.slot == s) ==> Held(picks + [p], |picks| + 1, s)
  {
    var more := picks + [p];
    assert more[|picks|] == p;
    if Held(picks, |picks|, s) {
      var k :| 0 <= k < |picks| && picks[k].owner != 0 && picks[k].slot == s;
      assert more[k] == picks[k];
    }
  }

  // ----- turns

  /** The fills after some full rounds and the turns of the upstreams below i. */
  ghost predicate Turns(fills: seq<nat>, healthy: seq<bool>, rounds: nat, i: nat) {
    && |fills| == |healthy| && i <= |healthy|
    && forall j :: 0 <= j < |healthy| ==>
         fills[j] == if !healthy[j] then 0 else if j < i then rounds + 1 else rounds
  }

  ghost predicate InOrder(picks: seq<Pick>, healthy: seq<bool>) {
    forall q :: 0 <= q < |picks| ==> IsTurn(healthy, q, picks[q].owner)
  }

  /** Fills, picks and counter after some full rounds and the turns of the upstreams below i. */
  ghost predicate OnTurn(f: Fill, healthy: seq<bool>, rounds: nat, i: nat) {
    && i <= |healthy| && |f.fills| > 0
    && Turns(f.fills, healthy, rounds, i) && InOrder(f.picks, healthy)
    && |f.picks| == Filled(f) == Total(healthy, rounds, i)
  }

  /** The counter after some full rounds and the turns of the upstreams below i. */
  ghost function Total(healthy: seq<bool>, rounds: nat, i: nat): nat
    requires i <= |healthy|
  {
    Times(rounds, AliveCount(healthy)) + Alive(healthy, i)
  }

  ghost function Times(k: nat, h: nat): nat {
    if k == 0 then 0 else Times(k - 1, h) + h
  }

  lemma {:induction false} TimesIsProduct(k: nat, h: nat)
    ensures Times(k, h) == k * h
  {
    if k > 0 {
      TimesIsProduct(k - 1, h);
      assert k * h == (k - 1) * h + h;
    }
  }

  lemma TurnComes(healthy: seq<bool>, rounds: nat, i: nat)
    requires i < |healthy| && healthy[i]
    ensures IsTurn(healthy, Total(healthy, rounds, i), i)
  {
    AliveIsMonotone(healthy, i, |healthy|);
    TimesIsProduct(rounds, AliveCount(healthy));
    DivisionIsUnique(Total(healthy, rounds, i), AliveCount(healthy), rounds, Alive(healthy, i));
  }

  /** The step from f to g gave upstream i a slot. */
  ghost predicate Gives(f: Fill, g: Fill, i: nat) {
    && i < |f.fills| && g.fills == f.fills[i := f.fills[i] + 1] && Filled(g) == Filled(f) + 1
    && |g.picks| == |f.picks| + 1 && g.picks[..|f.picks|] == f.picks && g.picks[|f.picks|].owner == i
  }

  lemma TurnTaken(f: Fill, g: Fill, healthy: seq<bool>, rounds: nat, i: nat)
    requires OnTurn(f, healthy, rounds, i) && i < |healthy| && healthy[i] && Gives(f, g, i)
    ensures OnTurn(g, healthy, rounds, i + 1)
  {
    TurnComes(healthy, rounds, i);
    forall q | 0 <= q < |g.picks|
      ensures IsTurn(healthy, q, g.picks[q].owner)
    {
      if q < |f.picks| {
        assert g.picks[q] == f.picks[q];
      }
    }
  }

  lemma TurnPassed(f: Fill, healthy: seq<bool>, rounds: nat, i: nat)
    requires OnTurn(f, healthy, rounds, i) && i < |healthy| && !healthy[i]
    ensures OnTurn(f, healthy, rounds, i + 1)
  {
  }

  lemma RoundOver(f: Fill, healthy: seq<bool>, rounds: nat)
    requires OnTurn(f, healthy, rounds, |healthy|)
    ensures OnTurn(f, healthy, rounds + 1, 0)
  {
  }

  /** Counting argument: once the counter reaches the table size, the slots that look
      empty are exactly as many as the fills credited to upstream 0. */
  lemma ZeroOwnsTheRest(f: Fill, perms: seq<seq<nat>>, healthy: seq<bool>)
    requires FillInv(f, perms, healthy) && Filled(f) == |f.t|
    ensures |SlotsOf(f.t, 0)| == f.fills[0]
  {
    EmptyOrHeld(f.t);
  }

  lemma {:induction false} EmptyOrHeld(t: seq<nat>)
    ensures |SlotsOf(t, 0)| + |NonZero(t)| == |t|
  {
    if t == [] {
      assert SlotsOf(t, 0) == {} == NonZero(t);
    } else {
      var k := |t| - 1;
      var u := t[..k];
      EmptyOrHeld(u);
      if t[k] == 0 {
        assert SlotsOf(t, 0) == SlotsOf(u, 0) + {k} && NonZero(t) == NonZero(u);
      } else {
        assert SlotsOf(t, 0) == SlotsOf(u, 0) && NonZero(t) == NonZero(u) + {k};
      }
    }
  }

  // Taking turns until m slots are handed out gives everyone the exact share.
  lemma TurnsAreShares(m: nat, healthy: seq<bool>, rounds: nat, i: nat, j: nat)
    requires i <= |healthy| && j < |healthy| && healthy[j] && AliveCount(healthy) > 0
    requires Total(healthy, rounds, i) == m
    ensures Share(m, healthy, j) == if j < i then rounds + 1 else rounds
  {
    var h := AliveCount(healthy);
    AliveIsMonotone(healthy, i, |healthy|);
    AliveIsMonotone(healthy, j, |healthy|);
    if j < i {
      AliveIsMonotone(healthy, j, i);
    } else {
      AliveIsMonotone(healthy, i, j);
    }
    TimesIsProduct(rounds, h);
    TimesIsProduct(rounds + 1, h);
    if Alive(healthy, i) == h {
      assert m == (rounds + 1) * h + 0;
      DivisionIsUnique(m, h, rounds + 1, 0);
    } else {
      DivisionIsUnique(m, h, rounds, Alive(healthy, i));
    }
  }

  ghost predicate FairFills(fills: seq<nat>, m: nat, healthy: seq<bool>) {
    && |fills| == |healthy| && AliveCount(healthy) > 0
    && forall j :: 0 <= j < |healthy| ==> fills[j] == Share(m, healthy, j)
  }

  lemma TurnsAreFair(fills: seq<nat>, m: nat, healthy: seq<bool>, rounds: nat, i: nat)
    requires Turns(fills, healthy, rounds, i) && AliveCount(healthy) > 0
    requires Total(healthy, rounds, i) == m
    ensures FairFills(fills, m, healthy)
  {
    forall j | 0 <= j < |healthy|
      ensures fills[j] == Share(m, healthy, j)
    {
      if healthy[j] {
        TurnsAreShares(m, healthy, rounds, i, j);
      }
    }
  }

  lemma FinishedTable(f: Fill, perms: seq<seq<nat>>, healthy: seq<bool>)
    requires FillInv(f, perms, healthy) && FairFills(f.fills, |f.t|, healthy)
    requires Filled(f) == |f.t|
    ensures TableFor(f.t, healthy)
  {
    ZeroOwnsTheRest(f, perms, healthy);
    forall s | 0 <= s < |f.t|
      ensures f.t[s] < |healthy| && healthy[f.t[s]]
    {
      if f.t[s] == 0 {
        assert s in SlotsOf(f.t, 0);
      }
    }
    assert forall j :: 0 <= j < |healthy| ==> |SlotsOf(f.t, j)| == f.fills[j];
  }

  /** An upstream other than 0 that never moves off its first slot cannot take a second
      turn, so a build that gives two turns to everyone does not finish. */
  lemma StuckUpstreamCannotFinish(f: Fill, perms: seq<seq<nat>>, healthy: seq<bool>, rounds: nat, i: nat, k: nat)
    requires FillInv(f, perms, healthy) && Turns(f.fills, healthy, rounds, i) && Filled(f) == Total(healthy, rounds, i)
    requires 1 <= k < |perms| && healthy[k] && Constant(perms[k])
    requires 2 * AliveCount(healthy) <= |f.t|
    ensures Filled(f) < |f.t|
  {
    assert SlotsOf(f.t, k) <= {perms[k][0]};
    SubsetIsNoLarger(SlotsOf(f.t, k), {perms[k][0]});
    FewTurns(healthy, rounds, i, k);
  }

  lemma NoStuckUpstreamFinishes(f: Fill, perms: seq<seq<nat>>, healthy: seq<bool>, rounds: nat, i: nat)
    requires FillInv(f, perms, healthy) && Turns(f.fills, healthy, rounds, i)
    requires Filled(f) == Total(healthy, rounds, i) == |f.t|
    ensures 2 * AliveCount(healthy) <= |f.t| ==>
              forall k :: 1 <= k < |perms| && healthy[k] ==> !Constant(perms[k])
  {
    forall k | 1 <= k < |perms| && healthy[k] && Constant(perms[k]) && 2 * AliveCount(healthy) <= |f.t|
      ensures false
    {
      StuckUpstreamCannotFinish(f, perms, healthy, rounds, i, k);
    }
  }

  // If upstream k had at most one turn, fewer than two full rounds have been played.
  lemma FewTurns(healthy: seq<bool>, rounds: nat, i: nat, k: nat)
    requires i <= |healthy| && k < |healthy| && healthy[k]
    requires (if k < i then rounds + 1 else rounds) <= 1
    ensures Total(healthy, rounds, i) < 2 * AliveCount(healthy)
  {
    AliveIsMonotone(healthy, i, |healthy|);
    AliveIsMonotone(healthy, k, |healthy|);
    if k >= i {
      AliveIsMonotone(healthy, i, k);
    }
    TimesIsProduct(rounds, AliveCount(healthy));
    assert rounds == 0 || rounds == 1;
  }

  // ----- the code

  ghost predicate EverySkipMoves(hashes: seq<Hash>, healthy: seq<bool>, m: nat)
    requires m > 0 && |hashes| == |healthy|
  {
    forall i :: 0 <= i < |hashes| && healthy[i] ==> hashes[i].h2 % m != 0
  }

  ghost predicate SomeOtherIsStuck(hashes: seq<Hash>, healthy: seq<bool>, m: nat)
    requires m > 0 && |hashes| == |healthy|
  {
    exists i :: 1 <= i < |hashes| && healthy[i] && hashes[i].h2 % m == 0
  }

  method BuildPermutation(h: Hash, m: nat) returns (perm: seq<nat>)
    requires m > 0
    ensures IsWalk(perm, h, m)
  {
    perm := [];
    for j := 0 to m
      invariant |perm| == j
      invariant forall k :: 0 <= k < j ==> perm[k] == Slot(h, k, m)
    {
      perm := perm + [(h.h1 + j * h.h2) % m];
    }
  }

  method BuildPermutations(hashes: seq<Hash>, m: nat) returns (perms: seq<seq<nat>>)
    requires m > 0
    ensures |perms| == |hashes|
    ensures forall i :: 0 <= i < |hashes| ==> IsWalk(perms[i], hashes[i], m)
  {
    perms := [];
    for i := 0 to |hashes|
      invariant |perms| == i
      invariant forall k :: 0 <= k < i ==> IsWalk(perms[k], hashes[k], m)
    {
      var perm := BuildPermutation(hashes[i], m);
      perms := perms + [perm];
    }
  }

  ghost predicate AllSafe(perms: seq<seq<nat>>, healthy: seq<bool>)
    requires |perms| == |healthy|
  {
    forall i :: 0 <= i < |perms| && healthy[i] ==> Safe(perms, healthy, i)
  }

  lemma WalksAreSafe(perms: seq<seq<nat>>, hashes: seq<Hash>, healthy: seq<bool>, m: nat)
    requires IsPrime(m) && |perms| == |hashes| == |healthy|
    requires forall i :: 0 <= i < |hashes| ==> IsWalk(perms[i], hashes[i], m)
    ensures EverySkipMoves(hashes, healthy, m) || OnlyZero(healthy) ==> AllSafe(perms, healthy)
  {
    if EverySkipMoves(hashes, healthy, m) {
      forall i | 0 <= i < |perms| && healthy[i]
        ensures Safe(perms, healthy, i)
      {
        WalkVisitsDistinctSlots(perms[i], hashes[i], m);
      }
    }
  }

  class Balancer {
    const size: nat
    const hashes: seq<Hash>
    var healthy: seq<bool>
    var table: array<nat>

    constructor (hashes: seq<Hash>, size: nat)
      requires IsPrime(size)
      ensures this.hashes == hashes && this.size == size
      ensures |healthy| == |hashes| && forall i :: 0 <= i < |healthy| ==> healthy[i]
      ensures table.Length == 0 && fresh(table)
    {
      this.hashes, this.size := hashes, size;
      healthy := seq(|hashes|, _ => true);
      table := new nat[0];
    }

    method HasHealthy() returns (r: bool)
      ensures r <==> AliveCount(healthy) > 0
    {
      SomeoneIsAlive(healthy, |healthy|);
      for i := 0 to |healthy|
        invariant forall j :: 0 <= j < i ==> !healthy[j]
      {
        if healthy[i] {
          return true;
        }
      }
      return false;
    }

    // Looks at the next slot of upstream i and takes it if it looks empty.
    method Probe(perms: seq<seq<nat>>, i: nat, t: array<nat>, next: array<nat>, ghost inv: Fill -> bool, ghost f: Fill)
        returns (taken: bool, ghost g: Fill)
      requires Means(inv, perms, healthy) && inv(f) && i < |perms| == |healthy| == |f.fills| && healthy[i]
      requires t != next && f.t == t[..] && f.next == next[..] && next.Length == |perms| && next[i] < t.Length
      modifies t, next
      ensures inv(g) && g.t == t[..] && g.next == next[..] && next[i] == old(next[i]) + 1
      ensures taken ==> Gives(f, g, i)
      ensures !taken ==> g.t == f.t && g.fills == f.fills && g.picks == f.picks
    {
      ProbeKeepsInv(inv, f, perms, healthy, i);
      var idx := perms[i][next[i]];
      next[i] := next[i] + 1;
      taken := t[idx] == 0;
      g := Missed(f, i);
      if taken {
        t[idx] := i;
        g := Taken(f, i, idx);
      }
    }

    // The innermost loop: walk upstream i's permutation to the next slot that looks empty.
    method TakeSlot(
        perms: seq<seq<nat>>, i: nat, t: array<nat>, next: array<nat>, ghost inv: Fill -> bool, ghost f: Fill)
        returns (ok: bool, ghost g: Fill)
      requires Means(inv, perms, healthy) && inv(f) && i < |perms| == |healthy| == |f.fills| && healthy[i]
      requires t != next && f.t == t[..] && f.next == next[..] && next.Length == |perms| && Filled(f) < t.Length
      modifies t, next
      ensures inv(g) && g.t == t[..] && g.next == next[..]
      ensures ok ==> Gives(f, g, i)
      ensures Safe(perms, healthy, i) ==> ok
    {
      g := f;
      while next[i] < t.Length
        invariant inv(g) && g.t == t[..] && g.next == next[..]
        invariant g.t == f.t && g.fills == f.fills && g.picks == f.picks
        decreases t.Length - next[i]
      {
        ok, g := Probe(perms, i, t, next, inv, g);
        if ok {
          return;
        }
      }
      if Safe(perms, healthy, i) {
        assert BuildInv(g, perms, healthy);
        CursorInBounds(g, perms, healthy, i);
      }
      return false, g;
    }

    // One turn of upstream i.
    method TakeTurn(perms: seq<seq<nat>>, i: nat, t: array<nat>, next: array<nat>, filled: nat,
                    ghost inv: Fill -> bool, ghost f: Fill, ghost rounds: nat)
        returns (ok: bool, now: nat, ghost g: Fill)
      requires Means(inv, perms, healthy) && inv(f) && i < |perms| == |healthy| && OnTurn(f, healthy, rounds, i)
      requires t != next && next.Length == |perms| && f.t == t[..] && f.next == next[..]
      requires filled == Filled(f) < t.Length
      modifies t, next
      ensures (healthy[i] ==> Safe(perms, healthy, i)) ==> ok
      ensures ok ==> inv(g) && g.t == t[..] && g.next == next[..] && OnTurn(g, healthy, rounds, i + 1)
      ensures ok ==> now == Filled(g) <= t.Length
    {
      ok, now, g := true, filled, f;
      if healthy[i] {
        ok, g := TakeSlot(perms, i, t, next, inv, f);
        now := filled + 1;
        if ok {
          TurnTaken(f, g, healthy, rounds, i);
        }
      } else {
        TurnPassed(f, healthy, rounds, i);
      }
    }

    // One pass over the upstreams: every healthy one takes a slot until the table is full.
    method FillRound(perms: seq<seq<nat>>, t: array<nat>, next: array<nat>, start: nat,
                     ghost inv: Fill -> bool, ghost f: Fill, ghost rounds: nat)
        returns (ok: bool, filled: nat, ghost g: Fill, ghost turn: nat)
      requires 0 < |perms| == |healthy| && Means(inv, perms, healthy)
      requires inv(f) && f.t == t[..] && f.next == next[..] && t != next && next.Length == |perms|
      requires OnTurn(f, healthy, rounds, 0) && start == Filled(f) < t.Length
      modifies t, next
      ensures AllSafe(perms, healthy) ==> ok
      ensures ok ==> inv(g) && g.t == t[..] && g.next == next[..] && OnTurn(g, healthy, rounds, turn)
      ensures ok ==> filled == Filled(g) <= t.Length
      ensures ok && filled < t.Length ==> turn == |healthy|
    {
      ok, g, turn, filled := true, f, 0, start;
      var i := 0;
      while i < |perms| && filled < t.Length
        invariant ok && 0 <= i <= |perms| && turn == i
        invariant inv(g) && g.t == t[..] && g.next == next[..] && OnTurn(g, healthy, rounds, i)
        invariant filled == Filled(g) <= t.Length
      {
        ok, filled, g := TakeTurn(perms, i, t, next, filled, inv, g, rounds);
        if !ok {
          return;
        }
        i, turn := i + 1, turn + 1;
      }
    }

    // Rounds until the table is full.
    method FillTable(perms: seq<seq<nat>>, t: array<nat>, next: array<nat>) returns (ok: bool, ghost picks: seq<Pick>)
      requires |healthy| == |perms| && 0 < size == t.Length && t != next && next.Length == |perms|
      requires AliveCount(healthy) > 0
      requires forall i :: 0 <= i < |perms| ==> |perms[i]| == size
      requires forall i, j :: 0 <= i < |perms| && 0 <= j < |perms[i]| ==> perms[i][j] < size
      requires (forall s :: 0 <= s < t.Length ==> t[s] == 0) && forall i :: 0 <= i < next.Length ==> next[i] == 0
      modifies t, next
      ensures AllSafe(perms, healthy) ==> ok
      ensures ok ==> TableFor(t[..], healthy) && PicksMake(t[..], perms, healthy, picks)
      ensures ok && 2 * AliveCount(healthy) <= size ==>
                forall k :: 1 <= k < |perms| && healthy[k] ==> !Constant(perms[k])
    {
      var filled := 0;
      ghost var f := Fill(t[..], next[..], next[..], t[..], {}, []);
      ghost var rounds: nat, turn: nat := 0, 0;
      ghost var inv := StartOfFill(f, perms, healthy);
      picks := [];
      while filled < size
        invariant inv(f) && f.t == t[..] && f.next == next[..]
        invariant OnTurn(f, healthy, rounds, turn) && filled == Filled(f) <= size
        invariant filled < size ==> turn == 0
        decreases size - filled
      {
        ghost var before := f;
        ok, filled, f, turn := FillRound(perms, t, next, filled, inv, f, rounds);
        if !ok {
          return;
        }
        if filled < size {
          RoundGrows(before, f, healthy, rounds);
          RoundOver(f, healthy, rounds);
          rounds, turn := rounds + 1, 0;
        }
      }
      FullTable(inv, f, perms, healthy, rounds, turn);
      return true, f.picks;
    }

    /** Rebuilds the table. Running off the end of a permutation is a panic in the source,
        fatal in construction and, during a request, fatal to that request, whose write lock
        stays held; it is reported as panicked. */
    method BuildTableLocked() returns (panicked: bool)
      requires IsPrime(size) && |healthy| == |hashes|
      modifies this`table
      ensures AliveCount(healthy) == 0 ==> !panicked && table == old(table)
      ensures AliveCount(healthy) > 0 && !panicked ==>
                && fresh(table) && table.Length == size && TableFor(table[..], healthy)
                && IsTable(table[..], hashes, healthy)
      ensures EverySkipMoves(hashes, healthy, size) || OnlyZero(healthy) ==> !panicked
      ensures SomeOtherIsStuck(hashes, healthy, size) && 2 * AliveCount(healthy) <= size ==> panicked
    {
      var some := HasHealthy();
      if !some {
        forall k | 0 <= k < |healthy|
          ensures !healthy[k]
        {
          SomeoneIsAlive(healthy, |healthy|);
        }
        return false;
      }
      var n := |hashes|;
      table := new nat[size](_ => 0);
      var perms := BuildPermutations(hashes, size);
      WalksAreSafe(perms, hashes, healthy, size);
      var next := new nat[n](_ => 0);
      ghost var picks;
      var ok;
      ok, picks := FillTable(perms, table, next);
      if !ok {
        return true;
      }
      WalksMakeTable(table[..], hashes, healthy, perms, picks);
      if SomeOtherIsStuck(hashes, healthy, size) && 2 * AliveCount(healthy) <= size {
        var k :| 1 <= k < |hashes| && healthy[k] && hashes[k].h2 % size == 0;
        WalkIsConstant(perms[k], hashes[k], size);
      }
      return false;
    }
  }

  lemma ProbeKeepsInv(inv: Fill -> bool, f: Fill, perms: seq<seq<nat>>, healthy: seq<bool>, i: nat)
    requires Means(inv, perms, healthy) && inv(f) && i < |perms| == |healthy| && healthy[i]
    requires i < |f.next| == |f.fills| && f.next[i] < |f.t|
    ensures |f.t| == |f.from| == |perms[i]| && perms[i][f.next[i]] < |f.t|
    ensures var idx := perms[i][f.next[i]];
            if f.t[idx] == 0 then inv(Taken(f, i, idx)) && Gives(f, Taken(f, i, idx), i)
            else inv(Missed(f, i))
  {
    assert BuildInv(f, perms, healthy);
    var idx := perms[i][f.next[i]];
    if f.t[idx] == 0 {
      TakeKeepsInv(f, perms, healthy, i);
      TakeKeepsPicks(f, perms, healthy, i);
      TakeChangesCounts(f, i, idx);
      assert BuildInv(Taken(f, i, idx), perms, healthy);
    } else {
      MissKeepsInv(f, perms, healthy, i);
      MissKeepsPicks(f, perms, i);
      assert BuildInv(Missed(f, i), perms, healthy);
    }
  }

  lemma MissKeepsPicks(f: Fill, perms: seq<seq<nat>>, i: nat)
    requires PicksInv(f, perms) && i < |f.next|
    ensures PicksInv(Missed(f, i), perms)
  {
    var g := Missed(f, i);
    forall q | 0 <= q < |g.picks|
      ensures WellPicked(g, perms, q)
    {
      assert WellPicked(f, perms, q);
    }
  }

  // A full round fills at least one slot.
  lemma RoundGrows(f: Fill, g: Fill, healthy: seq<bool>, rounds: nat)
    requires OnTurn(f, healthy, rounds, 0) && OnTurn(g, healthy, rounds, |healthy|) && AliveCount(healthy) > 0
    ensures Filled(g) > Filled(f)
  {
  }

  lemma StartOfFill(f: Fill, perms: seq<seq<nat>>, healthy: seq<bool>) returns (inv: Fill -> bool)
    requires Shaped(f, perms, healthy)
    requires f.blocked == {} && f.fills == f.next && f.picks == []
    requires (forall s :: 0 <= s < |f.t| ==> f.t[s] == 0) && forall i :: 0 <= i < |f.next| ==> f.next[i] == 0
    ensures Means(inv, perms, healthy) && inv(f) && OnTurn(f, healthy, 0, 0) && Filled(f) == 0
  {
    inv := g => BuildInv(g, perms, healthy);
    assert NonZero(f.t) == {};
    forall i | 1 <= i < |perms|
      ensures |SlotsOf(f.t, i)| == 0
    {
      assert SlotsOf(f.t, i) == {};
    }
    assert BuildInv(f, perms, healthy);
  }

  lemma FullTable(inv: Fill -> bool, f: Fill, perms: seq<seq<nat>>, healthy: seq<bool>, rounds: nat, turn: nat)
    requires Means(inv, perms, healthy) && inv(f) && AliveCount(healthy) > 0
    requires OnTurn(f, healthy, rounds, turn) && |healthy| > 0 && Filled(f) == |f.t|
    ensures TableFor(f.t, healthy) && PicksMake(f.t, perms, healthy, f.picks)
    ensures 2 * AliveCount(healthy) <= |f.t| ==>
              forall k :: 1 <= k < |perms| && k < |healthy| && healthy[k] ==> !Constant(perms[k])
  {
    assert BuildInv(f, perms, healthy);
    TurnsAreFair(f.fills, |f.t|, healthy, rounds, turn);
    FinishedTable(f, perms, healthy);
    NoStuckUpstreamFinishes(f, perms, healthy, rounds, turn);
    FinishedPicks(f, perms, healthy);
  }

  // ----- the picks of a finished table

  ghost predicate PickIsGood(t: seq<nat>, perms: seq<seq<nat>>, healthy: seq<bool>, picks: seq<Pick>, q: nat)
    requires q < |picks|
  {
    var i := picks[q].owner;
    && IsTurn(healthy, q, i)
    && (i != 0 ==>
          i < |perms| && picks[q].slot < |t| && t[picks[q].slot] == i && FirstFree(picks, q, perms[i]))
  }

  ghost predicate PicksMake(t: seq<nat>, perms: seq<seq<nat>>, healthy: seq<bool>, picks: seq<Pick>) {
    && |picks| == |t| && (forall q :: 0 <= q < |picks| ==> PickIsGood(t, perms, healthy, picks, q))
    && forall s :: 0 <= s < |t| && t[s] != 0 ==> Held(picks, |picks|, s)
  }

  lemma FinishedPicks(f: Fill, perms: seq<seq<nat>>, healthy: seq<bool>)
    requires PicksInv(f, perms) && InOrder(f.picks, healthy) && |f.picks| == |f.t|
    ensures PicksMake(f.t, perms, healthy, f.picks)
  {
    forall q | 0 <= q < |f.picks|
      ensures PickIsGood(f.t, perms, healthy, f.picks, q)
    {
      assert WellPicked(f, perms, q);
    }
  }

  lemma WalksMakeTable(
      t: seq<nat>, hashes: seq<Hash>, healthy: seq<bool>, perms: seq<seq<nat>>, picks: seq<Pick>)
    requires |t| > 0 && |perms| == |hashes| == |healthy| && PicksMake(t, perms, healthy, picks)
    requires forall i :: 0 <= i < |hashes| ==> IsWalk(perms[i], hashes[i], |t|)
    ensures IsTable(t, hashes, healthy)
  {
    forall q | 0 <= q < |picks|
      ensures GoodPick(t, hashes, healthy, picks, q)
    {
      assert PickIsGood(t, perms, healthy, picks, q);
      var i := picks[q].owner;
      assert perms[i] == Walk(hashes[i], |t|);
    }
    assert PickedBy(t, hashes, healthy, picks);
  }

  /** An upstream other than 0 that holds a slot of its walk holds it, or another upstream other
      than 0 does, at every earlier place of the walk. */
  lemma PassesHeldOnly(t: seq<nat>, hashes: seq<Hash>, healthy: seq<bool>, i: nat, j: nat)
    requires IsPrime(|t|) && IsTable(t, hashes, healthy) && 1 <= i < |hashes| && j < |t|
    requires t[Slot(hashes[i], j, |t|)] == i
    ensures forall k: nat :: k < j ==> t[Slot(hashes[i], k, |t|)] != 0
  {
    var h, m := hashes[i], |t|;
    var at := EarlierSlotsAreHeld(t, hashes, healthy, i, Slot(h, j, m));
    if h.h2 % m == 0 {
      forall k: nat | k < j
        ensures t[Slot(h, k, m)] != 0
      {
        WalkStandsStill(h.h1, h.h2, m, k);
        WalkStandsStill(h.h1, h.h2, m, j);
      }
    } else if at < j {
      SlotsDiffer(h, m, at, j);
    } else if j < at {
      SlotsDiffer(h, m, j, at);
    }
  }
}
