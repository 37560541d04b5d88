/** The handler cache of a lazy edge: a map over a doubly linked list with two sentinel
    nodes, proved to behave as a list of distinct keys in order of recency. */
module Lru {
  import opened Basics

  // ----- the recency list, most recent first

  type Recency<K, V> = seq<(K, V)>

  ghost predicate Distinct<K, V>(l: Recency<K, V>) {
    forall i, j :: 0 <= i < j < |l| ==> l[i].0 != l[j].0
  }

  function Lookup<K(==), V>(l: Recency<K, V>, k: K): (r: Option<V>)
    ensures r.Some? ==> (k, r.value) in l
    ensures r.None? <==> forall i :: 0 <= i < |l| ==> l[i].0 != k
  {
    if l == [] then None
    else if l[0].0 == k then Some(l[0].1)
    else
      assert l == [l[0]] + l[1..];
      Lookup(l[1..], k)
  }

  function Without<K(==), V>(l: Recency<K, V>, k: K): (r: Recency<K, V>)
  {
    if l == [] then []
    else if l[0].0 == k then l[1..]
    else [l[0]] + Without(l[1..], k)
  }

  function Touched<K(==), V>(l: Recency<K, V>, k: K): Recency<K, V> {
    match Lookup(l, k)
    case None => l
    case Some(v) => [(k, v)] + Without(l, k)
  }

  function Stored<K(==), V>(capacity: nat, l: Recency<K, V>, k: K, v: V): Recency<K, V> {
    if Lookup(l, k).Some? then [(k, v)] + Without(l, k) else Added(capacity, l, k, v)
  }

  /** A new entry in front, for which the last one makes room if there is none. */
  function Added<K, V>(capacity: nat, l: Recency<K, V>, k: K, v: V): Recency<K, V> {
    if |l| >= capacity && l != [] then [(k, v)] + l[..|l| - 1] else [(k, v)] + l
  }

  lemma {:induction false} FoundAt<K, V>(l: Recency<K, V>, i: nat)
    requires Distinct(l) && i < |l|
    ensures Lookup(l, l[i].0) == Some(l[i].1)
    ensures Without(l, l[i].0) == l[..i] + l[i + 1..]
  {
    if i > 0 {
      FoundAt(l[1..], i - 1);
      assert l[..i] + l[i + 1..] == [l[0]] + (l[1..][..i - 1] + l[1..][i..]);
    }
  }

  lemma {:induction false} WithoutAbsent<K, V>(l: Recency<K, V>, k: K)
    requires Lookup(l, k).None?
    ensures Without(l, k) == l
  {
    if l != [] {
      WithoutAbsent(l[1..], k);
    }
  }

  // ----- sequences

  ghost function Dropped<T>(s: seq<T>, p: nat): (r: seq<T>)
    requires p < |s|
    ensures |r| == |s| - 1
    ensures forall i :: 0 <= i < p ==> r[i] == s[i]
    ensures forall i :: p <= i < |r| ==> r[i] == s[i + 1]
  {
    s[..p] + s[p + 1..]
  }

  ghost function Cons<T>(x: T, s: seq<T>): (r: seq<T>)
    ensures |r| == |s| + 1 && r[0] == x
    ensures forall i :: 1 <= i < |r| ==> r[i] == s[i - 1]
  {
    [x] + s
  }

  lemma MovedAreSame<T>(s: seq<T>, p: nat)
    requires p < |s|
    ensures forall x :: x in Cons(s[p], Dropped(s, p)) ==> x in s
  {
  }

  /** The map sends the key of each entry to the node at the entry's place. */
  ghost predicate Indexes<K, N>(cache: map<K, N>, nodes: seq<N>, keys: seq<K>) {
    && |nodes| == |keys|
    && (forall i, j :: 0 <= i < j < |keys| ==> keys[i] != keys[j])
    && (forall i :: 0 <= i < |keys| ==> keys[i] in cache && cache[keys[i]] == nodes[i])
    && |cache| == |keys|
  }

  lemma {:induction false} IndexedKeyIsListed<K, N>(cache: map<K, N>, nodes: seq<N>, keys: seq<K>, k: K)
      returns (p: nat)
    requires Indexes(cache, nodes, keys) && k in cache
    ensures p < |keys| && keys[p] == k
    decreases |keys|
  {
    var n := |keys| - 1;
    assert n >= 0 by {
      assert cache == (cache - {k})[k := cache[k]];
    }
    if keys[n] == k {
      p := n;
    } else {
      var rest := cache - {keys[n]};
      assert cache == rest[keys[n] := nodes[n]];
      p := IndexedKeyIsListed(rest, nodes[..n], keys[..n], k);
    }
  }

  lemma UnlistedIsAbsent<K, N>(cache: map<K, N>, nodes: seq<N>, keys: seq<K>, p: nat)
    requires Indexes(cache, nodes, keys) && p < |keys|
    ensures Indexes(cache - {keys[p]}, Dropped(nodes, p), Dropped(keys, p))
  {
    var rest := cache - {keys[p]};
    assert cache == rest[keys[p] := nodes[p]];
  }

  lemma ListedIsPresent<K, N>(cache: map<K, N>, nodes: seq<N>, keys: seq<K>, k: K, n: N)
    requires Indexes(cache, nodes, keys) && k !in cache
    ensures Indexes(cache[k := n], Cons(n, nodes), Cons(k, keys))
  {
  }

  lemma MovedIsPresent<K, N>(cache: map<K, N>, nodes: seq<N>, keys: seq<K>, p: nat)
    requires Indexes(cache, nodes, keys) && p < |keys|
    ensures Indexes(cache, Cons(nodes[p], Dropped(nodes, p)), Cons(keys[p], Dropped(keys, p)))
  {
    UnlistedIsAbsent(cache, nodes, keys, p);
    var rest := cache - {keys[p]};
    ListedIsPresent(rest, Dropped(nodes, p), Dropped(keys, p), keys[p], nodes[p]);
    assert cache == rest[keys[p] := nodes[p]];
  }

  ghost function Keys<K, V>(l: Recency<K, V>): (ks: seq<K>)
    ensures |ks| == |l| && forall i :: 0 <= i < |l| ==> ks[i] == l[i].0
  {
    seq(|l|, i requires 0 <= i < |l| => l[i].0)
  }

  ghost predicate IndexesAll<K, N, V>(cache: map<K, N>, nodes: seq<N>, l: Recency<K, V>) {
    Indexes(cache, nodes, Keys(l))
  }

  lemma IndexAfterDrop<K, N, V>(cache: map<K, N>, nodes: seq<N>, l: Recency<K, V>, p: nat)
    requires IndexesAll(cache, nodes, l) && p < |l|
    ensures IndexesAll(cache - {l[p].0}, Dropped(nodes, p), Dropped(l, p))
  {
    UnlistedIsAbsent(cache, nodes, Keys(l), p);
    assert Keys(Dropped(l, p)) == Dropped(Keys(l), p);
  }

  lemma IndexAfterCons<K, N, V>(cache: map<K, N>, nodes: seq<N>, l: Recency<K, V>, k: K, v: V, n: N)
    requires IndexesAll(cache, nodes, l) && k !in cache
    ensures IndexesAll(cache[k := n], Cons(n, nodes), Cons((k, v), l))
  {
    ListedIsPresent(cache, nodes, Keys(l), k, n);
    assert Keys(Cons((k, v), l)) == Cons(k, Keys(l));
  }

  lemma IndexAfterMove<K, N, V>(cache: map<K, N>, nodes: seq<N>, l: Recency<K, V>, p: nat)
    requires IndexesAll(cache, nodes, l) && p < |l|
    ensures IndexesAll(cache, Cons(nodes[p], Dropped(nodes, p)), Cons(l[p], Dropped(l, p)))
  {
    MovedIsPresent(cache, nodes, Keys(l), p);
    assert Keys(Cons(l[p], Dropped(l, p))) == Cons(Keys(l)[p], Dropped(Keys(l), p));
  }

  lemma IndexAfterUpdate<K, N, V>(cache: map<K, N>, nodes: seq<N>, l: Recency<K, V>, p: nat, v: V)
    requires IndexesAll(cache, nodes, l) && p < |l|
    ensures IndexesAll(cache, nodes, l[p := (l[p].0, v)])
    ensures Dropped(l[p := (l[p].0, v)], p) == Dropped(l, p)
  {
    assert Keys(l[p := (l[p].0, v)]) == Keys(l);
  }

  lemma FoundIn<K, N, V>(cache: map<K, N>, nodes: seq<N>, l: Recency<K, V>, k: K) returns (p: nat)
    requires IndexesAll(cache, nodes, l) && k in cache
    ensures p < |l| == |nodes| && l[p].0 == k && nodes[p] == cache[k]
    ensures Lookup(l, k) == Some(l[p].1) && Without(l, k) == Dropped(l, p)
  {
    p := IndexedKeyIsListed(cache, nodes, Keys(l), k);
    FoundAt(l, p);
  }

  lemma NotFoundIn<K, N, V>(cache: map<K, N>, nodes: seq<N>, l: Recency<K, V>, k: K)
    requires IndexesAll(cache, nodes, l) && k !in cache
    ensures Lookup(l, k).None? && Without(l, k) == l
  {
    assert forall i :: 0 <= i < |l| ==> l[i].0 == Keys(l)[i];
    WithoutAbsent(l, k);
  }

  // ----- the linked list

  class Node<K(0), V(0)> {
    var key: K
    var value: V
    var prev: Node?<K, V>
    var next: Node?<K, V>
  }

  const DEFAULT_CAPACITY: nat := 10000

  class LruCache<K(0, ==), V(0)> {
    const capacity: nat
    const head: Node<K, V>
    const tail: Node<K, V>
    var cache: map<K, Node<K, V>>
    ghost var nodes: seq<Node<K, V>>
    ghost var contents: Recency<K, V>

    /** The links, read in either direction, spell the nodes between the sentinels. */
    ghost predicate Linked()
      reads this, head, tail, nodes
    {
      && head != tail && head !in nodes && tail !in nodes
      && (forall i, j :: 0 <= i < j < |nodes| ==> nodes[i] != nodes[j])
      && head.next == (if nodes == [] then tail else nodes[0])
      && tail.prev == (if nodes == [] then head else nodes[|nodes| - 1])
      && (forall i {:trigger nodes[i].next} :: 0 <= i < |nodes| ==>
            nodes[i].next == if i == |nodes| - 1 then tail else nodes[i + 1])
      && forall i {:trigger nodes[i].prev} :: 0 <= i < |nodes| ==>
           nodes[i].prev == if i == 0 then head else nodes[i - 1]
    }

    ghost predicate Labelled()
      reads this, nodes
    {
      |nodes| == |contents| && forall i :: 0 <= i < |nodes| ==> (nodes[i].key, nodes[i].value) == contents[i]
    }

    ghost predicate Valid()
      reads this, head, tail, nodes
    {
      && Linked() && Labelled() && IndexesAll(cache, nodes, contents)
      && |cache| == |contents| <= capacity && 0 < capacity
    }

    constructor (capacity: int)
      ensures Valid() && contents == [] && fresh(head) && fresh(tail)
      ensures this.capacity == if capacity <= 0 then DEFAULT_CAPACITY else capacity
    {
      this.capacity := if capacity <= 0 then DEFAULT_CAPACITY else capacity;
      var h, t := new Node<K, V>, new Node<K, V>;
      h.next, t.prev := t, h;
      head, tail, cache := h, t, map[];
      nodes, contents := [], [];
    }

    method Remove(node: Node<K, V>, ghost p: nat)
      requires Linked() && Labelled() && p < |nodes| && nodes[p] == node
      modifies this`nodes, this`contents, head, tail, nodes
      ensures Linked() && nodes == Dropped(old(nodes), p)
      ensures Labelled() && contents == Dropped(old(contents), p)
      ensures node.key == old(node.key) && node.value == old(node.value)
    {
      Unlink(node, p);
      contents := Dropped(contents, p);
    }

    method Unlink(node: Node<K, V>, ghost p: nat)
      requires Linked() && p < |nodes| && nodes[p] == node
      modifies this`nodes, head, tail, nodes
      ensures Linked() && nodes == Dropped(old(nodes), p)
      ensures forall n :: n in old(nodes) ==> n.key == old(n.key) && n.value == old(n.value)
    {
      node.prev.next := node.next;
      node.next.prev := node.prev;
      nodes := Dropped(nodes, p);
    }

    method AddToFront(node: Node<K, V>)
      requires Linked() && Labelled() && node !in nodes && node != head && node != tail
      modifies this`nodes, this`contents, node, head, tail, nodes
      ensures Linked() && nodes == Cons(node, old(nodes))
      ensures Labelled() && contents == Cons(old((node.key, node.value)), old(contents))
      ensures node.key == old(node.key) && node.value == old(node.value)
    {
      node.next := head.next;
      node.prev := head;
      head.next.prev := node;
      head.next := node;
      nodes, contents := Cons(node, nodes), Cons((node.key, node.value), contents);
    }

    // The two changes of links that move a node.
    method Relink(node: Node<K, V>, ghost p: nat)
      requires Linked() && Labelled() && p < |nodes| && nodes[p] == node
      modifies this`nodes, this`contents, head, tail, nodes
      ensures Linked() && nodes == Cons(node, Dropped(old(nodes), p))
      ensures Labelled() && contents == Cons(old(contents)[p], Dropped(old(contents), p))
      ensures node.value == old(node.value)
    {
      Remove(node, p);
      AddToFront(node);
    }

    method MoveToFront(node: Node<K, V>, ghost p: nat)
      requires Valid() && p < |nodes| && nodes[p] == node
      modifies this`nodes, this`contents, head, tail, nodes
      ensures Valid() && forall n :: n in nodes ==> n in old(nodes)
      ensures contents == Cons(old(contents)[p], Dropped(old(contents), p))
      ensures node.value == old(node.value)
    {
      IndexAfterMove(cache, nodes, contents, p);
      MovedAreSame(nodes, p);
      Relink(node, p);
    }

    method Get(key: K) returns (r: Option<V>)
      requires Valid()
      modifies this, head, tail, nodes
      ensures Valid() && forall n :: n in nodes ==> n in old(nodes)
      ensures r == Lookup(old(contents), key) && contents == Touched(old(contents), key)
    {
      if key !in cache {
        NotFoundIn(cache, nodes, contents, key);
        return None;
      }
      var node := cache[key];
      ghost var p := FoundIn(cache, nodes, contents, key);
      MoveToFront(node, p);
      return Some(node.value);
    }

    method Put(key: K, value: V)
      requires Valid()
      modifies this, head, tail, nodes
      ensures Valid() && forall n :: n in nodes ==> n in old(nodes) || fresh(n)
      ensures contents == Stored(capacity, old(contents), key, value)
    {
      if key in cache {
        var node := cache[key];
        ghost var p := FoundIn(cache, nodes, contents, key);
        Overwrite(node, value, p);
        return;
      }
      NotFoundIn(cache, nodes, contents, key);
      PutNew(key, value);
    }

    method PutNew(key: K, value: V)
      requires Valid() && key !in cache
      modifies this, head, tail, nodes
      ensures Valid() && forall n :: n in nodes ==> n in old(nodes) || fresh(n)
      ensures contents == Added(capacity, old(contents), key, value)
    {
      if |cache| >= capacity {
        Evict();
      }
      Insert(key, value);
    }

    method Overwrite(node: Node<K, V>, value: V, ghost p: nat)
      requires Valid() && p < |nodes| && nodes[p] == node
      modifies this, head, tail, nodes
      ensures Valid() && forall n :: n in nodes ==> n in old(nodes)
      ensures contents == [(old(contents)[p].0, value)] + Dropped(old(contents), p)
    {
      IndexAfterUpdate(cache, nodes, contents, p, value);
      node.value := value;
      contents := contents[p := (contents[p].0, value)];
      MoveToFront(node, p);
    }

    method Insert(key: K, value: V)
      requires Valid() && key !in cache && |contents| < capacity
      modifies this, head, tail, nodes
      ensures Valid() && forall n :: n in nodes ==> n in old(nodes) || fresh(n)
      ensures contents == [(key, value)] + old(contents)
    {
      var node := new Node<K, V>;
      node.key, node.value := key, value;
      IndexAfterCons(cache, nodes, contents, key, value, node);
      cache := cache[key := node];
      AddToFront(node);
    }

    method Delete(key: K) returns (found: bool)
      requires Valid()
      modifies this, head, tail, nodes
      ensures Valid() && forall n :: n in nodes ==> n in old(nodes)
      ensures found <==> Lookup(old(contents), key).Some?
      ensures contents == Without(old(contents), key)
    {
      if key !in cache {
        NotFoundIn(cache, nodes, contents, key);
        return false;
      }
      var node := cache[key];
      ghost var p := FoundIn(cache, nodes, contents, key);
      Unlist(node, p);
      return true;
    }

    // Takes one node out of the list and out of the map.
    method Unlist(node: Node<K, V>, ghost p: nat)
      requires Valid() && p < |nodes| && nodes[p] == node
      modifies this, head, tail, nodes
      ensures Valid() && contents == Dropped(old(contents), p) && nodes == Dropped(old(nodes), p)
      ensures cache == old(cache) - {old(contents)[p].0}
    {
      IndexAfterDrop(cache, nodes, contents, p);
      Remove(node, p);
      cache := cache - {node.key};
    }

    /** Drops the least recent entry, if there is one. */
    method Evict()
      requires Valid()
      modifies this, head, tail, nodes
      ensures Valid() && cache.Keys <= old(cache.Keys)
      ensures contents == (if old(contents) == [] then [] else old(contents)[..|old(contents)| - 1])
      ensures nodes == if old(nodes) == [] then [] else old(nodes)[..|old(nodes)| - 1]
    {
      var node := tail.prev;
      if node == head {
        return;
      }
      Unlist(node, |nodes| - 1);
    }
  }
}
