/**
 The least-recently-used caches: a doubly linked list of nodes, most recent first,
 with a map from key to node.  The section cache and the block cache keep one each.
 */
module Lru {
  import opened Entries

  // ---- most-recent-first sequences ----

  /** The sequence without the element at one place. */
  function Drop<T>(s: seq<T>, p: nat): (r: seq<T>)
    requires p < |s|
    ensures |r| == |s| - 1
  {
    s[..p] + s[p + 1..]
  }

  /** The sequence with the element at one place moved to the front. */
  function Raise<T>(s: seq<T>, p: nat): (r: seq<T>)
    requires p < |s|
    ensures |r| == |s| && r[0] == s[p]
    ensures forall i | 0 < i <= p :: r[i] == s[i - 1]
    ensures forall i | p < i < |s| :: r[i] == s[i]
  {
    [s[p]] + Drop(s, p)
  }

  /** Where a key is; keys occur at most once. */
  function Find<K(==), V>(items: seq<(K, V)>, k: K): (r: Option<nat>)
    ensures r.Some? ==> r.value < |items| && items[r.value].0 == k
    ensures r.None? ==> forall i | 0 <= i < |items| :: items[i].0 != k
  {
    if items == [] then None
    else if items[|items| - 1].0 == k then Some(|items| - 1)
    else Find(items[..|items| - 1], k)
  }

  predicate Unique<K(==), V>(items: seq<(K, V)>)
  {
    forall i, j | 0 <= i < j < |items| :: items[i].0 != items[j].0
  }

  /** A get moves a key that is there to the front. */
  function Got<K(==), V>(items: seq<(K, V)>, k: K): (r: seq<(K, V)>)
  {
    match Find(items, k)
    case None => items
    case Some(p) => Raise(items, p)
  }

  function Deleted<K(==), V>(items: seq<(K, V)>, k: K): (r: seq<(K, V)>)
  {
    match Find(items, k)
    case None => items
    case Some(p) => Drop(items, p)
  }

  /** A put moves a key that is there to the front and keeps its value; a new key
      goes to the front, and the last one goes when there was no room. */
  function Put<K(==), V>(items: seq<(K, V)>, k: K, v: V, size: nat): (r: seq<(K, V)>)
  {
    if size == 0 then items
    else match Find(items, k)
      case Some(p) => Raise(items, p)
      case None => [(k, v)] + if |items| == size then items[..size - 1] else items
  }

  /** What a put drops. */
  function Evicted<K(==), V>(items: seq<(K, V)>, k: K, size: nat): Option<(K, V)>
  {
    if size > 0 && Find(items, k).None? && |items| == size then Some(items[size - 1]) else None
  }

  lemma {:induction false} RaiseUnique<K, V>(items: seq<(K, V)>, p: nat)
    requires Unique(items) && p < |items|
    ensures Unique(Raise(items, p))
  {
    var r := Raise(items, p);
    forall i, j | 0 <= i < j < |r|
      ensures r[i].0 != r[j].0
    {
      var a := if i == 0 then p else if i <= p then i - 1 else i;
      var b := if j <= p then j - 1 else j;
      assert r[i] == items[a] && r[j] == items[b];
    }
  }

  lemma {:induction false} DropUnique<K, V>(items: seq<(K, V)>, p: nat)
    requires Unique(items) && p < |items|
    ensures Unique(Drop(items, p))
    ensures forall i | 0 <= i < |items| - 1 :: Drop(items, p)[i].0 != items[p].0
  {
    var r := Drop(items, p);
    forall i | 0 <= i < |r|
      ensures r[i] == items[if i < p then i else i + 1] && r[i].0 != items[p].0
    {
    }
  }

  lemma FindIs<K, V>(items: seq<(K, V)>, k: K, p: nat)
    requires Unique(items) && p < |items| && items[p].0 == k
    ensures Find(items, k) == Some(p)
  {
    hide Find;
    var r := Find(items, k);
    assert r.Some?;
    assert r.value < p || p < r.value || r.value == p;
  }

  /** Every operation keeps the keys distinct and the size within the capacity. */
  lemma {:induction false} KeepsUnique<K, V>(items: seq<(K, V)>, k: K, v: V, size: nat)
    requires Unique(items) && |items| <= size
    ensures Unique(Got(items, k)) && |Got(items, k)| <= size
    ensures Unique(Deleted(items, k)) && |Deleted(items, k)| <= size && Find(Deleted(items, k), k).None?
    ensures Unique(Put(items, k, v, size)) && |Put(items, k, v, size)| <= size
    ensures size > 0 ==> Find(Put(items, k, v, size), k) == Some(0)
  {
    hide Find, Unique, Raise, Drop;
    var p := Find(items, k);
    if p.Some? {
      RaiseUnique(items, p.value);
      DropUnique(items, p.value);
    } else {
      PushUnique(items, k, v, size);
    }
    if size > 0 {
      assert Put(items, k, v, size)[0].0 == k;
      FindIs(Put(items, k, v, size), k, 0);
    }
  }

  lemma PushUnique<K, V>(items: seq<(K, V)>, k: K, v: V, size: nat)
    requires Unique(items) && |items| <= size && forall i | 0 <= i < |items| :: items[i].0 != k
    ensures size > 0 ==> Unique([(k, v)] + if |items| == size then items[..size - 1] else items)
  {
  }

  /** Raising and dropping lose nothing else. */
  lemma {:induction false} RaiseKeeps<T>(s: seq<T>, p: nat)
    requires p < |s|
    ensures forall i | 0 <= i < |s| :: s[i] in Raise(s, p)
    ensures forall i | 0 <= i < |s| && i != p :: s[i] in Drop(s, p)
    ensures forall e | e in Raise(s, p) :: e in s
  {
    var r, d := Raise(s, p), Drop(s, p);
    forall i | 0 <= i < |s|
      ensures s[i] in r && (i != p ==> s[i] in d)
    {
      assert r[if i == p then 0 else if i < p then i + 1 else i] == s[i];
      if i != p {
        assert d[if i < p then i else i - 1] == s[i];
      }
    }
  }

  /** No operation makes up an item; a get loses none, a delete only that of its key, and
      a put only the last one when a full cache has to make room. */
  lemma {:induction false} OpsFrom<K, V>(items: seq<(K, V)>, k: K, v: V, size: nat)
    requires Unique(items)
    ensures forall e | e in Got(items, k) :: e in items
    ensures forall e | e in Deleted(items, k) :: e in items && e.0 != k
    ensures forall e | e in Put(items, k, v, size) :: e in items || (e == (k, v) && Find(items, k).None?)
    ensures forall e | e in items :: e in Got(items, k) && (e.0 != k ==> e in Deleted(items, k))
    ensures forall i | 0 <= i < |items| && (Find(items, k).Some? || |items| != size || i < size - 1) ::
              items[i] in Put(items, k, v, size)
  {
    hide Find;
    var p := Find(items, k);
    if p.Some? {
      DropUnique(items, p.value);
      RaiseKeeps(items, p.value);
    } else if size > 0 {
      var kept := if |items| == size then items[..size - 1] else items;
      var r := Put(items, k, v, size);
      assert forall i | 0 <= i < |kept| :: r[i + 1] == kept[i];
    }
  }

  /** The key is in the last place of a full cache. */
  predicate Reused<K(==), V>(items: seq<(K, V)>, k: K, size: nat)
  {
    size > 0 && |items| == size && Find(items, k) == Some(size - 1)
  }

  /** The put of the block cache makes room before it looks whether the key is there:
      a key that is there keeps its value and moves to the front, but the last of the
      others goes when the cache is full.  When the key is itself the last one, the
      cache goes on with a node that it has released, see `Lru.Admit`. */
  function Admitted<K(==), V>(items: seq<(K, V)>, k: K, v: V, size: nat): (r: seq<(K, V)>)
  {
    if size == 0 then items
    else match Find(items, k)
      case Some(p) => if |items| == size && p < size - 1 then Raise(items[..size - 1], p) else Raise(items, p)
      case None => [(k, v)] + if |items| == size then items[..size - 1] else items
  }

  lemma {:induction false} AdmittedKeeps<K, V>(items: seq<(K, V)>, k: K, v: V, size: nat)
    requires Unique(items) && |items| <= size && size > 0 && !Reused(items, k, size)
    ensures var r := Admitted(items, k, v, size);
            && Unique(r) && |r| <= size && Find(r, k) == Some(0)
            && (forall e | e in r :: e in items || (e == (k, v) && Find(items, k).None?))
            && (forall i | 0 <= i < |items| && (|items| < size || i < size - 1) :: items[i] in r)
            && (Find(items, k).None? ==> r[0] == (k, v))
            && (Find(items, k).Some? ==> r[0] == items[Find(items, k).value])
  {
    hide Find, Raise, Unique;
    var r := Admitted(items, k, v, size);
    var left := if |items| == size then items[..size - 1] else items;
    match Find(items, k) {
      case Some(p) =>
        UniquePrefix(items, |left|);
        RaiseUnique(left, p);
        RaiseKeeps(left, p);
      case None =>
        PushUnique(items, k, v, size);
        assert forall i | 0 <= i < |left| :: r[i + 1] == left[i];
    }
    forall i | 0 <= i < |items| && (|items| < size || i < size - 1)
      ensures items[i] in r
    {
      assert items[i] == left[i];
    }
    FindIs(r, k, 0);
  }

  /** The items whose key is not among the given ones. */
  function Without<K(==), V>(items: seq<(K, V)>, keys: set<K>): (r: seq<(K, V)>)
    ensures |r| <= |items|
  {
    if items == [] then []
    else
      var n := |items| - 1;
      Without(items[..n], keys) + if items[n].0 in keys then [] else [items[n]]
  }

  lemma {:induction false} WithoutIs<K, V>(items: seq<(K, V)>, keys: set<K>)
    ensures forall e | e in Without(items, keys) :: e in items && e.0 !in keys
    ensures forall e | e in items && e.0 !in keys :: e in Without(items, keys)
  {
    if items != [] {
      var n := |items| - 1;
      WithoutIs(items[..n], keys);
      assert items == items[..n] + [items[n]];
    }
  }

  lemma {:induction false} WithoutUnique<K, V>(items: seq<(K, V)>, keys: set<K>)
    requires Unique(items)
    ensures Unique(Without(items, keys))
  {
    if items != [] {
      var n := |items| - 1;
      WithoutUnique(items[..n], keys);
      WithoutIs(items[..n], keys);
      var rest := Without(items[..n], keys);
      forall i | 0 <= i < |rest|
        ensures rest[i].0 != items[n].0
      {
        assert rest[i] in rest;
        var j :| 0 <= j < n && items[..n][j] == rest[i];
      }
    }
  }

  lemma {:induction false} WithoutNone<K, V>(items: seq<(K, V)>, keys: set<K>)
    requires forall i | 0 <= i < |items| :: items[i].0 !in keys
    ensures Without(items, keys) == items
  {
    if items != [] {
      var n := |items| - 1;
      WithoutNone(items[..n], keys);
      assert items == items[..n] + [items[n]];
    }
  }

  /** Deleting one key is leaving out that key. */
  lemma {:induction false} WithoutOne<K, V>(items: seq<(K, V)>, k: K)
    requires Unique(items)
    ensures Without(items, {k}) == Deleted(items, k)
  {
    hide Unique;
    if items != [] {
      var n := |items| - 1;
      assert Unique(items[..n]) by {
        UniquePrefix(items, n);
      }
      if items[n].0 == k {
        LastOnly(items);
        WithoutNone(items[..n], {k});
        assert Drop(items, n) == items[..n] == Without(items, {k});
      } else {
        WithoutOne(items[..n], k);
        var p := Find(items[..n], k);
        assert Find(items, k) == p;
        if p.Some? {
          assert Drop(items, p.value) == Drop(items[..n], p.value) + [items[n]];
        } else {
          assert items == items[..n] + [items[n]];
        }
      }
    }
  }

  lemma UniquePrefix<K, V>(items: seq<(K, V)>, n: nat)
    requires Unique(items) && n <= |items|
    ensures Unique(items[..n])
  {
  }

  lemma LastOnly<K, V>(items: seq<(K, V)>)
    requires Unique(items) && items != []
    ensures var n := |items| - 1;
            Find(items, items[n].0) == Some(n) && forall i | 0 <= i < n :: items[..n][i].0 != items[n].0
  {
  }

  lemma {:induction false} WithoutMore<K, V>(items: seq<(K, V)>, a: set<K>, b: set<K>)
    ensures Without(Without(items, a), b) == Without(items, a + b)
  {
    if items != [] {
      var n := |items| - 1;
      WithoutMore(items[..n], a, b);
      var rest := Without(items[..n], a);
      if items[n].0 !in a {
        assert (rest + [items[n]])[..|rest|] == rest;
      } else {
        assert rest + [] == rest;
      }
    }
  }

  /** Using keys one after the other, from an empty cache. */
  function Use<K(==)>(keys: seq<K>, size: nat): (r: seq<(K, K)>)
    ensures forall i | 0 <= i < |r| :: r[i].1 == r[i].0
  {
    if keys == [] then [] else Put(Use(keys[..|keys| - 1], size), keys[|keys| - 1], keys[|keys| - 1], size)
  }

  /** The cache holds the most recently used keys: a smaller one holds the front part
      of what a larger one holds. */
  lemma {:induction false} HoldsMostRecent<K>(keys: seq<K>, n: nat, m: nat)
    requires 0 < n <= m
    ensures Unique(Use(keys, m)) && |Use(keys, m)| <= m
    ensures Use(keys, n) == Upto(Use(keys, m), n)
  {
    if keys != [] {
      var before, k := keys[..|keys| - 1], keys[|keys| - 1];
      HoldsMostRecent(before, n, m);
      KeepsUnique(Use(before, m), k, k, m);
      PutOnPrefix(Use(before, m), k, n, m);
    }
  }

  lemma {:induction false} PutOnPrefix<K>(items: seq<(K, K)>, k: K, n: nat, m: nat)
    requires 0 < n <= m && |items| <= m && Unique(items) && forall i | 0 <= i < |items| :: items[i].1 == items[i].0
    ensures Put(Upto(items, n), k, k, n) == Upto(Put(items, k, k, m), n)
  {
    hide Find;
    var few := Upto(items, n);
    var p := Find(items, k);
    if p.Some? && p.value < |few| {
      FindIs(few, k, p.value);
      assert Raise(few, p.value) == Upto(Raise(items, p.value), n);
    } else {
      assert Find(few, k).None?;
      if p.Some? {
        assert items[p.value] == (k, k);
      }
      if |items| >= n {
        assert Upto(Put(items, k, k, m), n) == [(k, k)] + items[..n - 1];
      }
    }
  }

  function Upto<T>(s: seq<T>, n: nat): seq<T>
  {
    if |s| <= n then s else s[..n]
  }

  class Node<K, V> {
    var key: K
    var value: V
    var previous: Node?<K, V>
    var next: Node?<K, V>

    constructor (key: K, value: V)
      ensures this.key == key && this.value == value && previous == null && next == null
    {
      this.key := key;
      this.value := value;
      previous := null;
      next := null;
    }
  }

  /** Forward and backward links follow the sequence. */
  ghost predicate Linked<K, V>(nodes: seq<Node<K, V>>, first: Node?<K, V>, last: Node?<K, V>): (ok: bool)
    reads nodes`previous, nodes`next
    ensures ok ==> Distinct(nodes) && first == Front(nodes) && last == Back(nodes)
  {
    && first == Front(nodes) && last == Back(nodes) && Distinct(nodes)
    && (forall i {:trigger nodes[i].previous} | 0 <= i < |nodes| :: nodes[i].previous == Before(nodes, i))
    && (forall i {:trigger nodes[i].next} | 0 <= i < |nodes| :: nodes[i].next == After(nodes, i))
  }

  predicate Distinct<K, V>(nodes: seq<Node<K, V>>)
  {
    forall i, j | 0 <= i < j < |nodes| :: nodes[i] != nodes[j]
  }

  predicate Live<K, V>(nodes: seq<Node<K, V>>, released: set<Node<K, V>>)
  {
    forall i | 0 <= i < |nodes| :: nodes[i] !in released
  }

  ghost function Place<K, V>(nodes: seq<Node<K, V>>, node: Node<K, V>): (p: nat)
    requires node in nodes
    ensures p < |nodes| && nodes[p] == node
  {
    var p :| 0 <= p < |nodes| && nodes[p] == node;
    p
  }

  function Front<K, V>(nodes: seq<Node<K, V>>): Node?<K, V>
  {
    if nodes == [] then null else nodes[0]
  }

  function Back<K, V>(nodes: seq<Node<K, V>>): Node?<K, V>
  {
    if nodes == [] then null else nodes[|nodes| - 1]
  }

  function Before<K, V>(nodes: seq<Node<K, V>>, i: nat): Node?<K, V>
    requires i < |nodes|
  {
    if i == 0 then null else nodes[i - 1]
  }

  function After<K, V>(nodes: seq<Node<K, V>>, i: nat): Node?<K, V>
    requires i < |nodes|
  {
    if i == |nodes| - 1 then null else nodes[i + 1]
  }

  /** The map finds exactly the nodes of the list, by their keys. */
  ghost predicate Indexed<K, V>(nodes: seq<Node<K, V>>, cache: map<K, Node<K, V>>): (ok: bool)
    reads nodes`key
    ensures ok ==> |cache| == |nodes|
  {
    && (forall i | 0 <= i < |nodes| :: nodes[i].key in cache && cache[nodes[i].key] == nodes[i])
    && (forall k | k in cache :: cache[k] in nodes && cache[k].key == k)
    && |cache| == |nodes|
  }

  class Lru<K(==), V> {
    const size: nat
    var first: Node?<K, V>
    var last: Node?<K, V>
    var cache: map<K, Node<K, V>>
    ghost var nodes: seq<Node<K, V>>
    ghost var released: set<Node<K, V>>        // given back to the allocator

    /** Nothing in the list was released. */
    ghost predicate Valid()
      reads this, nodes
    {
      Linked(nodes, first, last) && Indexed(nodes, cache) && |nodes| <= size && Live(nodes, released)
    }

    /** The map leads to a node that was released. */
    ghost predicate Dangling()
      reads this
    {
      exists k :: k in cache && cache[k] in released
    }

    constructor (size: nat)
      ensures Valid() && nodes == [] && this.size == size
    {
      this.size := size;
      first, last := null, null;
      cache := map[];
      nodes := [];
      released := {};
    }

    /** Put a node at the front.  It is in the list, or it is new and unlinked, or it was
        the last one and still knows its predecessor. */
    method Move(node: Node<K, V>)
      requires Linked(nodes, first, last)
      requires node in nodes || (node.next == null && (node.previous == null || node.previous == last))
      modifies this`first, this`last, this`nodes, nodes`previous, nodes`next, node`previous, node`next
      ensures node in old(nodes) || old(node.previous) == null ==> Linked(nodes, first, last)
      ensures node !in old(nodes) ==> nodes == [node] + old(nodes)
      ensures node in old(nodes) ==>
                exists p :: 0 <= p < |old(nodes)| && old(nodes)[p] == node && nodes == Raise(old(nodes), p)
    {
      if first == null {
        first := node;
        last := node;
        nodes := [node];
      } else {
        if first == node {
          assert nodes == Raise(nodes, 0);
          return;
        }
        if first == last {
          node.next := first;
          var firstNode := first;
          firstNode.previous := node;
          last := firstNode;
          first := node;
          assert |nodes| == 1;
          nodes := [node] + nodes;
          assert nodes == [node, firstNode];
        } else if last == node {
          MoveLast(node);
        } else if node.next == null && node.previous == null {
          forall p | 0 <= p < |nodes|
            ensures nodes[p] != node
          {
            assert nodes[p].previous == Before(nodes, p);
          }
          MoveNew(node);
        } else {
          MoveInner(node);
        }
      }
    }

    method MoveLast(node: Node<K, V>)
      requires Linked(nodes, first, last) && |nodes| > 1 && node == last
      modifies this`first, this`last, this`nodes, nodes`previous, nodes`next
      ensures Linked(nodes, first, last) && nodes == Raise(old(nodes), |old(nodes)| - 1)
    {
      ghost var n := |nodes| - 1;
      assert nodes[n].previous == nodes[n - 1];
      last := node.previous;
      var lastNode := last;
      lastNode.next := null;
      node.next := first;
      node.previous := null;
      var firstNode := first;
      firstNode.previous := node;
      first := node;
      nodes := Raise(nodes, n);
    }

    method MoveNew(node: Node<K, V>)
      requires Linked(nodes, first, last) && |nodes| > 1 && node !in nodes
      requires node.previous == null && node.next == null
      modifies this`first, this`nodes, nodes`previous, node`next
      ensures Linked(nodes, first, last) && nodes == [node] + old(nodes)
    {
      var firstNode := first;
      firstNode.previous := node;
      node.next := firstNode;
      first := node;
      nodes := [node] + nodes;
      assert forall i | 0 < i < |nodes| :: nodes[i] == old(nodes)[i - 1];
    }

    method MoveInner(node: Node<K, V>)
      requires Linked(nodes, first, last) && |nodes| > 1 && node != first && node != last
      requires node in nodes || (node.next == null && node.previous == last)
      modifies this`first, this`nodes, nodes`previous, nodes`next, node`previous, node`next
      ensures Linked(nodes, first, last)
      ensures node !in old(nodes) ==> nodes == [node] + old(nodes)
      ensures node in old(nodes) ==>
                exists p :: 0 <= p < |old(nodes)| && old(nodes)[p] == node && nodes == Raise(old(nodes), p)
    {
      hide Linked;
      Bypass(node);
      PushFront(node);
    }

    /** Join the neighbours of a node. */
    method Bypass(node: Node<K, V>)
      requires Linked(nodes, first, last) && |nodes| > 1 && node != first && node != last
      requires node in nodes || (node.next == null && node.previous == last)
      modifies this`nodes, nodes`previous, nodes`next
      ensures Linked(nodes, first, last) && nodes != [] && node !in nodes && forall n | n in nodes :: n in old(nodes)
      ensures node !in old(nodes) ==> nodes == old(nodes)
      ensures node in old(nodes) ==>
                exists p :: 0 <= p < |old(nodes)| && old(nodes)[p] == node && nodes == Drop(old(nodes), p)
    {
      ghost var p := if node in nodes then Place(nodes, node) else |nodes|;
      if node in nodes {
        assert node.previous == nodes[p - 1] && node.next == nodes[p + 1];
      }
      var nextNode := node.next;
      if node.previous != null {
        var previousNode := node.previous;
        previousNode.next := nextNode;
      }
      if node.next != null {
        nextNode.previous := node.previous;
      }
      if node in nodes {
        nodes := Drop(nodes, p);
      }
    }

    method PushFront(node: Node<K, V>)
      requires Linked(nodes, first, last) && nodes != [] && node !in nodes
      modifies this`first, this`nodes, nodes`previous, node`previous, node`next
      ensures Linked(nodes, first, last) && nodes == [node] + old(nodes)
    {
      var firstNode := first;
      firstNode.previous := node;
      node.next := firstNode;
      node.previous := null;
      first := node;
      nodes := [node] + nodes;
      assert forall i | 0 < i < |nodes| :: nodes[i] == old(nodes)[i - 1];
    }

    /** Key and value of each node, most recent first. */
    ghost function Items(): (r: seq<(K, V)>)
      reads this, nodes
      ensures |r| == |nodes|
    {
      ItemsOf(nodes)
    }

    method Get(k: K) returns (r: Option<V>)
      requires Valid()
      modifies this`first, this`last, this`nodes, nodes`previous, nodes`next
      ensures Valid() && Items() == Got(old(Items()), k)
      ensures r == match Find(old(Items()), k) case None => None case Some(p) => Some(old(Items())[p].1)
    {
      hide Find, Linked, Indexed, ItemsOf, Raise;
      FindsNode(nodes, cache, k);
      if k !in cache {
        return None;
      }
      var node := cache[k];
      Move(node);
      r := Some(node.value);
      ghost var p :| 0 <= p < |old(nodes)| && old(nodes)[p] == node && nodes == Raise(old(nodes), p);
      RaiseNode(old(nodes), cache, p);
      FindIs(ItemsOf(old(nodes)), k, p);
    }

    method Delete(k: K)
      requires Valid()
      modifies this`first, this`last, this`nodes, this`cache, this`released, nodes`previous, nodes`next
      ensures Valid() && Items() == Deleted(old(Items()), k)
    {
      hide Find, Linked, Indexed, ItemsOf, Drop;
      FindsNode(nodes, cache, k);
      if k in cache {
        var node := cache[k];
        ghost var p :| 0 <= p < |nodes| && nodes[p] == node;
        ghost var nodes0 := nodes;
        Unlink(node, p);
        DropNode(old(nodes), cache, p);
        cache := cache - {k};
        DropLive(nodes0, p, released);
        released := released + {node};
        FindIs(ItemsOf(old(nodes)), k, p);
      }
    }

    method Unlink(node: Node<K, V>, ghost p: nat)
      requires Linked(nodes, first, last) && p < |nodes| && nodes[p] == node
      modifies this`first, this`last, this`nodes, nodes`previous, nodes`next
      ensures Linked(nodes, first, last) && nodes == Drop(old(nodes), p)
    {
      assert node.previous == Before(nodes, p);
      if node.previous == null {
        UnlinkFirst(node);
      } else {
        UnlinkInner(node, p);
      }
    }

    method UnlinkFirst(node: Node<K, V>)
      requires Linked(nodes, first, last) && nodes != [] && nodes[0] == node
      modifies this`first, this`last, this`nodes, nodes`previous
      ensures Linked(nodes, first, last) && nodes == Drop(old(nodes), 0)
    {
      assert node.next == After(nodes, 0);
      if node.next == null {
        first := null;
        last := null;
      } else {
        var nextNode := node.next;
        if nextNode.previous != null {
          nextNode.previous := null;
        }
        first := node.next;
      }
      nodes := Drop(nodes, 0);
    }

    method UnlinkInner(node: Node<K, V>, ghost p: nat)
      requires Linked(nodes, first, last) && 0 < p < |nodes| && nodes[p] == node
      modifies this`last, this`nodes, nodes`previous, nodes`next
      ensures Linked(nodes, first, last) && nodes == Drop(old(nodes), p)
    {
      assert node.previous == Before(nodes, p) && node.next == After(nodes, p);
      var previousNode := node.previous;
      if node.next == null {
        previousNode.next := null;
        last := previousNode;
      } else {
        var nextNode := node.next;
        nextNode.previous := node.previous;
        previousNode.next := node.next;
      }
      nodes := Drop(nodes, p);
    }

    /** Returns what was dropped to make room. */
    method Insert(k: K, v: V) returns (evicted: Option<(K, V)>)
      requires Valid()
      modifies this`first, this`last, this`nodes, this`cache, this`released, nodes`previous, nodes`next
      ensures Valid() && Items() == Put(old(Items()), k, v, size)
      ensures evicted == Evicted(old(Items()), k, size)
    {
      hide Find, Linked, Indexed, ItemsOf, Drop, Raise;
      FindsNode(nodes, cache, k);
      evicted := None;
      if size == 0 {
        return;
      }
      if k in cache {
        var _ := Get(k);
      } else {
        if |cache| == size {
          evicted := Evict();
        }
        Add(k, v);
      }
    }

    method Add(k: K, v: V)
      requires Valid() && k !in cache && |nodes| < size
      modifies this`first, this`last, this`nodes, this`cache, nodes`previous, nodes`next
      ensures Valid() && Items() == [(k, v)] + old(Items())
    {
      hide Find, Linked, Indexed, ItemsOf, Raise;
      var node := new Node(k, v);
      Enter(k, node);
    }

    /** The put of the block cache.  Room is made after the key was looked up, so that the
        node found may be the one released to make room.  The cache is then left with
        that node in its map, and it is exactly then. */
    method Admit(k: K, v: V) returns (ejected: Option<V>)
      requires Valid()
      modifies this`first, this`last, this`nodes, this`cache, this`released, nodes`previous, nodes`next
      ensures Dangling() <==> Reused(old(Items()), k, size)
      ensures !Dangling() ==> Valid() && Items() == Admitted(old(Items()), k, v, size)
      ensures ejected == if size > 0 && |old(Items())| == size then Some(old(Items())[size - 1].1) else None
    {
      hide Find, Linked, Indexed, ItemsOf, Live, Raise, Reused;
      ejected := None;
      ghost var items, gone := Items(), released;
      FindsNode(nodes, cache, k);
      NoneReleased(nodes, cache, released);
      if size == 0 {
        NotReused(items, k);
        return;
      }
      AdmittedCases(items, k, v, size);
      var node;
      if k in cache {
        node := cache[k];
      } else {
        node := new Node(k, v);
      }
      ejected := MakeRoom(k);
      ghost var stale := Reused(items, k, size);
      Enter(k, node);
      if stale {
        assert cache[k] in released;
      } else {
        NoneReleased(nodes, cache, released);
      }
    }

    /** Drop the last node of a full list. */
    method MakeRoom(ghost k: K) returns (ejected: Option<V>)
      requires Valid() && size > 0
      modifies this`last, this`first, this`nodes, this`cache, this`released, nodes`next
      ensures Valid() && |nodes| < size && nodes <= old(nodes)
      ensures Items() == if |old(Items())| == size then old(Items())[..size - 1] else old(Items())
      ensures ejected == if |old(Items())| == size then Some(old(Items())[size - 1].1) else None
      ensures forall n | n in released :: n in old(released) || n in old(nodes)
      ensures if Reused(old(Items()), k, size) then
                && k in old(cache) && k !in cache && old(cache)[k] in released && old(cache)[k] !in nodes
                && old(cache)[k].next == null && old(cache)[k].previous == last
              else
                && (k in cache <==> k in old(cache)) && (k in cache ==> cache[k] == old(cache)[k])
                && Find(Items(), k) == Find(old(Items()), k)
    {
      hide Find, Linked, Indexed, ItemsOf;
      ejected := None;
      if |cache| == size {
        LastPlace(nodes, cache, k);
        var gone := Evict();
        ejected := Some(gone.value.1);
      }
    }

    /** Put a node into the map and at the front of the list. */
    method Enter(k: K, node: Node<K, V>)
      requires Valid() && node.key == k
      requires if k in cache then cache[k] == node
               else node !in nodes && |nodes| < size && node.next == null &&
                    (node.previous == null || node.previous == last)
      modifies this`first, this`last, this`nodes, this`cache, nodes`previous, nodes`next, node`previous, node`next
      ensures cache == old(cache)[k := node]
      ensures k in old(cache) ==>
                Valid() && Find(old(Items()), k).Some? && Items() == Raise(old(Items()), Find(old(Items()), k).value)
      ensures k !in old(cache) && old(node.previous) == null && node !in released ==>
                Valid() && Items() == [(k, node.value)] + old(Items())
    {
      hide Find, Linked, Indexed, ItemsOf, Raise;
      FindsNode(nodes, cache, k);
      ghost var was, before := nodes, cache;
      cache := cache[k := node];
      Move(node);
      if k in before {
        assert cache == before;
        ghost var p :| 0 <= p < |was| && was[p] == node && nodes == Raise(was, p);
        RaiseNode(was, cache, p);
        FindIs(ItemsOf(was), k, p);
        RaiseLive(was, p, released);
      } else {
        PushNode(was, before, node);
      }
    }

    /** Drop the last node. */
    method Evict() returns (evicted: Option<(K, V)>)
      requires Valid() && |cache| > 0
      modifies this`last, this`first, this`nodes, this`cache, this`released, nodes`next
      ensures Valid() && old(Items()) != []
      ensures released == old(released) + {old(nodes)[|old(nodes)| - 1]}
      ensures Items() == old(Items())[..|old(Items())| - 1] && nodes == old(nodes)[..|old(nodes)| - 1]
      ensures evicted == Some(old(Items())[|old(Items())| - 1])
      ensures cache == old(cache) - {old(nodes)[|nodes|].key}
      ensures old(nodes)[|nodes|].previous == last && old(nodes)[|nodes|].next == null
    {
      hide Find, ItemsOf, Drop, Linked, Indexed;
      ghost var n := |nodes| - 1;
      DropNode(nodes, cache, n);
      DropLast(nodes);
      DropLast(Items());
      HasKey(nodes, cache, n);
      var lastNode := last;
      CutLast();
      evicted := Some((lastNode.key, lastNode.value));
      cache := cache - {lastNode.key};
      released := released + {lastNode};
    }

    method CutLast()
      requires Linked(nodes, first, last) && nodes != []
      modifies this`last, this`first, this`nodes, nodes`next
      ensures Linked(nodes, first, last) && nodes == old(nodes)[..|old(nodes)| - 1]
      ensures old(last) == old(nodes)[|nodes|] && old(last).previous == last && old(last).next == null
    {
      ghost var n := |nodes| - 1;
      var lastNode := last;
      assert lastNode.next == After(nodes, n);
      assert lastNode.previous == Before(nodes, n);
      if lastNode.previous == null {
        last := null;
        first := null;
      } else {
        var newLast := lastNode.previous;
        newLast.next := null;
        last := newLast;
      }
      nodes := nodes[..n];
    }
  }

  lemma NoneReleased<K, V>(nodes: seq<Node<K, V>>, cache: map<K, Node<K, V>>, released: set<Node<K, V>>)
    requires Indexed(nodes, cache) && Live(nodes, released)
    ensures forall k | k in cache :: cache[k] !in released
  {
  }

  lemma DropLive<K, V>(nodes: seq<Node<K, V>>, p: nat, released: set<Node<K, V>>)
    requires Distinct(nodes) && p < |nodes| && Live(nodes, released)
    ensures Live(Drop(nodes, p), released + {nodes[p]})
  {
    hide Drop;
    DropHas(nodes, p);
  }

  lemma RaiseLive<K, V>(nodes: seq<Node<K, V>>, p: nat, released: set<Node<K, V>>)
    requires p < |nodes| && Live(nodes, released)
    ensures Live(Raise(nodes, p), released)
  {
  }

  lemma AdmittedCases<K, V>(items: seq<(K, V)>, k: K, v: V, size: nat)
    requires 0 < size && |items| <= size
    ensures var left := if |items| == size then items[..size - 1] else items;
            Admitted(items, k, v, size) ==
            match Find(items, k)
            case None => [(k, v)] + left
            case Some(p) => if p < |left| then Raise(left, p) else Raise(items, p)
  {
    hide Find, Raise;
  }

  lemma NotReused<K, V>(items: seq<(K, V)>, k: K)
    ensures !Reused(items, k, 0)
  {
  }

  /** Without its last node the list has the same places for the others. */
  lemma {:induction false} LastPlace<K, V>(nodes: seq<Node<K, V>>, cache: map<K, Node<K, V>>, k: K)
    requires Distinct(nodes) && Indexed(nodes, cache) && nodes != []
    ensures var n := |nodes| - 1;
            && nodes[n] !in nodes[..n] && (nodes[n].key == k ==> k in cache && cache[k] == nodes[n])
            && (nodes[n].key == k <==> Find(ItemsOf(nodes), k) == Some(n))
            && (nodes[n].key != k ==> Find(ItemsOf(nodes)[..n], k) == Find(ItemsOf(nodes), k))
  {
    hide ItemsOf;
    FindsNode(nodes, cache, k);
    var n := |nodes| - 1;
    if nodes[n].key == k {
      FindIs(ItemsOf(nodes), k, n);
    }
  }

  lemma DropLast<T>(s: seq<T>)
    requires s != []
    ensures Drop(s, |s| - 1) == s[..|s| - 1]
  {
  }

  lemma HasKey<K, V>(nodes: seq<Node<K, V>>, cache: map<K, Node<K, V>>, i: nat)
    requires Indexed(nodes, cache) && i < |nodes|
    ensures nodes[i].key in cache
  {
  }

  /** The key is looked up in the map where the sequence would find it. */
  lemma {:induction false} FindsNode<K, V>(nodes: seq<Node<K, V>>, cache: map<K, Node<K, V>>, k: K)
    requires Distinct(nodes) && Indexed(nodes, cache)
    ensures Unique(ItemsOf(nodes))
    ensures k in cache <==> Find(ItemsOf(nodes), k).Some?
    ensures k in cache ==> cache[k] in nodes && cache[k].key == k
  {
    hide Find;
    var items := ItemsOf(nodes);
    forall i, j | 0 <= i < j < |nodes|
      ensures items[i].0 != items[j].0
    {
      assert nodes[i] != nodes[j];
    }
    if k in cache {
      var i :| 0 <= i < |nodes| && nodes[i] == cache[k];
      assert items[i].0 == k;
    }
  }

  lemma {:induction false} RaiseNode<K, V>(nodes: seq<Node<K, V>>, cache: map<K, Node<K, V>>, p: nat)
    requires Indexed(nodes, cache) && p < |nodes|
    ensures Indexed(Raise(nodes, p), cache)
    ensures ItemsOf(Raise(nodes, p)) == Raise(ItemsOf(nodes), p)
  {
    hide ItemsOf, Raise;
    var r := Raise(nodes, p);
    RaiseItems(nodes, p);
    forall i | 0 <= i < |r|
      ensures r[i].key in cache && cache[r[i].key] == r[i]
    {
      var j := if i == 0 then p else if i <= p then i - 1 else i;
      assert r[i] == nodes[j];
    }
    forall k | k in cache
      ensures cache[k] in r && cache[k].key == k
    {
      var i :| 0 <= i < |nodes| && nodes[i] == cache[k];
      assert r[if i == p then 0 else if i < p then i + 1 else i] == nodes[i];
    }
  }

  lemma RaiseItems<K, V>(nodes: seq<Node<K, V>>, p: nat)
    requires p < |nodes|
    ensures ItemsOf(Raise(nodes, p)) == Raise(ItemsOf(nodes), p)
  {
    hide ItemsOf, Raise;
    var a, b := ItemsOf(Raise(nodes, p)), Raise(ItemsOf(nodes), p);
    forall i | 0 <= i < |a|
      ensures a[i] == b[i]
    {
      assert Raise(nodes, p)[i] == nodes[if i == 0 then p else if i <= p then i - 1 else i];
    }
  }

  lemma {:induction false} DropNode<K, V>(nodes: seq<Node<K, V>>, cache: map<K, Node<K, V>>, p: nat)
    requires Distinct(nodes) && Indexed(nodes, cache) && p < |nodes|
    ensures Indexed(Drop(nodes, p), cache - {nodes[p].key})
    ensures ItemsOf(Drop(nodes, p)) == Drop(ItemsOf(nodes), p)
  {
    hide ItemsOf, Drop, Distinct;
    DropItems(nodes, p);
    RemoveKey(cache, nodes[p].key);
    DropKeeps(nodes, cache, p);
    DropFinds(nodes, cache, p);
  }

  lemma {:induction false} DropKeeps<K, V>(nodes: seq<Node<K, V>>, cache: map<K, Node<K, V>>, p: nat)
    requires Distinct(nodes) && Indexed(nodes, cache) && p < |nodes|
    ensures forall i | 0 <= i < |nodes| - 1 ::
              var n := Drop(nodes, p)[i]; n.key in cache && n.key != nodes[p].key && cache[n.key] == n
  {
    hide Drop;
    DropHas(nodes, p);
    var r := Drop(nodes, p);
    forall i | 0 <= i < |r|
      ensures r[i].key in cache && r[i].key != nodes[p].key && cache[r[i].key] == r[i]
    {
      assert cache[nodes[if i < p then i else i + 1].key] == nodes[if i < p then i else i + 1];
    }
  }

  lemma {:induction false} DropFinds<K, V>(nodes: seq<Node<K, V>>, cache: map<K, Node<K, V>>, p: nat)
    requires Distinct(nodes) && Indexed(nodes, cache) && p < |nodes|
    ensures forall k | k in cache && k != nodes[p].key :: cache[k] in Drop(nodes, p) && cache[k].key == k
  {
    hide Drop;
    DropHas(nodes, p);
    forall k | k in cache && k != nodes[p].key
      ensures cache[k] in Drop(nodes, p) && cache[k].key == k
    {
      assert cache[k] != nodes[p];
    }
  }

  lemma {:induction false} PushNode<K, V>(nodes: seq<Node<K, V>>, cache: map<K, Node<K, V>>, node: Node<K, V>)
    requires Indexed(nodes, cache) && node !in nodes && node.key !in cache
    ensures Indexed([node] + nodes, cache[node.key := node])
    ensures ItemsOf([node] + nodes) == [(node.key, node.value)] + ItemsOf(nodes)
  {
    hide ItemsOf;
    var r, cache' := [node] + nodes, cache[node.key := node];
    PushItems(nodes, node);
    assert cache'.Keys == cache.Keys + {node.key};
    forall i | 0 <= i < |r|
      ensures r[i].key in cache' && cache'[r[i].key] == r[i]
    {
      assert i > 0 ==> r[i] == nodes[i - 1];
    }
    forall k | k in cache'
      ensures cache'[k] in r && cache'[k].key == k
    {
      assert k != node.key ==> cache[k] in nodes;
    }
  }

  lemma PushItems<K, V>(nodes: seq<Node<K, V>>, node: Node<K, V>)
    ensures ItemsOf([node] + nodes) == [(node.key, node.value)] + ItemsOf(nodes)
  {
    hide ItemsOf;
    var r := [node] + nodes;
    forall i | 0 <= i < |r|
      ensures ItemsOf(r)[i] == ([(node.key, node.value)] + ItemsOf(nodes))[i]
    {
      assert i > 0 ==> r[i] == nodes[i - 1];
    }
  }

  lemma RemoveKey<K, V>(m: map<K, V>, k: K)
    requires k in m
    ensures |m - {k}| == |m| - 1
  {
    assert m.Keys == (m - {k}).Keys + {k};
  }

  lemma DropHas<K, V>(nodes: seq<Node<K, V>>, p: nat)
    requires Distinct(nodes) && p < |nodes|
    ensures forall i | 0 <= i < |nodes| - 1 :: Drop(nodes, p)[i] == nodes[if i < p then i else i + 1]
    ensures forall n | n in nodes && n != nodes[p] :: n in Drop(nodes, p)
  {
    var r := Drop(nodes, p);
    forall n | n in nodes && n != nodes[p]
      ensures n in r
    {
      var i :| 0 <= i < |nodes| && nodes[i] == n;
      assert r[if i < p then i else i - 1] == n;
    }
  }

  lemma DropItems<K, V>(nodes: seq<Node<K, V>>, p: nat)
    requires p < |nodes|
    ensures ItemsOf(Drop(nodes, p)) == Drop(ItemsOf(nodes), p)
  {
    hide ItemsOf;
    var a, b := ItemsOf(Drop(nodes, p)), Drop(ItemsOf(nodes), p);
    forall i | 0 <= i < |a|
      ensures a[i] == b[i]
    {
      assert Drop(nodes, p)[i] == nodes[if i < p then i else i + 1];
    }
  }

  ghost function ItemsOf<K, V>(nodes: seq<Node<K, V>>): (r: seq<(K, V)>)
    reads nodes`key, nodes`value
    ensures |r| == |nodes|
    ensures forall i | 0 <= i < |nodes| :: r[i] == (nodes[i].key, nodes[i].value)
  {
    if nodes == [] then []
    else ItemsOf(nodes[..|nodes| - 1]) + [(nodes[|nodes| - 1].key, nodes[|nodes| - 1].value)]
  }
}
