/**
 The round robin of section ids: a doubly linked list whose first node is handed
 out and moved to the end.
 */
module Robin {
  import opened Entries
  import opened Lru

  type Id = nat

  /** The list after its first id was handed out. */
  function Rotated(ids: seq<Id>): (r: seq<Id>)
    ensures |r| == |ids|
  {
    if ids == [] then [] else ids[1..] + [ids[0]]
  }

  /** The first place an id occurs. */
  function Locate(ids: seq<Id>, id: Id): (r: Option<nat>)
    ensures r.Some? ==> r.value < |ids| && ids[r.value] == id && id !in ids[..r.value]
    ensures r.None? <==> id !in ids
  {
    if ids == [] then None
    else if ids[0] == id then Some(0)
    else match Locate(ids[1..], id)
      case None => None
      case Some(p) =>
        assert ids[..p + 1] == [ids[0]] + ids[1..][..p];
        Some(p + 1)
  }

  function Removed(ids: seq<Id>, id: Id): (r: seq<Id>)
  {
    match Locate(ids, id)
    case None => ids
    case Some(p) => Drop(ids, p)
  }

  /** A removal takes out the first occurrence, and changes nothing where there is none. */
  lemma {:induction false} RemovedExact(a: seq<Id>, id: Id, b: seq<Id>)
    requires id !in a
    ensures Removed(a + [id] + b, id) == a + b
    ensures id !in b ==> Removed(a + b, id) == a + b
  {
    var ids := a + [id] + b;
    assert ids[|a|] == id;
    assert forall k | 0 <= k < |a| :: ids[k] == a[k];
    assert Locate(ids, id) == Some(|a|);
    assert ids[..|a|] == a && ids[|a| + 1..] == b;
  }

  /** The ids handed out by n calls, and the list they leave. */
  function Visits(ids: seq<Id>, n: nat): (r: (seq<Id>, seq<Id>))
    requires ids != []
    ensures |r.0| == n && |r.1| == |ids|
  {
    if n == 0 then ([], ids)
    else
      var (out, rest) := Visits(ids, n - 1);
      (out + [rest[0]], Rotated(rest))
  }

  /** As many calls as there are sections visit each one once, in order, and leave
      the list as it was. */
  lemma {:induction false} FullRound(ids: seq<Id>)
    requires ids != []
    ensures Visits(ids, |ids|) == (ids, ids)
  {
    PartRound(ids, |ids|);
    assert ids[..|ids|] == ids && ids[|ids|..] + ids[..|ids|] == ids;
  }

  lemma {:induction false} PartRound(ids: seq<Id>, n: nat)
    requires ids != [] && n <= |ids|
    ensures Visits(ids, n) == (ids[..n], ids[n..] + ids[..n])
  {
    if n == 0 {
      assert ids[0..] + ids[..0] == ids;
    } else {
      PartRound(ids, n - 1);
      var rest := ids[n - 1..] + ids[..n - 1];
      assert rest[0] == ids[n - 1] && ids[..n - 1] + [rest[0]] == ids[..n];
      assert Rotated(rest) == ids[n..] + ids[..n];
    }
  }

  class Robin {
    var first: Node?<Id, ()>
    var last: Node?<Id, ()>
    var size: nat
    ghost var nodes: seq<Node<Id, ()>>

    ghost predicate Valid()
      reads this, nodes`previous, nodes`next
    {
      Linked(nodes, first, last) && size == |nodes|
    }

    ghost function Ids(): (r: seq<Id>)
      reads this, nodes`key
      ensures |r| == |nodes|
    {
      KeysOf(nodes)
    }

    constructor ()
      ensures Valid() && Ids() == []
    {
      first, last := null, null;
      size := 0;
      nodes := [];
    }

    /** Append an id. */
    method Add(id: Id)
      requires Valid()
      modifies this, nodes`next
      ensures Valid() && Ids() == old(Ids()) + [id]
      ensures nodes[..|old(nodes)|] == old(nodes) && fresh(nodes[|nodes| - 1])
    {
      var node := new Node(id, ());
      if last == null && first == null {
        first := node;
        last := node;
      } else {
        node.previous := last;
        last.next := node;
        last := node;
      }
      size := size + 1;
      nodes := nodes + [node];
    }

    /** Put an id in front. */
    method Unshift(id: Id)
      requires Valid()
      modifies this, nodes`previous
      ensures Valid() && Ids() == [id] + old(Ids())
      ensures nodes[1..] == old(nodes) && fresh(nodes[0])
    {
      var node := new Node(id, ());
      node.next := first;
      if first != null {
        first.previous := node;
      } else {
        last := node;
      }
      first := node;
      size := size + 1;
      nodes := [node] + nodes;
    }

    /** Hand out the first id and move it to the end. */
    method Next() returns (id: Option<Id>)
      requires Valid()
      modifies this`first, this`last, this`nodes, nodes`previous, nodes`next
      ensures Valid() && Ids() == Rotated(old(Ids()))
      ensures id == if old(Ids()) == [] then None else Some(old(Ids())[0])
    {
      if last == null && first == null {
        return None;
      }
      var node := first;
      if last == node {
        return Some(node.key);
      }
      assert node.next == After(nodes, 0);
      first := node.next;
      if node.next != null {
        node.next.previous := null;
        node.next := null;
      }
      node.previous := last;
      last.next := node;
      last := node;
      nodes := nodes[1..] + [node];
      id := Some(node.key);
    }

    method Contains(id: Id) returns (found: bool)
      requires Valid()
      ensures found <==> id in Ids()
    {
      if last == null && first == null {
        return false;
      }
      var current := first;
      ghost var i := 0;
      while current != null
        invariant 0 <= i <= |nodes|
        invariant current == if i < |nodes| then nodes[i] else null
        invariant id !in Ids()[..i]
        decreases |nodes| - i
      {
        if current.key == id {
          assert Ids()[i] == id;
          return true;
        }
        assert current.next == After(nodes, i);
        current := current.next;
        i := i + 1;
      }
      assert Ids()[..i] == Ids();
      found := false;
    }

    /** Remove the first occurrence of an id. */
    method Remove(id: Id)
      requires Valid()
      modifies this, nodes`previous, nodes`next
      ensures Valid() && Ids() == Removed(old(Ids()), id)
    {
      if last == null && first == null {
        return;
      }
      var current := first;
      ghost var i := 0;
      while current != null
        invariant 0 <= i <= |nodes| && nodes == old(nodes) && Valid()
        invariant current == if i < |nodes| then nodes[i] else null
        invariant id !in Ids()[..i]
        decreases |nodes| - i
      {
        if current.key == id {
          Detach(current, i);
          return;
        }
        assert current.next == After(nodes, i);
        current := current.next;
        i := i + 1;
      }
      assert Ids()[..i] == Ids();
    }

    method Detach(current: Node<Id, ()>, ghost p: nat)
      requires Valid() && p < |nodes| && nodes[p] == current
      modifies this, nodes`previous, nodes`next
      ensures Valid() && Ids() == Drop(old(Ids()), p)
    {
      hide KeysOf, Linked;
      DropKeys(nodes, p);
      Unlink(current, p);
      size := size - 1;
    }

    method Unlink(current: Node<Id, ()>, ghost p: nat)
      requires Linked(nodes, first, last) && p < |nodes| && nodes[p] == current
      modifies this`first, this`last, this`nodes, nodes`previous, nodes`next
      ensures Linked(nodes, first, last) && nodes == Drop(old(nodes), p)
    {
      assert current.previous == Before(nodes, p);
      if current.previous == null {
        UnlinkFirst(current);
      } else {
        UnlinkLater(current, p);
      }
    }

    method UnlinkFirst(current: Node<Id, ()>)
      requires Linked(nodes, first, last) && nodes != [] && nodes[0] == current
      modifies this`first, this`last, this`nodes, nodes`previous
      ensures Linked(nodes, first, last) && nodes == Drop(old(nodes), 0)
    {
      assert current.previous == Before(nodes, 0) && current.next == After(nodes, 0);
      if last == current {
        last := current.previous;
      }
      first := current.next;
      if current.next != null {
        current.next.previous := current.previous;
      }
      nodes := Drop(nodes, 0);
    }

    method UnlinkLater(current: Node<Id, ()>, ghost p: nat)
      requires Linked(nodes, first, last) && 0 < p < |nodes| && nodes[p] == current
      modifies this`last, this`nodes, nodes`previous, nodes`next
      ensures Linked(nodes, first, last) && nodes == Drop(old(nodes), p)
    {
      assert current.previous == Before(nodes, p) && current.next == After(nodes, p);
      if last == current {
        last := current.previous;
      }
      current.previous.next := current.next;
      if current.next != null {
        current.next.previous := current.previous;
      }
      nodes := Drop(nodes, p);
    }
  }

  lemma DropKeys(nodes: seq<Node<Id, ()>>, p: nat)
    requires p < |nodes|
    ensures KeysOf(Drop(nodes, p)) == Drop(KeysOf(nodes), p)
  {
    hide KeysOf;
    var a, b := KeysOf(Drop(nodes, p)), Drop(KeysOf(nodes), p);
    forall i | 0 <= i < |a|
      ensures a[i] == b[i]
    {
      assert Drop(nodes, p)[i] == nodes[if i < p then i else i + 1];
    }
  }

  ghost function KeysOf(nodes: seq<Node<Id, ()>>): (r: seq<Id>)
    reads nodes`key
    ensures |r| == |nodes|
    ensures forall i | 0 <= i < |nodes| :: r[i] == nodes[i].key
  {
    if nodes == [] then [] else KeysOf(nodes[..|nodes| - 1]) + [nodes[|nodes| - 1].key]
  }
}
