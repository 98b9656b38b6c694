/**
 The index as the source keeps it: linked nodes changed in place.

 `Tree` reads a node back as a value of Trie.Node.  Every method is proved to
 leave the value that the corresponding function of Trie and Journal computes,
 and to append exactly its records to the log.
 */
module Index {
  import opened Entries
  import opened Trie
  import J = Journal

  class TrieNode {
    var leaf: bool
    var bucket: seq<Entry>
    var left: TrieNode?
    var right: TrieNode?
    ghost var Repr: set<TrieNode>

    ghost predicate Valid()
      reads this, Repr
      ensures Valid() ==> this in Repr
      decreases Repr
    {
      && this in Repr
      && (!leaf ==>
            && left != null && right != null
            && left in Repr && right in Repr
            && left.Repr <= Repr && right.Repr <= Repr
            && this !in left.Repr && this !in right.Repr
            && left.Repr !! right.Repr
            && left.Valid() && right.Valid())
    }

    ghost function Tree(): Node
      requires Valid()
      reads this, Repr
      decreases Repr
    {
      if leaf then Leaf(bucket) else Branch(left.Tree(), right.Tree())
    }

    constructor ()
      ensures Valid() && fresh(Repr) && Tree() == Leaf([])
    {
      leaf, bucket, left, right := true, [], null, null;
      Repr := {this};
    }
  }

  /** The bucket scan of every walk: the first entry with the hash. */
  method Scan(b: seq<Entry>, h: Hash) returns (i: nat)
    ensures i == Position(b, h)
  {
    i := 0;
    while i < |b|
      invariant i <= |b|
      invariant Position(b, h) == i + Position(b[i..], h)
    {
      if b[i].hash == h {
        return;
      }
      i := i + 1;
    }
  }

  class Index {
    var root: TrieNode
    const bucketSize: nat
    var rebuilding: bool
    var log: seq<Record>

    ghost predicate Valid()
      reads this, root, root.Repr
    {
      root.Valid() && InBounds(root.Tree(), 0)
    }

    constructor (bucketSize: nat)
      ensures Valid() && fresh(root.Repr)
      ensures root.Tree() == Leaf([]) && log == [] && !rebuilding && this.bucketSize == bucketSize
    {
      this.bucketSize := bucketSize;
      root := new TrieNode();
      rebuilding, log := false, [];
    }

    method AddToNode(e: Entry, node: TrieNode, d: nat)
      requires node.Valid()
      requires Add(node.Tree(), e, d, bucketSize, rebuilding).Some?
      modifies `log, node.Repr
      ensures node.Valid() && fresh(node.Repr - old(node.Repr))
      ensures var s := Add(old(node.Tree()), e, d, bucketSize, rebuilding).value;
              node.Tree() == s.node && log == old(log) + s.log
      decreases BITS - d, if node.leaf then 4 else 2
    {
      hide Bit, Position, Hit, AddAll;
      if !node.leaf {
        AddToBranch(e, node, d);
      } else {
        var i := Scan(node.bucket, e.hash);
        if i < |node.bucket| {
          if !rebuilding {
            log := log + [Increment(node.bucket[i])];
            node.bucket := node.bucket[i := Hit(node.bucket[i])];
          }
        } else if |node.bucket| < bucketSize {
          if !rebuilding {
            log := log + [Addition(e)];
          }
          node.bucket := node.bucket + [e];
        } else {
          SplitNode(node, d);
          AddToBranch(e, node, d);
        }
      }
    }

    method AddToBranch(e: Entry, node: TrieNode, d: nat)
      requires node.Valid() && !node.leaf
      requires Add(node.Tree(), e, d, bucketSize, rebuilding).Some?
      modifies `log, node.Repr
      ensures node.Valid() && fresh(node.Repr - old(node.Repr)) && !node.leaf
      ensures var s := Add(old(node.Tree()), e, d, bucketSize, rebuilding).value;
              node.Tree() == s.node && log == old(log) + s.log
      decreases BITS - d, 1
    {
      if Bit(e.hash, d + 1) {
        AddRight(e, node, d);
      } else {
        AddLeft(e, node, d);
      }
    }

    method AddRight(e: Entry, node: TrieNode, d: nat)
      requires node.Valid() && !node.leaf && d + 1 < BITS && Bit(e.hash, d + 1)
      requires Add(node.Tree(), e, d, bucketSize, rebuilding).Some?
      modifies `log, node.Repr
      ensures node.Valid() && fresh(node.Repr - old(node.Repr)) && !node.leaf
      ensures var s := Add(old(node.Tree()), e, d, bucketSize, rebuilding).value;
              node.Tree() == s.node && log == old(log) + s.log
      decreases BITS - d, 0
    {
      hide Bit, Position, Hit, AddAll;
      AddToNode(e, node.right, d + 1);
      node.Repr := node.Repr + node.right.Repr;
    }

    method AddLeft(e: Entry, node: TrieNode, d: nat)
      requires node.Valid() && !node.leaf && d + 1 < BITS && !Bit(e.hash, d + 1)
      requires Add(node.Tree(), e, d, bucketSize, rebuilding).Some?
      modifies `log, node.Repr
      ensures node.Valid() && fresh(node.Repr - old(node.Repr)) && !node.leaf
      ensures var s := Add(old(node.Tree()), e, d, bucketSize, rebuilding).value;
              node.Tree() == s.node && log == old(log) + s.log
      decreases BITS - d, 0
    {
      hide Bit, Position, Hit, AddAll;
      AddToNode(e, node.left, d + 1);
      node.Repr := node.Repr + node.left.Repr;
    }

    method SplitNode(node: TrieNode, d: nat)
      requires node.Valid() && node.leaf
      requires AddAll(Branch(Leaf([]), Leaf([])), node.bucket, d, bucketSize, rebuilding).Some?
      modifies `log, node.Repr
      ensures node.Valid() && fresh(node.Repr - old(node.Repr)) && !node.leaf
      ensures var s := AddAll(Branch(Leaf([]), Leaf([])), old(node.bucket), d, bucketSize, rebuilding).value;
              node.Tree() == s.node && log == old(log) + s.log
      decreases BITS - d, 3
    {
      hide Add;
      var b := MakeBranch(node);
      var i := 0;
      ghost var all := AddAll(node.Tree(), b, d, bucketSize, rebuilding).value;
      ghost var done: seq<Record> := [];
      assert b[0..] == b && all == Step(all.node, done + all.log);
      while i < |b|
        invariant i <= |b|
        invariant node.Valid() && fresh(node.Repr - old(node.Repr)) && !node.leaf
        invariant log == old(log) + done
        invariant var t := AddAll(node.Tree(), b[i..], d, bucketSize, rebuilding);
                  t.Some? && all == Step(t.value.node, done + t.value.log)
      {
        AddAllStep(node.Tree(), b, i, d, bucketSize, rebuilding, done, all);
        ghost var s := Add(node.Tree(), b[i], d, bucketSize, rebuilding).value;
        AddToBranch(b[i], node, d);
        done := done + s.log;
        i := i + 1;
      }
    }

    /** Turn a leaf into a branch over two empty leaves, handing out its bucket. */
    method MakeBranch(node: TrieNode) returns (b: seq<Entry>)
      requires node.Valid() && node.leaf
      modifies node
      ensures node.Valid() && fresh(node.Repr - old(node.Repr)) && !node.leaf
      ensures b == old(node.bucket) && node.Tree() == Branch(Leaf([]), Leaf([]))
    {
      var l := new TrieNode();
      var r := new TrieNode();
      node.left, node.right := l, r;
      b := node.bucket;
      node.leaf, node.bucket := false, [];
      node.Repr := node.Repr + l.Repr + r.Repr;
    }

    /** index_add */
    method AddEntry(e: Entry)
      requires Valid() && bucketSize >= 2 && Wf(root.Tree(), [], bucketSize)
      modifies `log, root.Repr
      ensures Valid() && root == old(root) && fresh(root.Repr - old(root.Repr))
      ensures Wf(root.Tree(), [], bucketSize)
      ensures var s := Add(old(root.Tree()), e, 0, bucketSize, rebuilding);
              s.Some? && root.Tree() == s.value.node && log == old(log) + s.value.log
      ensures rebuilding ==> log == old(log)
    {
      AddIsInsert(root.Tree(), [], bucketSize, e, rebuilding);
      AddToNode(e, root, 0);
      WfInBounds(root.Tree(), [], bucketSize);
    }

    /** index_find and index_peek: the walk down to the leaf of a hash. */
    method LeafOf(h: Hash) returns (node: TrieNode, i: nat)
      requires Valid()
      ensures node in root.Repr && node.Valid() && node.leaf && i == Position(node.bucket, h)
      ensures Find(root.Tree(), h, 0) == if i < |node.bucket| then Some(node.bucket[i]) else None
    {
      node := root;
      var d := 0;
      while !node.leaf
        invariant node in root.Repr && node.Valid() && node.Repr <= root.Repr
        invariant InBounds(node.Tree(), d)
        invariant Find(root.Tree(), h, 0) == Find(node.Tree(), h, d)
        decreases node.Repr
      {
        node := if Bit(h, d + 1) then node.right else node.left;
        d := d + 1;
      }
      i := Scan(node.bucket, h);
    }

    /** Change the entry of a hash below `node`, where it lies. */
    method UpdateNode(h: Hash, p: Patch, node: TrieNode, d: nat)
      requires node.Valid() && InBounds(node.Tree(), d)
      modifies node.Repr
      ensures node.Valid() && node.Repr == old(node.Repr)
      ensures node.Tree() == Update(old(node.Tree()), h, d, p)
      decreases node.Repr
    {
      if !node.leaf {
        if Bit(h, d + 1) {
          UpdateNode(h, p, node.right, d + 1);
        } else {
          UpdateNode(h, p, node.left, d + 1);
        }
      } else {
        var i := Scan(node.bucket, h);
        if i < |node.bucket| {
          node.bucket := node.bucket[i := Patched(node.bucket[i], p)];
        }
      }
    }

    method RemoveFromNode(h: Hash, node: TrieNode, d: nat) returns (found: bool)
      requires node.Valid() && InBounds(node.Tree(), d)
      modifies `log, node.Repr
      ensures node.Valid() && node.Repr == old(node.Repr)
      ensures node.Tree() == Remove(old(node.Tree()), h, d)
      ensures found <==> Find(old(node.Tree()), h, d).Some?
      ensures log == old(log) + if found && !rebuilding then [Removal(h)] else []
      decreases node.Repr
    {
      if !node.leaf {
        if Bit(h, d + 1) {
          found := RemoveFromNode(h, node.right, d + 1);
        } else {
          found := RemoveFromNode(h, node.left, d + 1);
        }
      } else {
        found := RemoveFromLeaf(h, node, d);
      }
    }

    method RemoveFromLeaf(h: Hash, node: TrieNode, ghost d: nat) returns (found: bool)
      requires node.Valid() && node.leaf
      modifies `log, node`bucket
      ensures node.Valid() && node.Tree() == Remove(old(node.Tree()), h, d)
      ensures found <==> Find(old(node.Tree()), h, d).Some?
      ensures log == old(log) + if found && !rebuilding then [Removal(h)] else []
    {
      var i := Scan(node.bucket, h);
      found := i < |node.bucket|;
      if found {
        if !rebuilding {
          log := log + [Removal(h)];
        }
        node.bucket := node.bucket[..i] + node.bucket[i + 1..];
      }
    }

    /** index_get: count a hit; the answer is the entry as it is then. */
    method GetEntry(h: Hash) returns (entry: Option<Entry>)
      requires Valid() && !rebuilding
      modifies `log, root.Repr
      ensures root == old(root) && root.Valid() && InBounds(root.Tree(), 0)
      ensures entry == Find(root.Tree(), h, 0)
      ensures var s := J.Apply(old(root.Tree()), J.GetOp(h), bucketSize).value;
              root.Tree() == s.node && log == old(log) + s.log
    {
      hide Update, Position, Find, InBounds;
      FindUpdated(root.Tree(), h, 0, CountHit);
      entry := None;
      var node, i := LeafOf(h);
      if i < |node.bucket| {
        log := log + [Increment(node.bucket[i])];
        entry := Some(Hit(node.bucket[i]));
        UpdateNode(h, CountHit, root, 0);
      }
    }

    /** index_remove */
    method RemoveEntry(h: Hash)
      requires Valid() && !rebuilding
      modifies `log, root.Repr
      ensures root == old(root) && root.Valid()
      ensures var s := J.Apply(old(root.Tree()), J.RemoveOp(h), bucketSize).value;
              root.Tree() == s.node && log == old(log) + s.log
    {
      hide Remove, Position, Find, InBounds;
      ghost var before := root.Tree();
      var found := RemoveFromNode(h, root, 0);
      if !found {
        RemoveAbsent(before, h, 0);
      }
    }

    /** Set the claims and pins of an entry. */
    method SetEntryMetadata(h: Hash, ephemeral: U16, pins: U32)
      requires Valid() && !rebuilding
      modifies `log, root.Repr
      ensures root == old(root) && root.Valid()
      ensures var s := J.Apply(old(root.Tree()), J.MetaOp(h, ephemeral, pins), bucketSize).value;
              root.Tree() == s.node && log == old(log) + s.log
    {
      hide Update, Position, Find, InBounds;
      var node, i := LeafOf(h);
      if i < |node.bucket| {
        var p := SetMetadata(ephemeral, pins);
        log := log + [Metadata(Patched(node.bucket[i], p))];
        UpdateNode(h, p, root, 0);
      }
    }

    /** One call of the index API, logged: exactly Journal.Apply. */
    method Perform(op: J.Op)
      requires Valid() && !rebuilding && J.Valid(root.Tree(), bucketSize)
      modifies `log, root.Repr
      ensures Valid() && root == old(root) && J.Valid(root.Tree(), bucketSize)
      ensures var s := J.Apply(old(root.Tree()), op, bucketSize);
              s.Some? && root.Tree() == s.value.node && log == old(log) + s.value.log
    {
      J.ApplyRefinesMap(root.Tree(), op, bucketSize);
      hide Add, Update, Remove, Find, Model, J.ApplyMap, J.OpLog;
      match op {
        case AddOp(e) => AddEntry(e);
        case GetOp(h) =>
          var _ := GetEntry(h);
        case RemoveOp(h) => RemoveEntry(h);
        case EjectOp(h, date) =>
          log := log + [Ejection(h, date)];
          UpdateNode(h, SetEjection(date), root, 0);
        case MetaOp(h, ephemeral, pins) => SetEntryMetadata(h, ephemeral, pins);
      }
      WfInBounds(root.Tree(), [], bucketSize);
    }

    /** The replay loop: every record in turn, without logging. */
    method Replay(records: seq<Record>)
      requires Valid() && J.Valid(root.Tree(), bucketSize)
      modifies this, root.Repr
      ensures Valid() && root == old(root) && log == old(log) && !rebuilding
      ensures J.Valid(old(root.Tree()), bucketSize)
      ensures root.Tree() == J.ReplayAll(old(root.Tree()), records, bucketSize)
    {
      rebuilding := true;
      var k := 0;
      while k < |records|
        invariant k <= |records|
        invariant Valid() && root == old(root) && log == old(log) && rebuilding
        invariant fresh(root.Repr - old(root.Repr))
        invariant root.Tree() == J.ReplayAll(old(root.Tree()), records[..k], bucketSize)
      {
        assert records[..k + 1][..k] == records[..k];
        ReplayOne(records[k]);
        k := k + 1;
      }
      assert records[..k] == records;
      rebuilding := false;
    }

    method ReplayOne(r: Record)
      requires Valid() && rebuilding && J.Valid(root.Tree(), bucketSize)
      modifies `log, root.Repr
      ensures Valid() && root == old(root) && log == old(log) && fresh(root.Repr - old(root.Repr))
      ensures J.Replayed(old(root.Tree()), r, bucketSize) == Some(root.Tree())
    {
      J.ReplayRefinesMap(root.Tree(), r, bucketSize);
      match r
      case Addition(e) =>
        AddEntry(e);
      case Increment(e) =>
        UpdateNode(e.hash, CountHit, root, 0);
        WfInBounds(root.Tree(), [], bucketSize);
      case Ejection(h, date) =>
        UpdateNode(h, SetEjection(date), root, 0);
        WfInBounds(root.Tree(), [], bucketSize);
      case Removal(h) =>
        var found := RemoveFromNode(h, root, 0);
        WfInBounds(root.Tree(), [], bucketSize);
      case Metadata(e) =>
        UpdateNode(e.hash, SetMetadata(e.ephemeralCount, e.pinCount), root, 0);
        WfInBounds(root.Tree(), [], bucketSize);
    }
  }
}
