/**
 The block index: a bucketed binary trie over 32-byte hashes.

 A leaf holds a bucket of entries; a full leaf splits into a branch on the next
 bit of the hash.  The walk at depth d reads bit d + 1, so bit 0 is never read.
 Every insertion, also the re-insertions a split makes, is written to the log.

 `Add`, `Update`, `Remove` and `Find` describe the index as a value; the class
 Index does the same work in place on linked nodes.
 */
module Trie {
  import opened Entries
  import F = Fibonacci

  datatype Record =
    | Addition(entry: Entry)
    | Increment(entry: Entry)
    | Ejection(hash: Hash, date: U64)
    | Removal(hash: Hash)
    | Metadata(entry: Entry)

  datatype Node = Leaf(bucket: seq<Entry>) | Branch(left: Node, right: Node)

  datatype Step = Step(node: Node, log: seq<Record>)

  const BITS: nat := 256

  /** The first position of a hash in a bucket, or the bucket's length. */
  function Position(b: seq<Entry>, h: Hash): (i: nat)
    ensures i <= |b|
    ensures i < |b| ==> b[i].hash == h
    ensures forall k | 0 <= k < i :: b[k].hash != h
  {
    if b == [] || b[0].hash == h then 0 else 1 + Position(b[1..], h)
  }

  function Hit(e: Entry): Entry
  {
    e.(counter := F.Incremented(e.counter))
  }

  /** Insert an entry.  None stands for a read past the last bit of the hash. */
  function Add(n: Node, e: Entry, d: nat, size: nat, rebuilding: bool): (r: Option<Step>)
    ensures r.Some? && n.Branch? ==> r.value.node.Branch?
    decreases BITS - d, if n.Leaf? then 2 else 0, 0
  {
    match n
    case Branch(left, right) =>
      if d + 1 >= BITS then None
      else if Bit(e.hash, d + 1) then
        var s :- Add(right, e, d + 1, size, rebuilding);
        Some(Step(Branch(left, s.node), s.log))
      else
        var s :- Add(left, e, d + 1, size, rebuilding);
        Some(Step(Branch(s.node, right), s.log))
    case Leaf(b) =>
      var i := Position(b, e.hash);
      if i < |b| then
        Some(if rebuilding then Step(n, []) else Step(Leaf(b[i := Hit(b[i])]), [Increment(b[i])]))
      else if |b| < size then
        Some(Step(Leaf(b + [e]), if rebuilding then [] else [Addition(e)]))
      else
        var s :- AddAll(Branch(Leaf([]), Leaf([])), b, d, size, rebuilding);
        var t :- Add(s.node, e, d, size, rebuilding);
        Some(Step(t.node, s.log + t.log))
  }

  /** A split re-inserts the whole bucket, in order, below the new branch. */
  function AddAll(n: Node, b: seq<Entry>, d: nat, size: nat, rebuilding: bool): (r: Option<Step>)
    requires n.Branch?
    ensures r.Some? ==> r.value.node.Branch?
    decreases BITS - d, 1, |b|
  {
    if b == [] then Some(Step(n, []))
    else
      var s :- Add(n, b[0], d, size, rebuilding);
      var t :- AddAll(s.node, b[1..], d, size, rebuilding);
      Some(Step(t.node, s.log + t.log))
  }

  /** One step of the re-insertion loop, with the log written so far. */
  lemma {:induction false} AddAllStep(n: Node, b: seq<Entry>, i: nat, d: nat, size: nat, rebuilding: bool,
                                      done: seq<Record>, all: Step)
    requires n.Branch? && i < |b|
    requires var t := AddAll(n, b[i..], d, size, rebuilding); t.Some? && all == Step(t.value.node, done + t.value.log)
    ensures var s := Add(n, b[i], d, size, rebuilding);
            && s.Some?
            && var t := AddAll(s.value.node, b[i + 1..], d, size, rebuilding);
               t.Some? && all == Step(t.value.node, done + s.value.log + t.value.log)
  {
    assert b[i..][0] == b[i] && b[i..][1..] == b[i + 1..];
  }

  /** No branch lies so deep that it would read past the hash. */
  predicate InBounds(n: Node, d: nat)
  {
    n.Branch? ==> d + 1 < BITS && InBounds(n.left, d + 1) && InBounds(n.right, d + 1)
  }

  function Find(n: Node, h: Hash, d: nat): Option<Entry>
    requires InBounds(n, d)
    decreases n
  {
    match n
    case Branch(left, right) =>
      if Bit(h, d + 1) then Find(right, h, d + 1) else Find(left, h, d + 1)
    case Leaf(b) =>
      var i := Position(b, h);
      if i < |b| then Some(b[i]) else None
  }

  /** The three ways an entry changes where it lies. */
  datatype Patch =
    | CountHit
    | SetEjection(date: U64)
    | SetMetadata(ephemeralCount: U16, pinCount: U32)

  function Patched(e: Entry, p: Patch): Entry
  {
    match p
    case CountHit => Hit(e)
    case SetEjection(date) => e.(ejectionDate := date)
    case SetMetadata(ephemeral, pins) => e.(ephemeralCount := ephemeral, pinCount := pins)
  }

  /** Rewrite the entry of a hash where it lies; nothing happens if it is absent. */
  function Update(n: Node, h: Hash, d: nat, p: Patch): Node
    requires InBounds(n, d)
    decreases n
  {
    match n
    case Branch(left, right) =>
      if Bit(h, d + 1) then Branch(left, Update(right, h, d + 1, p))
      else Branch(Update(left, h, d + 1, p), right)
    case Leaf(b) =>
      var i := Position(b, h);
      if i < |b| then Leaf(b[i := Patched(b[i], p)]) else n
  }

  /** A changed entry is found changed. */
  lemma {:induction false} FindUpdated(n: Node, h: Hash, d: nat, p: Patch)
    requires InBounds(n, d)
    ensures InBounds(Update(n, h, d, p), d)
    ensures Find(Update(n, h, d, p), h, d) ==
            match Find(n, h, d) case None => None case Some(e) => Some(Patched(e, p))
    decreases n
  {
    match n
    case Branch(left, right) =>
      FindUpdated(left, h, d + 1, p);
      FindUpdated(right, h, d + 1, p);
    case Leaf(b) =>
      var i := Position(b, h);
      if i < |b| {
        PositionIs(b[i := Patched(b[i], p)], h, i);
      }
  }

  lemma PositionIs(b: seq<Entry>, h: Hash, i: nat)
    requires i < |b| && b[i].hash == h && forall k | 0 <= k < i :: b[k].hash != h
    ensures Position(b, h) == i
  {
    hide Position;
    var j := Position(b, h);
    assert j < i || j > i || j == i;
  }

  function Remove(n: Node, h: Hash, d: nat): Node
    requires InBounds(n, d)
    decreases n
  {
    match n
    case Branch(left, right) =>
      if Bit(h, d + 1) then Branch(left, Remove(right, h, d + 1))
      else Branch(Remove(left, h, d + 1), right)
    case Leaf(b) =>
      var i := Position(b, h);
      if i < |b| then Leaf(b[..i] + b[i + 1..]) else n
  }

  function ToArray(n: Node): seq<Entry>
  {
    match n
    case Branch(left, right) => ToArray(left) + ToArray(right)
    case Leaf(b) => b
  }

  function Count(n: Node): nat
  {
    match n
    case Branch(left, right) => Count(left) + Count(right)
    case Leaf(b) => |b|
  }

  // ---- the finite map an index stands for ----

  type Map = map<Hash, Entry>

  function MapOf(b: seq<Entry>): Map
  {
    if b == [] then map[] else MapOf(b[1..])[b[0].hash := b[0]]
  }

  /** A bucket as a map: the first entry of a hash counts. */
  lemma {:induction false} Lookup(b: seq<Entry>, h: Hash)
    ensures h in MapOf(b) <==> Position(b, h) < |b|
    ensures h in MapOf(b) ==> MapOf(b)[h] == b[Position(b, h)]
  {
    if b != [] {
      Lookup(b[1..], h);
    }
  }

  function Model(n: Node): Map
  {
    match n
    case Branch(left, right) => Model(left) + Model(right)
    case Leaf(b) => MapOf(b)
  }

  /** The hash agrees with the path on bits 1..|path|. */
  predicate Fits(h: Hash, path: seq<bool>)
    requires |path| < BITS
  {
    forall k | 0 <= k < |path| :: Bit(h, k + 1) == path[k]
  }

  predicate AllFit(b: seq<Entry>, path: seq<bool>)
    requires |path| < BITS
  {
    forall i | 0 <= i < |b| :: Fits(b[i].hash, path)
  }

  predicate Distinct(b: seq<Entry>)
  {
    forall i, j | 0 <= i < j < |b| :: b[i].hash != b[j].hash
  }

  /** A subtree that hangs under `path`: every bucket is within its size, holds
      no hash twice and only hashes that fit the path. */
  predicate Wf(n: Node, path: seq<bool>, size: nat)
    requires |path| < BITS
    decreases n
  {
    match n
    case Branch(left, right) =>
      && |path| + 1 < BITS
      && Wf(left, path + [false], size)
      && Wf(right, path + [true], size)
    case Leaf(b) =>
      && |b| <= size
      && Distinct(b)
      && AllFit(b, path)
  }

  lemma {:induction false} WfInBounds(n: Node, path: seq<bool>, size: nat)
    requires |path| < BITS && Wf(n, path, size)
    ensures InBounds(n, |path|)
    decreases n
  {
    if n.Branch? {
      WfInBounds(n.left, path + [false], size);
      WfInBounds(n.right, path + [true], size);
    }
  }

  lemma {:induction false} KeysFit(n: Node, path: seq<bool>, size: nat)
    requires |path| < BITS && Wf(n, path, size)
    ensures forall h | h in Model(n) :: Fits(h, path) && Model(n)[h].hash == h
    decreases n
  {
    match n
    case Branch(left, right) =>
      KeysFit(left, path + [false], size);
      KeysFit(right, path + [true], size);
      forall h | h in Model(n)
        ensures Fits(h, path)
      {
        var p := path + [h in Model(right)];
        assert Fits(h, p);
        assert forall k | 0 <= k < |path| :: p[k] == path[k];
      }
    case Leaf(b) =>
      forall h | h in Model(n)
        ensures Fits(h, path) && Model(n)[h].hash == h
      {
        Lookup(b, h);
      }
  }

  /** A hash can only be in the half of a branch that its bit points to. */
  lemma {:induction false} OtherHalf(n: Node, path: seq<bool>, size: nat, h: Hash)
    requires |path| < BITS && Wf(n, path, size) && n.Branch?
    ensures h !in if Bit(h, |path| + 1) then Model(n.left) else Model(n.right)
  {
    var b := !Bit(h, |path| + 1);
    KeysFit(if b then n.right else n.left, path + [b], size);
    assert (path + [b])[|path|] == b;
  }

  lemma {:induction false} HalvesDisjoint(n: Node, path: seq<bool>, size: nat)
    requires |path| < BITS && Wf(n, path, size) && n.Branch?
    ensures Model(n.left).Keys !! Model(n.right).Keys
  {
    forall h | h in Model(n.left).Keys
      ensures h !in Model(n.right).Keys
    {
      OtherHalf(n, path, size, h);
    }
  }

  lemma FitsChild(h: Hash, path: seq<bool>)
    requires |path| + 1 < BITS && Fits(h, path)
    ensures Fits(h, path + [Bit(h, |path| + 1)])
  {
  }

  /** Looking a hash up is map lookup. */
  lemma {:induction false} FindIsLookup(n: Node, path: seq<bool>, size: nat, h: Hash)
    requires |path| < BITS && Wf(n, path, size) && Fits(h, path)
    ensures InBounds(n, |path|)
    ensures Find(n, h, |path|) == if h in Model(n) then Some(Model(n)[h]) else None
    decreases n
  {
    WfInBounds(n, path, size);
    match n
    case Branch(left, right) =>
      OtherHalf(n, path, size, h);
      FitsChild(h, path);
      if Bit(h, |path| + 1) {
        FindIsLookup(right, path + [true], size, h);
      } else {
        FindIsLookup(left, path + [false], size, h);
      }
    case Leaf(b) =>
      Lookup(b, h);
  }
  lemma {:induction false} BucketReplace(b: seq<Entry>, i: nat, v: Entry)
    requires Distinct(b) && i < |b| && v.hash == b[i].hash
    ensures Distinct(b[i := v])
    ensures MapOf(b[i := v]) == MapOf(b)[v.hash := v]
    decreases |b|
  {
    if i > 0 {
      BucketReplace(b[1..], i - 1, v);
      assert b[i := v][1..] == b[1..][i - 1 := v];
    }
  }

  lemma {:induction false} BucketPush(b: seq<Entry>, e: Entry)
    requires Distinct(b) && Position(b, e.hash) == |b|
    ensures Distinct(b + [e])
    ensures MapOf(b + [e]) == MapOf(b)[e.hash := e]
    decreases |b|
  {
    if b != [] {
      BucketPush(b[1..], e);
      assert (b + [e])[1..] == b[1..] + [e];
    }
  }

  lemma MapPush(e: Entry, rest: seq<Entry>)
    ensures MapOf([e] + rest) == MapOf(rest)[e.hash := e]
  {
    assert ([e] + rest)[1..] == rest;
  }

  lemma FirstAlone(b: seq<Entry>)
    requires Distinct(b) && b != []
    ensures b[0].hash !in MapOf(b[1..]) && Distinct(b[1..]) && b == [b[0]] + b[1..]
    ensures forall i | 0 < i < |b| :: b[i].hash != b[0].hash
  {
    Lookup(b[1..], b[0].hash);
  }

  lemma {:induction false} BucketDrop(b: seq<Entry>, i: nat)
    requires Distinct(b) && i < |b|
    ensures MapOf(b[..i] + b[i + 1..]) == MapOf(b) - {b[i].hash}
    decreases |b|
  {
    hide MapOf, Position;
    var e, rest := b[0], b[1..];
    FirstAlone(b);
    MapPush(e, rest);
    UpdateThenRemove(MapOf(rest), e, b[i].hash);
    if i == 0 {
      assert b[..i] + b[i + 1..] == rest;
    } else {
      BucketDrop(rest, i - 1);
      assert b[..i] + b[i + 1..] == [e] + (rest[..i - 1] + rest[i..]);
      MapPush(e, rest[..i - 1] + rest[i..]);
    }
  }

  lemma UpdateThenRemove(m: Map, e: Entry, h: Hash)
    ensures h == e.hash && h !in m ==> m[e.hash := e] - {h} == m
    ensures h != e.hash ==> m[e.hash := e] - {h} == (m - {h})[e.hash := e]
  {
  }

  lemma UnionUpdate(l: Map, r: Map, h: Hash, e: Entry)
    ensures l + r[h := e] == (l + r)[h := e]
    ensures h !in r ==> l[h := e] + r == (l + r)[h := e]
  {
  }

  lemma UnionRemove(l: Map, r: Map, h: Hash)
    ensures h !in l ==> l + (r - {h}) == (l + r) - {h}
    ensures h !in r ==> (l - {h}) + r == (l + r) - {h}
  {
  }

  /** Rewriting an entry in place is map update. */
  lemma {:induction false} UpdateIsMapUpdate(n: Node, path: seq<bool>, size: nat, h: Hash, p: Patch)
    requires |path| < BITS && Wf(n, path, size) && Fits(h, path)
    ensures InBounds(n, |path|)
    ensures Wf(Update(n, h, |path|, p), path, size)
    ensures Model(Update(n, h, |path|, p)) == if h in Model(n) then Model(n)[h := Patched(Model(n)[h], p)] else Model(n)
    decreases n
  {
    hide Bit;
    WfInBounds(n, path, size);
    match n
    case Branch(left, right) =>
      OtherHalf(n, path, size, h);
      FitsChild(h, path);
      if Bit(h, |path| + 1) {
        UpdateIsMapUpdate(right, path + [true], size, h, p);
        if h in Model(right) {
          UnionUpdate(Model(left), Model(right), h, Patched(Model(right)[h], p));
        }
      } else {
        UpdateIsMapUpdate(left, path + [false], size, h, p);
        if h in Model(left) {
          UnionUpdate(Model(left), Model(right), h, Patched(Model(left)[h], p));
        }
      }
    case Leaf(b) =>
      var i := Position(b, h);
      Lookup(b, h);
      if i < |b| {
        var v := Patched(b[i], p);
        BucketReplace(b, i, v);
      }
  }

  /** Removing a hash is map removal. */
  lemma {:induction false} RemoveIsMapRemove(n: Node, path: seq<bool>, size: nat, h: Hash)
    requires |path| < BITS && Wf(n, path, size) && Fits(h, path)
    ensures InBounds(n, |path|)
    ensures Wf(Remove(n, h, |path|), path, size)
    ensures Model(Remove(n, h, |path|)) == Model(n) - {h}
    decreases n
  {
    hide Bit;
    WfInBounds(n, path, size);
    match n
    case Branch(left, right) =>
      OtherHalf(n, path, size, h);
      FitsChild(h, path);
      UnionRemove(Model(left), Model(right), h);
      if Bit(h, |path| + 1) {
        RemoveIsMapRemove(right, path + [true], size, h);
      } else {
        RemoveIsMapRemove(left, path + [false], size, h);
      }
    case Leaf(b) =>
      RemoveFromLeaf(b, path, size, h);
  }

  lemma {:induction false} RemoveFromLeaf(b: seq<Entry>, path: seq<bool>, size: nat, h: Hash)
    requires |path| < BITS && Wf(Leaf(b), path, size)
    ensures Wf(Remove(Leaf(b), h, |path|), path, size)
    ensures Model(Remove(Leaf(b), h, |path|)) == MapOf(b) - {h}
  {
    var i := Position(b, h);
    Lookup(b, h);
    if i < |b| {
      BucketDrop(b, i);
    }
  }

  // ---- insertion ----

  /** What inserting an entry does to the map: a known hash counts a hit, unless
      the index is being rebuilt from its log. */
  function Inserted(m: Map, e: Entry, rebuilding: bool): Map
  {
    if e.hash !in m then m[e.hash := e]
    else if rebuilding then m
    else m[e.hash := Hit(m[e.hash])]
  }

  /** Additions of entries the map already holds, as splits write them. */
  predicate Relogged(m: Map, log: seq<Record>)
  {
    forall r | r in log :: r.Addition? && r.entry.hash in m && m[r.entry.hash] == r.entry
  }

  /** What inserting an entry writes to the log. */
  predicate InsertLog(m: Map, e: Entry, rebuilding: bool, log: seq<Record>)
  {
    if rebuilding then log == []
    else if e.hash in m then log == [Increment(m[e.hash])]
    else |log| > 0 && log[|log| - 1] == Addition(e) && Relogged(m, log[..|log| - 1])
  }

  function Additions(b: seq<Entry>, rebuilding: bool): seq<Record>
  {
    if rebuilding then [] else seq(|b|, i requires 0 <= i < |b| => Addition(b[i]))
  }

  /** At most two hashes agree on bits 1..255. */
  lemma {:induction false} TwoPerPath(f: Hash, g: Hash, h: Hash, path: seq<bool>)
    requires |path| == BITS - 1
    requires Fits(f, path) && Fits(g, path) && Fits(h, path)
    ensures f == g || g == h || f == h
  {
    var (x, y) := if Bit(f, 0) == Bit(g, 0) then (f, g) else if Bit(g, 0) == Bit(h, 0) then (g, h) else (f, h);
    forall k: nat | k < BITS
      ensures Bit(x, k) == Bit(y, k)
    {
      if k > 0 {
        assert Bit(x, k - 1 + 1) == path[k - 1] == Bit(y, k - 1 + 1);
      }
    }
    HashFromBits(x, y);
  }

  /** A leaf on the deepest level never has to split when buckets hold two. */
  lemma {:induction false} DeepLeafHasRoom(b: seq<Entry>, path: seq<bool>, size: nat, h: Hash)
    requires |path| == BITS - 1 && Wf(Leaf(b), path, size) && Fits(h, path)
    requires size >= 2 && Position(b, h) == |b|
    ensures |b| < size
  {
    if |b| >= 2 {
      TwoPerPath(b[0].hash, b[1].hash, h, path);
      assert false;
    }
  }

  /** One re-insertion below a fresh branch finds room and pushes. */
  lemma {:induction false} PushBelow(n: Node, e: Entry, path: seq<bool>, size: nat, rebuilding: bool)
    requires |path| + 1 < BITS && Wf(n, path, size)
    requires n.Branch? && n.left.Leaf? && n.right.Leaf?
    requires |n.left.bucket| < size && |n.right.bucket| < size
    requires Fits(e.hash, path) && e.hash !in Model(n)
    ensures var r := Add(n, e, |path|, size, rebuilding);
            && r.Some?
            && Wf(r.value.node, path, size)
            && r.value.node.left.Leaf? && r.value.node.right.Leaf?
            && |r.value.node.left.bucket| <= |n.left.bucket| + 1
            && |r.value.node.right.bucket| <= |n.right.bucket| + 1
            && Model(r.value.node) == Model(n)[e.hash := e]
            && r.value.log == if rebuilding then [] else [Addition(e)]
  {
    FitsChild(e.hash, path);
    UnionUpdate(Model(n.left), Model(n.right), e.hash, e);
    if Bit(e.hash, |path| + 1) {
      Lookup(n.right.bucket, e.hash);
      BucketPush(n.right.bucket, e);
    } else {
      Lookup(n.left.bucket, e.hash);
      BucketPush(n.left.bucket, e);
    }
  }

  /** Re-inserting a bucket below a fresh branch only pushes, and logs every entry again. */
  lemma {:induction false} SplitPushes(n: Node, b: seq<Entry>, path: seq<bool>, size: nat, rebuilding: bool)
    requires |path| + 1 < BITS && Wf(n, path, size)
    requires n.Branch? && n.left.Leaf? && n.right.Leaf?
    requires |n.left.bucket| + |b| <= size && |n.right.bucket| + |b| <= size
    requires Distinct(b) && AllFit(b, path) && MapOf(b).Keys !! Model(n).Keys
    ensures var r := AddAll(n, b, |path|, size, rebuilding);
            && r.Some?
            && Wf(r.value.node, path, size)
            && Model(r.value.node) == Model(n) + MapOf(b)
            && r.value.log == Additions(b, rebuilding)
    decreases |b|
  {
    hide Fits;
    if b == [] {
      assert Model(n) + MapOf(b) == Model(n);
    } else {
      var e, rest := b[0], b[1..];
      assert e.hash in MapOf(b);
      PushBelow(n, e, path, size, rebuilding);
      Lookup(rest, e.hash);
      SplitPushes(Add(n, e, |path|, size, rebuilding).value.node, rest, path, size, rebuilding);
      UnionCons(Model(n), MapOf(rest), e);
      if !rebuilding {
        assert Additions(b, rebuilding) == [Addition(e)] + Additions(rest, rebuilding);
      }
    }
  }

  lemma UnionCons(m: Map, rest: Map, e: Entry)
    requires e.hash !in rest
    ensures m[e.hash := e] + rest == m + rest[e.hash := e]
  {
  }

  lemma UnionCommutes(l: Map, r: Map)
    requires l.Keys !! r.Keys
    ensures l + r == r + l
  {
  }

  /** Inserting into one half is inserting into the whole. */
  lemma InsertUnion(half: Map, other: Map, e: Entry, rebuilding: bool, log: seq<Record>)
    requires half.Keys !! other.Keys && e.hash !in other
    requires InsertLog(half, e, rebuilding, log)
    ensures Inserted(half + other, e, rebuilding) == Inserted(half, e, rebuilding) + other
    ensures InsertLog(half + other, e, rebuilding, log)
  {
  }

  /** With buckets of at least two entries, inserting never reads past the hash,
      keeps the trie well-formed, is map insertion, and logs nothing but the entry
      itself and entries the map already holds. */
  lemma {:induction false} AddIsInsert(n: Node, path: seq<bool>, size: nat, e: Entry, rebuilding: bool)
    requires |path| < BITS && Wf(n, path, size) && Fits(e.hash, path) && size >= 2
    ensures var r := Add(n, e, |path|, size, rebuilding);
            && r.Some?
            && Wf(r.value.node, path, size)
            && Model(r.value.node) == Inserted(Model(n), e, rebuilding)
            && InsertLog(Model(n), e, rebuilding, r.value.log)
    decreases BITS - |path|, if n.Leaf? then 2 else 0
  {
    hide Bit;
    match n
    case Branch(left, right) =>
      OtherHalf(n, path, size, e.hash);
      FitsChild(e.hash, path);
      HalvesDisjoint(n, path, size);
      if Bit(e.hash, |path| + 1) {
        AddIsInsert(right, path + [true], size, e, rebuilding);
        var s := Add(right, e, |path| + 1, size, rebuilding).value;
        InsertUnion(Model(right), Model(left), e, rebuilding, s.log);
        UnionCommutes(Model(left), Model(right));
        UnionCommutes(Model(left), Model(s.node));
      } else {
        AddIsInsert(left, path + [false], size, e, rebuilding);
        var s := Add(left, e, |path| + 1, size, rebuilding).value;
        InsertUnion(Model(left), Model(right), e, rebuilding, s.log);
      }
    case Leaf(b) =>
      if Position(b, e.hash) == |b| == size {
        SplitThenAdd(b, path, size, e, rebuilding);
      } else {
        AddToLeaf(b, path, size, e, rebuilding);
      }
  }

  lemma {:induction false} AddToLeaf(b: seq<Entry>, path: seq<bool>, size: nat, e: Entry, rebuilding: bool)
    requires |path| < BITS && Wf(Leaf(b), path, size) && Fits(e.hash, path)
    requires Position(b, e.hash) < |b| || |b| < size
    ensures var r := Add(Leaf(b), e, |path|, size, rebuilding);
            && r.Some?
            && Wf(r.value.node, path, size)
            && Model(r.value.node) == Inserted(MapOf(b), e, rebuilding)
            && InsertLog(MapOf(b), e, rebuilding, r.value.log)
  {
    var i := Position(b, e.hash);
    Lookup(b, e.hash);
    if i < |b| {
      BucketReplace(b, i, Hit(b[i]));
    } else {
      BucketPush(b, e);
    }
  }

  lemma {:induction false} BucketRelogged(b: seq<Entry>)
    requires Distinct(b)
    ensures Relogged(MapOf(b), Additions(b, false))
  {
    forall r | r in Additions(b, false)
      ensures r.Addition? && r.entry.hash in MapOf(b) && MapOf(b)[r.entry.hash] == r.entry
    {
      Lookup(b, r.entry.hash);
    }
  }

  lemma {:induction false} SplitThenAdd(b: seq<Entry>, path: seq<bool>, size: nat, e: Entry, rebuilding: bool)
    requires |path| < BITS && Wf(Leaf(b), path, size) && Fits(e.hash, path) && size >= 2
    requires Position(b, e.hash) == |b| == size
    ensures var r := Add(Leaf(b), e, |path|, size, rebuilding);
            && r.Some?
            && Wf(r.value.node, path, size)
            && Model(r.value.node) == Inserted(MapOf(b), e, rebuilding)
            && InsertLog(MapOf(b), e, rebuilding, r.value.log)
    decreases BITS - |path|, 1
  {
    if |path| + 1 == BITS {
      DeepLeafHasRoom(b, path, size, e.hash);
      assert false;
    }
    var blank := Branch(Leaf([]), Leaf([]));
    assert Wf(blank, path, size) && Model(blank) == map[];
    SplitPushes(blank, b, path, size, rebuilding);
    var s := AddAll(blank, b, |path|, size, rebuilding).value;
    assert Model(s.node) == MapOf(b);
    AddIsInsert(s.node, path, size, e, rebuilding);
    Lookup(b, e.hash);
    LogAfterSplit(b, e, rebuilding, Add(s.node, e, |path|, size, rebuilding).value.log);
  }

  lemma {:induction false} LogAfterSplit(b: seq<Entry>, e: Entry, rebuilding: bool, log: seq<Record>)
    requires Distinct(b) && e.hash !in MapOf(b) && InsertLog(MapOf(b), e, rebuilding, log)
    ensures InsertLog(MapOf(b), e, rebuilding, Additions(b, rebuilding) + log)
  {
    if !rebuilding {
      BucketRelogged(b);
      var whole := Additions(b, rebuilding) + log;
      assert whole[..|whole| - 1] == Additions(b, rebuilding) + log[..|log| - 1];
    }
  }

  // ---- enumeration ----

  lemma {:induction false} MapOfConcat(a: seq<Entry>, b: seq<Entry>)
    requires MapOf(a).Keys !! MapOf(b).Keys
    ensures MapOf(a + b) == MapOf(a) + MapOf(b)
    decreases |a|
  {
    if a == [] {
      assert a + b == b;
    } else {
      var e := a[0];
      assert e.hash in MapOf(a);
      MapOfConcat(a[1..], b);
      assert (a + b)[1..] == a[1..] + b;
      UnionUpdate(MapOf(a[1..]), MapOf(b), e.hash, e);
    }
  }

  lemma {:induction false} DistinctConcat(a: seq<Entry>, b: seq<Entry>)
    requires Distinct(a) && Distinct(b) && MapOf(a).Keys !! MapOf(b).Keys
    ensures Distinct(a + b)
  {
    forall i, j | 0 <= i < |a| && 0 <= j < |b|
      ensures a[i].hash != b[j].hash
    {
      Lookup(a, a[i].hash);
      Lookup(b, b[j].hash);
    }
  }

  lemma {:induction false} MapOfSize(b: seq<Entry>)
    requires Distinct(b)
    ensures |MapOf(b)| == |b|
  {
    if b != [] {
      MapOfSize(b[1..]);
      Lookup(b[1..], b[0].hash);
    }
  }

  /** The enumeration lists every key of the map exactly once, and the count is
      the size of the map. */
  lemma {:induction false} ToArrayOnce(n: Node, path: seq<bool>, size: nat)
    requires |path| < BITS && Wf(n, path, size)
    ensures Distinct(ToArray(n)) && MapOf(ToArray(n)) == Model(n)
    ensures Count(n) == |ToArray(n)| == |Model(n)|
    decreases n
  {
    match n
    case Branch(left, right) =>
      ToArrayOnce(left, path + [false], size);
      ToArrayOnce(right, path + [true], size);
      HalvesDisjoint(n, path, size);
      MapOfConcat(ToArray(left), ToArray(right));
      DistinctConcat(ToArray(left), ToArray(right));
      MapOfSize(ToArray(n));
    case Leaf(b) =>
      MapOfSize(b);
  }

  // ---- which bucket sizes are safe ----

  function Build(es: seq<Entry>, size: nat): Option<Node>
  {
    if es == [] then Some(Leaf([]))
    else
      var n :- Build(es[..|es| - 1], size);
      var s :- Add(n, es[|es| - 1], 0, size, false);
      Some(s.node)
  }

  lemma {:induction false} BuildSafe(es: seq<Entry>, size: nat)
    requires size >= 2
    ensures Build(es, size).Some? && Wf(Build(es, size).value, [], size)
  {
    if es != [] {
      BuildSafe(es[..|es| - 1], size);
      AddIsInsert(Build(es[..|es| - 1], size).value, [], size, es[|es| - 1], false);
    }
  }

  lemma {:induction false} EmptyBucketsOverrun(e: Entry, d: nat)
    ensures Add(Leaf([]), e, d, 0, false).None?
    decreases BITS - d
  {
    if d + 1 < BITS {
      EmptyBucketsOverrun(e, d + 1);
    }
  }

  /** Two hashes that differ in bit 0 only follow each other down to the last bit. */
  lemma {:induction false} TwinsOverrun(a: Entry, b: Entry, d: nat)
    requires a.hash != b.hash
    requires forall k: nat | 0 < k < BITS :: Bit(a.hash, k) == Bit(b.hash, k)
    ensures Add(Leaf([a]), b, d, 1, false).None?
    decreases BITS - d
  {
    if d + 1 < BITS {
      TwinsOverrun(a, b, d + 1);
      var blank := Branch(Leaf([]), Leaf([]));
      var split := if Bit(a.hash, d + 1) then Branch(Leaf([]), Leaf([a])) else Branch(Leaf([a]), Leaf([]));
      assert [] + [a] == [a];
      assert Add(blank, a, d, 1, false) == Some(Step(split, [Addition(a)]));
      assert AddAll(split, [a][1..], d, 1, false) == Some(Step(split, []));
    }
  }

  lemma {:induction false} TwinBits(k: nat)
    requires 0 < k < BITS
    ensures Bit(seq(32, _ => 0), k) == Bit(seq(32, i => if i == 0 then 1 else 0), k)
  {
    if k < 8 {
      assert ByteBit(0, k) == ByteBit(0, k - 1) && ByteBit(1, k) == ByteBit(0, k - 1);
    }
  }

  /** Every sequence of insertions into an empty index stays within the 256 bits
      of the hash if and only if buckets hold at least two entries. */
  lemma {:induction false} BucketSizeSafe(size: nat)
    ensures (forall es :: Build(es, size).Some?) <==> size >= 2
  {
    if size >= 2 {
      forall es
        ensures Build(es, size).Some?
      {
        BuildSafe(es, size);
      }
    } else {
      var es := Overrun(size);
    }
  }

  lemma {:induction false} Overrun(size: nat) returns (es: seq<Entry>)
    requires size < 2
    ensures Build(es, size).None?
  {
    var a, b := Twins();
    if size == 0 {
      EmptyBucketsOverrun(a, 0);
      es := [a];
    } else {
      TwinsOverrun(a, b, 0);
      BuildOne(a);
      es := [a] + [b];
      assert es[..1] == [a];
    }
  }

  lemma BuildOne(a: Entry)
    ensures Build([a], 1) == Some(Leaf([a]))
  {
    assert [] + [a] == [a];
  }

  lemma {:induction false} Twins() returns (a: Entry, b: Entry)
    ensures a.hash != b.hash
    ensures forall k: nat | 0 < k < BITS :: Bit(a.hash, k) == Bit(b.hash, k)
  {
    var g: Hash, h: Hash := seq(32, _ => 0), seq(32, i => if i == 0 then 1 else 0);
    assert g[0] != h[0];
    a := Entry(g, F.Fresh, 0, 0, 0, 0, 0);
    b := a.(hash := h);
    forall k: nat | 0 < k < BITS
      ensures Bit(a.hash, k) == Bit(b.hash, k)
    {
      TwinBits(k);
    }
  }

  lemma {:induction false} RemoveAbsent(n: Node, h: Hash, d: nat)
    requires InBounds(n, d) && Find(n, h, d).None?
    ensures Remove(n, h, d) == n
    decreases n
  {
    if n.Branch? {
      RemoveAbsent(if Bit(h, d + 1) then n.right else n.left, h, d + 1);
    }
  }
}
