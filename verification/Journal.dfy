/**
 The index and its write-ahead log.

 Every operation of the index appends the records that describe it.  After a
 crash some prefix of the log is replayed over the last snapshot.  The theorem
 `CrashPrefix` says what that yields: the map as it was after some prefix of the
 operations, including every operation whose records are all in the prefix.
 */
module Journal {
  import opened Entries
  import opened Trie

  datatype Op =
    | AddOp(entry: Entry)
    | GetOp(hash: Hash)
    | RemoveOp(hash: Hash)
    | EjectOp(hash: Hash, date: U64)
    | MetaOp(hash: Hash, ephemeralCount: U16, pinCount: U32)

  /** One operation on the trie.  Only an insertion can fail, see Trie.Add. */
  function Apply(n: Node, op: Op, size: nat): Option<Step>
    requires InBounds(n, 0)
  {
    match op
    case AddOp(e) => Add(n, e, 0, size, false)
    case GetOp(h) =>
      var found := Find(n, h, 0);
      Some(if found.None? then Step(n, []) else Step(Update(n, h, 0, CountHit), [Increment(found.value)]))
    case RemoveOp(h) =>
      Some(if Find(n, h, 0).None? then Step(n, []) else Step(Remove(n, h, 0), [Removal(h)]))
    case EjectOp(h, date) =>
      Some(Step(Update(n, h, 0, SetEjection(date)), [Ejection(h, date)]))
    case MetaOp(h, ephemeral, pins) =>
      var p := SetMetadata(ephemeral, pins);
      var found := Find(n, h, 0);
      Some(if found.None? then Step(n, []) else Step(Update(n, h, 0, p), [Metadata(Patched(found.value, p))]))
  }

  /** What a single record does when it is replayed into a trie. */
  function Replayed(n: Node, r: Record, size: nat): Option<Node>
    requires InBounds(n, 0)
  {
    match r
    case Addition(e) =>
      var s :- Add(n, e, 0, size, true);
      Some(s.node)
    case Increment(e) => Some(Update(n, e.hash, 0, CountHit))
    case Ejection(h, date) => Some(Update(n, h, 0, SetEjection(date)))
    case Removal(h) => Some(Remove(n, h, 0))
    case Metadata(e) => Some(Update(n, e.hash, 0, SetMetadata(e.ephemeralCount, e.pinCount)))
  }

  // ---- the same on finite maps ----

  function Patch(m: Map, h: Hash, p: Trie.Patch): Map
  {
    if h in m then m[h := Patched(m[h], p)] else m
  }

  function ApplyMap(m: Map, op: Op): Map
  {
    match op
    case AddOp(e) => Inserted(m, e, false)
    case GetOp(h) => Patch(m, h, CountHit)
    case RemoveOp(h) => m - {h}
    case EjectOp(h, date) => Patch(m, h, SetEjection(date))
    case MetaOp(h, ephemeral, pins) => Patch(m, h, SetMetadata(ephemeral, pins))
  }

  function ReplayMap(m: Map, r: Record): Map
  {
    match r
    case Addition(e) => Inserted(m, e, true)
    case Increment(e) => Patch(m, e.hash, CountHit)
    case Ejection(h, date) => Patch(m, h, SetEjection(date))
    case Removal(h) => m - {h}
    case Metadata(e) => Patch(m, e.hash, SetMetadata(e.ephemeralCount, e.pinCount))
  }

  function RunMap(m: Map, ops: seq<Op>): Map
  {
    if ops == [] then m else ApplyMap(RunMap(m, ops[..|ops| - 1]), ops[|ops| - 1])
  }

  function ReplayAllMap(m: Map, log: seq<Record>): Map
  {
    if log == [] then m else ReplayMap(ReplayAllMap(m, log[..|log| - 1]), log[|log| - 1])
  }

  /** An index: a well-formed trie with buckets of at least two entries. */
  predicate Valid(n: Node, size: nat)
  {
    size >= 2 && Wf(n, [], size)
  }

  lemma ValidInBounds(n: Node, size: nat)
    requires Valid(n, size)
    ensures InBounds(n, 0)
  {
    WfInBounds(n, [], size);
  }

  /** The records an operation writes over the map m. */
  predicate OpLog(m: Map, op: Op, log: seq<Record>)
  {
    match op
    case AddOp(e) => InsertLog(m, e, false, log)
    case GetOp(h) => log == if h in m then [Increment(m[h])] else []
    case RemoveOp(h) => log == if h in m then [Removal(h)] else []
    case EjectOp(h, date) => log == [Ejection(h, date)]
    case MetaOp(h, ephemeral, pins) =>
      log == if h in m then [Metadata(Patched(m[h], SetMetadata(ephemeral, pins)))] else []
  }

  /** Every operation of the trie is that operation on the map, for every state. */
  lemma {:induction false} ApplyRefinesMap(n: Node, op: Op, size: nat)
    requires Valid(n, size)
    ensures InBounds(n, 0)
    ensures var r := Apply(n, op, size);
            && r.Some?
            && Valid(r.value.node, size)
            && Model(r.value.node) == ApplyMap(Model(n), op)
            && OpLog(Model(n), op, r.value.log)
  {
    ValidInBounds(n, size);
    match op
    case AddOp(e) =>
      AddIsInsert(n, [], size, e, false);
    case GetOp(h) =>
      FindIsLookup(n, [], size, h);
      UpdateIsMapUpdate(n, [], size, h, CountHit);
      KeysFit(n, [], size);
    case RemoveOp(h) =>
      FindIsLookup(n, [], size, h);
      RemoveIsMapRemove(n, [], size, h);
    case EjectOp(h, date) =>
      UpdateIsMapUpdate(n, [], size, h, SetEjection(date));
    case MetaOp(h, ephemeral, pins) =>
      FindIsLookup(n, [], size, h);
      UpdateIsMapUpdate(n, [], size, h, SetMetadata(ephemeral, pins));
  }

  /** Replaying a record into a trie is replaying it into the map. */
  lemma {:induction false} ReplayRefinesMap(n: Node, r: Record, size: nat)
    requires Valid(n, size)
    ensures InBounds(n, 0)
    ensures var s := Replayed(n, r, size);
            && s.Some?
            && Valid(s.value, size)
            && Model(s.value) == ReplayMap(Model(n), r)
  {
    ValidInBounds(n, size);
    match r
    case Addition(e) =>
      AddIsInsert(n, [], size, e, true);
    case Increment(e) =>
      UpdateIsMapUpdate(n, [], size, e.hash, CountHit);
    case Ejection(h, date) =>
      UpdateIsMapUpdate(n, [], size, h, SetEjection(date));
    case Removal(h) =>
      RemoveIsMapRemove(n, [], size, h);
    case Metadata(e) =>
      UpdateIsMapUpdate(n, [], size, e.hash, SetMetadata(e.ephemeralCount, e.pinCount));
  }

  // ---- runs ----

  /** The trie and the log after a sequence of operations. */
  function Run(n: Node, ops: seq<Op>, size: nat): (r: Step)
    requires Valid(n, size)
    ensures Valid(r.node, size)
    ensures Model(r.node) == RunMap(Model(n), ops)
    decreases |ops|
  {
    if ops == [] then Step(n, [])
    else
      var s := Run(n, ops[..|ops| - 1], size);
      ApplyRefinesMap(s.node, ops[|ops| - 1], size);
      var t := Apply(s.node, ops[|ops| - 1], size).value;
      Step(t.node, s.log + t.log)
  }

  /** The trie after replaying a sequence of records. */
  function ReplayAll(n: Node, log: seq<Record>, size: nat): (r: Node)
    requires Valid(n, size)
    ensures Valid(r, size)
    ensures Model(r) == ReplayAllMap(Model(n), log)
    decreases |log|
  {
    if log == [] then n
    else
      var s := ReplayAll(n, log[..|log| - 1], size);
      ReplayRefinesMap(s, log[|log| - 1], size);
      Replayed(s, log[|log| - 1], size).value
  }

  lemma {:induction false} ReplayConcat(m: Map, a: seq<Record>, b: seq<Record>)
    ensures ReplayAllMap(m, a + b) == ReplayAllMap(ReplayAllMap(m, a), b)
    decreases |b|
  {
    if b == [] {
      assert a + b == a;
    } else {
      assert (a + b)[..|a + b| - 1] == a + b[..|b| - 1];
      ReplayConcat(m, a, b[..|b| - 1]);
    }
  }

  /** Additions of entries the map holds replay to nothing. */
  lemma {:induction false} RelogIsNoop(m: Map, log: seq<Record>)
    requires Relogged(m, log)
    ensures ReplayAllMap(m, log) == m
    decreases |log|
  {
    if log != [] {
      assert log[|log| - 1] in log;
      assert forall r | r in log[..|log| - 1] :: r in log;
      RelogIsNoop(m, log[..|log| - 1]);
    }
  }

  /** The records of one operation take effect with the last of them. */
  lemma {:induction false} OpIsAtomic(m: Map, op: Op, log: seq<Record>, j: nat)
    requires OpLog(m, op, log) && j <= |log|
    requires forall h | h in m :: m[h].hash == h
    ensures ReplayAllMap(m, log[..j]) == if j == |log| then ApplyMap(m, op) else m
  {
    if j < |log| {
      if op.AddOp? && op.entry.hash !in m {
        assert forall r | r in log[..j] :: r in log[..|log| - 1];
        RelogIsNoop(m, log[..j]);
      } else {
        assert log[..j] == [];
      }
    } else if log == [] {
    } else {
      assert log[..j] == log;
      if op.AddOp? && op.entry.hash !in m {
        RelogIsNoop(m, log[..|log| - 1]);
      } else {
        assert log[..|log| - 1] == [];
      }
    }
  }

  /** Crash-prefix consistency.  Whatever number j of records survives, replaying
      them over the start gives the map after some number k of the operations; k is
      the largest number of operations whose records all survive. */
  lemma {:induction false} CrashPrefix(n: Node, ops: seq<Op>, size: nat, j: nat) returns (k: nat)
    requires Valid(n, size) && j <= |Run(n, ops, size).log|
    ensures k <= |ops|
    ensures ReplayAllMap(Model(n), Run(n, ops, size).log[..j]) == RunMap(Model(n), ops[..k])
    ensures |Run(n, ops[..k], size).log| <= j
    ensures k < |ops| ==> j < |Run(n, ops[..k + 1], size).log|
  {
    var ends := Ends(n, ops, size);
    k := CutPoint(ends, j);
    EndsAt(n, ops, size, k);
    if k < |ops| {
      EndsAt(n, ops, size, k + 1);
    }
    CrashAt(n, ops, size, j, k);
  }

  /** The length of the log after each number of operations. */
  function Ends(n: Node, ops: seq<Op>, size: nat): (ends: seq<nat>)
    requires Valid(n, size)
    ensures |ends| == |ops| + 1 && ends[0] == 0
    decreases |ops|
  {
    if ops == [] then [0] else Ends(n, ops[..|ops| - 1], size) + [|Run(n, ops, size).log|]
  }

  lemma {:induction false} EndsAt(n: Node, ops: seq<Op>, size: nat, i: nat)
    requires Valid(n, size) && i <= |ops|
    ensures Ends(n, ops, size)[i] == |Run(n, ops[..i], size).log|
    decreases |ops|
  {
    if i == |ops| {
      assert ops[..i] == ops;
    } else {
      EndsAt(n, ops[..|ops| - 1], size, i);
      assert ops[..|ops| - 1][..i] == ops[..i];
    }
  }

  /** The last index whose value is at most j. */
  lemma {:induction false} CutPoint(ends: seq<nat>, j: nat) returns (k: nat)
    requires |ends| > 0 && ends[0] <= j
    ensures k < |ends| && ends[k] <= j
    ensures k + 1 < |ends| ==> j < ends[k + 1]
  {
    k := |ends| - 1;
    while ends[k] > j
      decreases k
      invariant 0 <= k < |ends|
      invariant k + 1 < |ends| ==> j < ends[k + 1]
    {
      k := k - 1;
    }
  }

  lemma {:induction false} CrashAt(n: Node, ops: seq<Op>, size: nat, j: nat, k: nat)
    requires Valid(n, size) && j <= |Run(n, ops, size).log| && k <= |ops|
    requires |Run(n, ops[..k], size).log| <= j
    requires k < |ops| ==> j < |Run(n, ops[..k + 1], size).log|
    ensures ReplayAllMap(Model(n), Run(n, ops, size).log[..j]) == RunMap(Model(n), ops[..k])
  {
    if k < |ops| {
      var some := ops[..k + 1];
      assert some[..k] == ops[..k];
      LogGrows(n, ops, size, k + 1);
      assert Run(n, ops, size).log[..j] == Run(n, some, size).log[..j];
      CrashInLastOp(n, some, size, j);
    } else {
      assert ops[..k] == ops;
      assert Run(n, ops, size).log[..j] == Run(n, ops, size).log;
      WholeLog(n, ops, size);
    }
  }

  lemma {:induction false} LogGrows(n: Node, ops: seq<Op>, size: nat, k: nat)
    requires Valid(n, size) && k <= |ops|
    ensures Run(n, ops[..k], size).log <= Run(n, ops, size).log
    decreases |ops|
  {
    if k == |ops| {
      assert ops[..k] == ops;
    } else {
      LogGrows(n, ops[..|ops| - 1], size, k);
      assert ops[..|ops| - 1][..k] == ops[..k];
    }
  }

  /** A crash among the records of the last operation. */
  lemma {:induction false} CrashInLastOp(n: Node, ops: seq<Op>, size: nat, j: nat)
    requires Valid(n, size) && ops != []
    requires |Run(n, ops[..|ops| - 1], size).log| <= j <= |Run(n, ops, size).log|
    ensures var log := Run(n, ops, size).log;
            ReplayAllMap(Model(n), log[..j]) == RunMap(Model(n), if j == |log| then ops else ops[..|ops| - 1])
  {
    var op := ops[|ops| - 1];
    var s := Run(n, ops[..|ops| - 1], size);
    ApplyRefinesMap(s.node, op, size);
    var t := Apply(s.node, op, size).value;
    var i := j - |s.log|;
    hide Model, Add, Wf;
    WholeLog(n, ops[..|ops| - 1], size);
    KeysFit(s.node, [], size);
    OpIsAtomic(Model(s.node), op, t.log, i);
    ReplayConcat(Model(n), s.log, t.log[..i]);
    assert (s.log + t.log)[..j] == s.log + t.log[..i];
  }

  /** The whole log replays to the final map. */
  lemma {:induction false} WholeLog(n: Node, ops: seq<Op>, size: nat)
    requires Valid(n, size)
    ensures ReplayAllMap(Model(n), Run(n, ops, size).log) == RunMap(Model(n), ops)
    decreases |ops|
  {
    if ops != [] {
      var s := Run(n, ops[..|ops| - 1], size);
      WholeLog(n, ops[..|ops| - 1], size);
      ApplyRefinesMap(s.node, ops[|ops| - 1], size);
      var t := Apply(s.node, ops[|ops| - 1], size).value;
      KeysFit(s.node, [], size);
      assert t.log[..|t.log|] == t.log;
      OpIsAtomic(Model(s.node), ops[|ops| - 1], t.log, |t.log|);
      ReplayConcat(Model(n), s.log, t.log);
    }
  }
}
