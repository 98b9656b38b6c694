/**
 Snapshots, log files and what a restart makes of them.

 A snapshot with id k holds the trie after log k; log k + 1 holds the operations
 since.  A rollover writes the next snapshot and then prunes old files.  The disk
 can be caught by a crash after any of these steps, also in the middle of the
 snapshot's bytes or of a log record.
 */
module Recovery {
  import opened Entries
  import Cbor
  import opened Codec
  import opened Trie
  import opened Wal
  import J = Journal

  /** The three checksums: log payloads, snapshots, and snapshots of older writers. */
  datatype Sums = Sums(crc: Checksum, modern: seq<Entry> -> U64, legacy: seq<Entry> -> U64)

  datatype SnapFile = SnapFile(id: nat, sum: U64, body: seq<Byte>)

  /** The directory: snapshots in ascending order of id, and log files by id. */
  datatype Disk = Disk(snaps: seq<SnapFile>, wals: map<nat, seq<Byte>>)

  // ---- log files as records ----

  function Frames(log: seq<Record>): seq<Frame>
  {
    seq(|log|, i requires 0 <= i < |log| => Frame(Tag(log[i]), Payload(log[i])))
  }

  function LogBytes(log: seq<Record>, crc: Checksum): seq<Byte>
  {
    FileBytes(Frames(log), crc)
  }

  /** The records replay acts on: frames that do not decode are skipped. */
  function Decoded(fs: seq<Frame>): seq<Record>
  {
    if fs == [] then []
    else
      var r := DecodeRecord(fs[0].tag, fs[0].payload);
      (if r.Some? then [r.value] else []) + Decoded(fs[1..])
  }

  lemma {:induction false} FramesModern(log: seq<Record>)
    ensures AllModern(Frames(log))
  {
    forall i | 0 <= i < |log|
      ensures Sized(Frames(log)[i], false)
    {
      RecordSize(log[i]);
    }
  }

  lemma {:induction false} FramesDecode(log: seq<Record>)
    ensures Decoded(Frames(log)) == log
    decreases |log|
  {
    if log != [] {
      RecordRoundTrip(log[0]);
      assert Frames(log)[0] == Frame(Tag(log[0]), Payload(log[0]));
      assert Frames(log)[1..] == Frames(log[1..]);
      FramesDecode(log[1..]);
      assert [log[0]] + log[1..] == log;
    }
  }

  // ---- loading ----

  function WalAt(disk: Disk, id: nat): seq<Byte>
  {
    if id in disk.wals then disk.wals[id] else []
  }

  datatype Replay = Replay(node: Node, code: int)

  function ReplayFile(n: Node, size: nat, bytes: seq<Byte>, crc: Checksum): (r: Replay)
    requires J.Valid(n, size)
    ensures J.Valid(r.node, size)
  {
    var back := Recover(bytes, crc);
    Replay(J.ReplayAll(n, Decoded(back.frames), size), back.code)
  }

  /** A snapshot counts if it decodes and one of the two checksums matches its
      name.  (A decoded trie that is not well-formed is outside this model.) */
  function Usable(f: SnapFile, h: Sums): (r: Option<Snapshot>)
    ensures r.Some? ==> J.Valid(r.value.node, r.value.size)
  {
    var s :- ReadSnapshot(f.body);
    if (h.modern(ToArray(s.node)) == f.sum || h.legacy(ToArray(s.node)) == f.sum) && J.Valid(s.node, s.size)
    then Some(s)
    else None
  }

  /** The newest usable snapshot among the first i, as index + 1; 0 if none. */
  function Newest(snaps: seq<SnapFile>, i: nat, h: Sums): (k: nat)
    requires i <= |snaps|
    ensures k <= i && (k > 0 ==> Usable(snaps[k - 1], h).Some?)
  {
    if i == 0 || Usable(snaps[i - 1], h).Some? then i else Newest(snaps, i - 1, h)
  }

  /** Replay the logs named like the snapshots from j on, stopping at the first
      that does not end cleanly. */
  function Chain(n: Node, size: nat, disk: Disk, j: nat, crc: Checksum): (r: Node)
    requires J.Valid(n, size) && j <= |disk.snaps|
    ensures J.Valid(r, size)
    decreases |disk.snaps| - j
  {
    if j == |disk.snaps| then n
    else
      var r := ReplayFile(n, size, WalAt(disk, disk.snaps[j].id), crc);
      if r.code != CLEAN_EOF then r.node else Chain(r.node, size, disk, j + 1, crc)
  }

  /** What a restart loads; None when no snapshot is usable and it starts empty. */
  function Load(disk: Disk, h: Sums): Option<Node>
  {
    var k := Newest(disk.snaps, |disk.snaps|, h);
    if k == 0 then None
    else
      var s := Usable(disk.snaps[k - 1], h).value;
      if k == |disk.snaps| then
        Some(ReplayFile(s.node, s.size, WalAt(disk, disk.snaps[k - 1].id + 1), h.crc).node)
      else
        Some(Chain(s.node, s.size, disk, k, h.crc))
  }

  /** The loading loops of the source. */
  method LoadIndex(disk: Disk, h: Sums) returns (r: Option<Node>)
    ensures r == Load(disk, h)
  {
    hide Usable, ReplayFile, Chain, Newest, WalAt;
    var i := FindNewest(disk.snaps, h);
    if i == 0 {
      return None;
    }
    var s := Usable(disk.snaps[i - 1], h).value;
    var node: Node;
    if i == |disk.snaps| {
      node := ReplayFile(s.node, s.size, WalAt(disk, disk.snaps[i - 1].id + 1), h.crc).node;
    } else {
      node := Rebuild(s.node, s.size, disk, i, h.crc);
    }
    return Some(node);
  }

  method FindNewest(snaps: seq<SnapFile>, h: Sums) returns (i: nat)
    ensures i == Newest(snaps, |snaps|, h)
  {
    hide Usable;
    i := |snaps|;
    while i > 0 && Usable(snaps[i - 1], h).None?
      invariant 0 <= i <= |snaps|
      invariant Newest(snaps, |snaps|, h) == Newest(snaps, i, h)
    {
      i := i - 1;
    }
  }

  method Rebuild(n: Node, size: nat, disk: Disk, i: nat, crc: Checksum) returns (node: Node)
    requires J.Valid(n, size) && i <= |disk.snaps|
    ensures node == Chain(n, size, disk, i, crc)
  {
    node := n;
    var j := i;
    while j < |disk.snaps|
      invariant i <= j <= |disk.snaps| && J.Valid(node, size)
      invariant Chain(n, size, disk, i, crc) == Chain(node, size, disk, j, crc)
    {
      var r := ReplayFile(node, size, WalAt(disk, disk.snaps[j].id), crc);
      node := r.node;
      if r.code != CLEAN_EOF {
        return;
      }
      j := j + 1;
    }
  }

  // ---- which snapshot a restart starts from ----

  /** The file decodes to this snapshot, and one of the two sums of its entries is the
      one in the file's name. */
  predicate Genuine(f: SnapFile, h: Sums, s: Snapshot)
  {
    && ReadSnapshot(f.body) == Some(s) && J.Valid(s.node, s.size)
    && (h.modern(ToArray(s.node)) == f.sum || h.legacy(ToArray(s.node)) == f.sum)
  }

  /** The file does not decode, or neither sum of its entries is the one in its name. */
  predicate Damaged(f: SnapFile, h: Sums)
  {
    match ReadSnapshot(f.body)
    case None => true
    case Some(s) =>
      (h.modern(ToArray(s.node)) != f.sum && h.legacy(ToArray(s.node)) != f.sum) || !J.Valid(s.node, s.size)
  }

  /** A restart passes over damaged files, however well they decode, and starts from the
      newest genuine one: with the log after it if that is the newest file, and else with
      the logs named like the newer files. */
  lemma {:induction false} LoadStartsGenuine(disk: Disk, h: Sums, k: nat, s: Snapshot)
    requires k < |disk.snaps| && Genuine(disk.snaps[k], h, s)
    requires forall j | k < j < |disk.snaps| :: Damaged(disk.snaps[j], h)
    ensures Load(disk, h) ==
            Some(if k + 1 == |disk.snaps|
                 then ReplayFile(s.node, s.size, WalAt(disk, disk.snaps[k].id + 1), h.crc).node
                 else Chain(s.node, s.size, disk, k + 1, h.crc))
  {
    hide ReplayFile, Chain, J.Valid, ReadSnapshot, ToArray, Usable, Newest;
    NewestIs(disk.snaps, |disk.snaps|, h, k, s);
    UsableIs(disk.snaps[k], h);
  }

  lemma UsableIs(f: SnapFile, h: Sums)
    ensures Damaged(f, h) <==> Usable(f, h).None?
    ensures forall s | Genuine(f, h, s) :: Usable(f, h) == Some(s)
  {
    hide J.Valid, ReadSnapshot, ToArray;
  }

  lemma {:induction false} NewestIs(snaps: seq<SnapFile>, i: nat, h: Sums, k: nat, s: Snapshot)
    requires k < i <= |snaps| && Genuine(snaps[k], h, s) && forall j | k < j < i :: Damaged(snaps[j], h)
    ensures Newest(snaps, i, h) == k + 1
  {
    hide Usable, Genuine, Damaged;
    UsableIs(snaps[i - 1], h);
    if k + 1 < i {
      NewestIs(snaps, i - 1, h, k, s);
    }
  }

  /** With no genuine file it starts empty. */
  lemma {:induction false} LoadNothing(disk: Disk, h: Sums)
    requires forall j | 0 <= j < |disk.snaps| :: Damaged(disk.snaps[j], h)
    ensures Load(disk, h).None?
  {
    NewestNone(disk.snaps, |disk.snaps|, h);
  }

  lemma {:induction false} NewestNone(snaps: seq<SnapFile>, i: nat, h: Sums)
    requires i <= |snaps| && forall j | 0 <= j < i :: Damaged(snaps[j], h)
    ensures Newest(snaps, i, h) == 0
  {
    hide Usable, Damaged;
    if i > 0 {
      UsableIs(snaps[i - 1], h);
      NewestNone(snaps, i - 1, h);
    }
  }

  // ---- a log cut anywhere, replayed over its snapshot ----

  /** The bytes of the log that a sequence of operations leaves. */
  function OpsBytes(n: Node, ops: seq<J.Op>, size: nat, crc: Checksum): seq<Byte>
    requires J.Valid(n, size)
  {
    LogBytes(J.Run(n, ops, size).log, crc)
  }

  /** Cut the log of any operations at any byte and replay what is left over a trie
      with the map they started from: the map is that after the first k operations,
      where k is the number of operations whose records all lie before the cut. */
  lemma {:induction false} CutReplay(start: Node, n: Node, ops: seq<J.Op>, size: nat, cut: nat,
                                     crc: Checksum) returns (k: nat)
    requires J.Valid(n, size) && J.Valid(start, size) && Model(start) == Model(n)
    requires cut <= |OpsBytes(n, ops, size, crc)| && cut <= Limit(cut)
    requires !CutClashes(Frames(J.Run(n, ops, size).log), cut, crc)
    ensures k <= |ops|
    ensures Model(ReplayFile(start, size, OpsBytes(n, ops, size, crc)[..cut], crc).node) == J.RunMap(Model(n), ops[..k])
    ensures cut == |OpsBytes(n, ops, size, crc)| ==> J.RunMap(Model(n), ops[..k]) == J.RunMap(Model(n), ops)
  {
    var log := J.Run(n, ops, size).log;
    var fs := Frames(log);
    FramesModern(log);
    CutRead(fs, cut, crc);
    var j := Complete(fs, cut, crc);
    assert fs[..j] == Frames(log[..j]);
    FramesDecode(log[..j]);
    k := J.CrashPrefix(n, ops, size, j);
    if cut == |FileBytes(fs, crc)| {
      CompleteAll(fs, crc);
      assert log[..j] == log;
      J.WholeLog(n, ops, size);
    }
  }

  lemma {:induction false} CompleteAll(fs: seq<Frame>, crc: Checksum)
    ensures Complete(fs, |FileBytes(fs, crc)|, crc) == |fs|
  {
    if fs != [] {
      CompleteAll(fs[1..], crc);
    }
  }

  lemma {:induction false} WholeFileNoClash(fs: seq<Frame>, crc: Checksum)
    ensures !CutClashes(fs, |FileBytes(fs, crc)|, crc)
  {
    if fs != [] {
      WholeFileNoClash(fs[1..], crc);
    }
  }

  /** An uncut log replays to exactly the final map. */
  lemma {:induction false} WholeReplay(start: Node, n: Node, ops: seq<J.Op>, size: nat, crc: Checksum)
    requires J.Valid(n, size) && J.Valid(start, size) && Model(start) == Model(n)
    requires |OpsBytes(n, ops, size, crc)| <= Limit(|OpsBytes(n, ops, size, crc)|)
    ensures Model(ReplayFile(start, size, OpsBytes(n, ops, size, crc), crc).node) == J.RunMap(Model(n), ops)
  {
    var bytes := OpsBytes(n, ops, size, crc);
    WholeFileNoClash(Frames(J.Run(n, ops, size).log), crc);
    var k := CutReplay(start, n, ops, size, |bytes|, crc);
    assert bytes[..|bytes|] == bytes;
  }

  lemma {:induction false} SnapGenuine(n: Node, size: U64, id: nat, sum: U64, h: Sums)
    requires J.Valid(n, size)
    ensures Writable(n)
    ensures sum == h.modern(ToArray(n)) || sum == h.legacy(ToArray(n)) ==>
              Genuine(SnapFile(id, sum, SnapshotBytes(n, size)), h, Snapshot(n, size))
    ensures sum != h.modern(ToArray(n)) && sum != h.legacy(ToArray(n)) ==>
              Damaged(SnapFile(id, sum, SnapshotBytes(n, size)), h)
  {
    ValidWritable(n, [], size);
    var body := SnapshotBytes(n, size);
    SnapshotRoundTrip(n, size, |body|);
    assert body[..|body|] == body;
  }

  /** A newest snapshot that is whole but carries another sum, say because an entry was
      damaged: the restart falls back on the one before it and the log in between. */
  lemma {:induction false} WrongSumFallsBack(disk: Disk, h: Sums, n: Node, ops: seq<J.Op>, size: U64, last: nat)
    requires J.Valid(n, size) && 0 < last && last + 1 == |disk.snaps| && Damaged(disk.snaps[last], h)
    requires disk.snaps[last - 1] == SnapOf(n, size, disk.snaps[last - 1].id, h)
    requires WalAt(disk, disk.snaps[last].id) == OpsBytes(n, ops, size, h.crc)
    requires |OpsBytes(n, ops, size, h.crc)| < 0x1_0000_0000
    ensures Load(disk, h).Some? && Model(Load(disk, h).value) == J.RunMap(Model(n), ops)
  {
    hide J.Valid, ReplayFile, Model, Damaged, Genuine, Load, Limit, OpsBytes;
    SnapGenuine(n, size, disk.snaps[last - 1].id, h.modern(ToArray(n)), h);
    LoadStartsGenuine(disk, h, last - 1, Snapshot(n, size));
    SmallLimit(|OpsBytes(n, ops, size, h.crc)|);
    WholeReplay(n, n, ops, size, h.crc);
    var r := ReplayFile(n, size, WalAt(disk, disk.snaps[last].id), h.crc);
    assert Chain(n, size, disk, last, h.crc) == r.node;
  }

  /** A snapshot of an older writer, whose name has the older sum, is loaded with its log. */
  lemma {:induction false} LegacySumLoads(disk: Disk, h: Sums, n: Node, ops: seq<J.Op>, size: U64, last: nat)
    requires J.Valid(n, size) && Writable(n) && last + 1 == |disk.snaps|
    requires disk.snaps[last] == SnapFile(disk.snaps[last].id, h.legacy(ToArray(n)), SnapshotBytes(n, size))
    requires WalAt(disk, disk.snaps[last].id + 1) == OpsBytes(n, ops, size, h.crc)
    requires |OpsBytes(n, ops, size, h.crc)| < 0x1_0000_0000
    ensures Load(disk, h).Some? && Model(Load(disk, h).value) == J.RunMap(Model(n), ops)
  {
    hide J.Valid, ReplayFile, Model, Damaged, Genuine, Load, Limit, OpsBytes;
    SnapGenuine(n, size, disk.snaps[last].id, h.legacy(ToArray(n)), h);
    LoadStartsGenuine(disk, h, last, Snapshot(n, size));
    SmallLimit(|OpsBytes(n, ops, size, h.crc)|);
    WholeReplay(n, n, ops, size, h.crc);
  }

  // ---- rebuilding over several snapshots ----

  /** What the snapshots held, and the operations between each and the next. */
  datatype Past = Past(bases: seq<Node>, ops: seq<seq<J.Op>>)

  /** Log j + 1 holds what led from snapshot j to the next one. */
  predicate Segment(p: Past, disk: Disk, size: nat, crc: Checksum, j: nat)
    requires j + 1 < |p.bases| == |p.ops| + 1 == |disk.snaps| && J.Valid(p.bases[j], size)
  {
    && p.bases[j + 1] == J.Run(p.bases[j], p.ops[j], size).node
    && WalAt(disk, disk.snaps[j + 1].id) == OpsBytes(p.bases[j], p.ops[j], size, crc)
    && |WalAt(disk, disk.snaps[j + 1].id)| < 0x8000_0000
  }

  predicate Recorded(p: Past, disk: Disk, size: nat, crc: Checksum)
  {
    && |p.bases| == |p.ops| + 1 == |disk.snaps|
    && (forall j | 0 <= j < |p.bases| :: J.Valid(p.bases[j], size))
    && forall j | 0 <= j < |p.ops| :: Segment(p, disk, size, crc, j)
  }

  /** The snapshot a rebuild from log j reaches: the first empty log ends it. */
  function Reached(disk: Disk, j: nat): (r: nat)
    requires 0 < j <= |disk.snaps|
    ensures j - 1 <= r < |disk.snaps|
    decreases |disk.snaps| - j
  {
    if j == |disk.snaps| then j - 1
    else if WalAt(disk, disk.snaps[j].id) == [] then j
    else Reached(disk, j + 1)
  }

  /** A complete log ends cleanly if and only if it is not empty. */
  lemma {:induction false} CleanUnlessEmpty(start: Node, n: Node, ops: seq<J.Op>, size: nat, crc: Checksum)
    requires J.Valid(n, size) && J.Valid(start, size) && |OpsBytes(n, ops, size, crc)| < 0x8000_0000
    ensures ReplayFile(start, size, OpsBytes(n, ops, size, crc), crc).code == CLEAN_EOF
            <==> OpsBytes(n, ops, size, crc) != []
  {
    var log := J.Run(n, ops, size).log;
    FramesModern(log);
    ReadBackWritten(Frames(log), crc);
  }

  /** The rebuild branch: when newer snapshots are unusable, replaying the logs in
      between restores the map of the newest snapshot, but an empty log among them
      ends the rebuild there, since the reader takes it for a torn one. */
  lemma {:induction false} RebuildReaches(p: Past, disk: Disk, size: nat, crc: Checksum, start: Node, j: nat)
    requires Recorded(p, disk, size, crc) && 0 < j <= |disk.snaps|
    requires J.Valid(start, size) && Model(start) == Model(p.bases[j - 1])
    ensures Model(Chain(start, size, disk, j, crc)) == Model(p.bases[Reached(disk, j)])
    decreases |disk.snaps| - j
  {
    hide J.Valid, ReplayFile, OpsBytes, Model, J.Run, Limit;
    if j < |disk.snaps| {
      var n, ops := p.bases[j - 1], p.ops[j - 1];
      assert Segment(p, disk, size, crc, j - 1);
      SmallLimit(|OpsBytes(n, ops, size, crc)|);
      WholeReplay(start, n, ops, size, crc);
      CleanUnlessEmpty(start, n, ops, size, crc);
      var r := ReplayFile(start, size, OpsBytes(n, ops, size, crc), crc);
      if r.code == CLEAN_EOF {
        RebuildReaches(p, disk, size, crc, r.node, j + 1);
      }
    }
  }

  lemma SmallLimit(length: nat)
    requires length < 0x1_0000_0000
    ensures length <= Limit(length)
  {
  }

  // ---- the running store, step by step ----

  datatype Phase =
    | Idle
    | Writing(cut: nat)             // the next snapshot is on disk up to this byte
    | PruningSnaps(left: nat)       // so many old snapshots are still to go
    | PruningWals(firstKept: nat)   // logs below this id are to go

  /** `base` is the trie of the newest complete snapshot and `ops` what happened
      since.  Snapshot and log ids are counted separately, as in the source.
      `history` remembers every log file ever completed. */
  datatype State = State(
    base: Node,
    ops: seq<J.Op>,
    size: U64,
    fileId: nat,
    nextFileId: nat,
    walId: nat,
    nextWalId: nat,
    disk: Disk,
    phase: Phase,
    maxSnaps: nat,
    maxWals: nat,
    history: map<nat, seq<Byte>>)

  function Current(st: State): (n: Node)
    requires J.Valid(st.base, st.size)
    ensures J.Valid(n, st.size)
  {
    J.Run(st.base, st.ops, st.size).node
  }

  function SnapOf(n: Node, size: U64, id: nat, h: Sums): SnapFile
    requires J.Valid(n, size)
  {
    ValidWritable(n, [], size);
    SnapFile(id, h.modern(ToArray(n)), SnapshotBytes(n, size))
  }

  lemma {:induction false} ValidWritable(n: Node, path: seq<bool>, size: U64)
    requires |path| < BITS && Wf(n, path, size)
    ensures Writable(n)
    decreases n
  {
    Cbor.PowerValues();
    match n
    case Branch(left, right) =>
      ValidWritable(left, path + [false], size);
      ValidWritable(right, path + [true], size);
    case Leaf(b) =>
  }

  predicate Ascending(snaps: seq<SnapFile>)
  {
    forall i, j | 0 <= i < j < |snaps| :: snaps[i].id < snaps[j].id
  }

  /** The live log holds exactly the records of the operations since `base`. */
  predicate LiveLog(st: State, h: Sums)
    requires J.Valid(st.base, st.size)
  {
    && WalAt(st.disk, st.walId) == OpsBytes(st.base, st.ops, st.size, h.crc)
    && forall w | w in st.disk.wals :: w <= st.walId
  }

  /** Every completed log that a retained snapshot could need is still there. */
  predicate KeepsNeeded(st: State)
  {
    forall w | w in st.history && st.disk.snaps != [] && st.disk.snaps[0].id <= w ::
      WalAt(st.disk, w) == st.history[w]
  }

  /** Snapshot ids and log ids advance in lockstep. */
  predicate Lockstep(st: State)
  {
    0 < st.fileId == st.walId && st.nextFileId == st.nextWalId == st.walId + 1
  }

  predicate Inv(st: State, h: Sums)
  {
    && J.Valid(st.base, st.size) && Lockstep(st)
    && st.disk.snaps != [] && Ascending(st.disk.snaps)
    && LiveLog(st, h) && KeepsNeeded(st) && (forall w | w in st.history :: w < st.walId)
    && var last := |st.disk.snaps| - 1;
       match st.phase
       case Writing(cut) =>
         && last > 0
         && st.disk.snaps[last - 1] == SnapOf(st.base, st.size, st.fileId - 1, h)
         && var next := SnapOf(Current(st), st.size, st.fileId, h);
            cut <= |next.body| && st.disk.snaps[last] == next.(body := next.body[..cut])
       case PruningSnaps(left) =>
         left <= last && st.disk.snaps[last] == SnapOf(st.base, st.size, st.fileId - 1, h)
       case PruningWals(firstKept) =>
         firstKept <= st.disk.snaps[0].id && st.disk.snaps[last] == SnapOf(st.base, st.size, st.fileId - 1, h)
       case Idle =>
         st.disk.snaps[last] == SnapOf(st.base, st.size, st.fileId - 1, h)
  }

  datatype StoreStep =
    | Perform(op: J.Op)
    | Begin
    | Write(cut: nat)
    | Finish
    | PruneSnap
    | EndSnaps
    | PruneWal(id: nat)
    | Done

  predicate Enabled(st: State, step: StoreStep, h: Sums)
    requires J.Valid(st.base, st.size)
  {
    match step
    case Perform(_) => st.phase.Idle?
    case Begin => st.phase.Idle?
    case Write(cut) =>
      st.phase.Writing? && st.phase.cut <= cut <= |SnapOf(Current(st), st.size, st.fileId, h).body|
    case Finish => st.phase.Writing? && st.phase.cut == |SnapOf(Current(st), st.size, st.fileId, h).body|
    case PruneSnap => st.phase.PruningSnaps? && 0 < st.phase.left < |st.disk.snaps|
    case EndSnaps => st.phase.PruningSnaps? && st.phase.left == 0 && st.disk.snaps != []
    case PruneWal(id) => st.phase.PruningWals? && id < st.phase.firstKept
    case Done => st.phase.PruningWals? && forall w | w in st.disk.wals :: w >= st.phase.firstKept
  }

  /** How many snapshots a rollover prunes; a limit of 0 means none. */
  function Excess(count: nat, maxSnaps: nat): nat
  {
    if maxSnaps == 0 || count <= maxSnaps then 0 else count - maxSnaps
  }

  function Stepped(st: State, step: StoreStep, h: Sums): State
    requires J.Valid(st.base, st.size) && Enabled(st, step, h)
  {
    var snaps, last := st.disk.snaps, |st.disk.snaps| - 1;
    match step
    case Perform(op) =>
      var ops := st.ops + [op];
      var bytes := OpsBytes(st.base, ops, st.size, h.crc);
      var wals := if bytes == [] then st.disk.wals else st.disk.wals[st.walId := bytes];
      st.(ops := ops, disk := st.disk.(wals := wals))
    case Begin =>
      var next := SnapOf(Current(st), st.size, st.fileId, h);
      st.(disk := st.disk.(snaps := snaps + [next.(body := [])]), phase := Writing(0))
    case Write(cut) =>
      var next := SnapOf(Current(st), st.size, st.fileId, h);
      if last < 0 then st
      else st.(disk := st.disk.(snaps := snaps[last := next.(body := next.body[..cut])]), phase := Writing(cut))
    case Finish =>
      st.(base := Current(st), ops := [],
          fileId := st.nextFileId, nextFileId := st.nextFileId + 1,
          walId := st.nextWalId, nextWalId := st.nextWalId + 1,
          phase := PruningSnaps(Excess(|snaps|, st.maxSnaps)),
          history := st.history[st.walId := WalAt(st.disk, st.walId)])
    case PruneSnap =>
      st.(disk := st.disk.(snaps := snaps[1..]), phase := PruningSnaps(st.phase.left - 1))
    case EndSnaps =>
      st.(phase := PruningWals(if st.maxSnaps == 0 || st.maxWals == 0 then 0 else snaps[0].id))
    case PruneWal(id) =>
      st.(disk := st.disk.(wals := st.disk.wals - {id}))
    case Done =>
      st.(phase := Idle)
  }

  /** The log file after one more operation is the old file with the new records
      appended, so performing an operation only ever appends. */
  lemma {:induction false} PerformAppends(n: Node, ops: seq<J.Op>, op: J.Op, size: nat, crc: Checksum)
    requires J.Valid(n, size)
    ensures OpsBytes(n, ops, size, crc) <= OpsBytes(n, ops + [op], size, crc)
  {
    hide J.Valid, J.Run, FrameBytes;
    var all := ops + [op];
    assert all[..|ops|] == ops;
    J.LogGrows(n, all, size, |ops|);
    var a, b := J.Run(n, ops, size).log, J.Run(n, all, size).log;
    assert Frames(b) == Frames(a) + Frames(b[|a|..]);
    FileConcat(Frames(a), Frames(b[|a|..]), crc);
  }

  /** Every step keeps the invariant. */
  lemma {:induction false} StepKeepsInv(st: State, step: StoreStep, h: Sums)
    requires Inv(st, h) && Enabled(st, step, h)
    ensures Inv(Stepped(st, step, h), h)
  {
    match step
    case Perform(op) => PerformKeepsInv(st, op, h);
    case Begin => WriteKeepsInv(st, step, h);
    case Write(cut) => WriteKeepsInv(st, step, h);
    case Finish => FinishKeepsInv(st, h);
    case PruneSnap => PruneKeepsInv(st, step, h);
    case EndSnaps => PruneKeepsInv(st, step, h);
    case PruneWal(id) => PruneKeepsInv(st, step, h);
    case Done => PruneKeepsInv(st, step, h);
  }

  lemma {:induction false} PerformKeepsInv(st: State, op: J.Op, h: Sums)
    requires Inv(st, h) && Enabled(st, Perform(op), h)
    ensures Inv(Stepped(st, Perform(op), h), h)
  {
    PerformAppends(st.base, st.ops, op, st.size, h.crc);
    hide SnapOf, OpsBytes, Current, J.Valid;
  }

  lemma {:induction false} WriteKeepsInv(st: State, step: StoreStep, h: Sums)
    requires Inv(st, h) && (step.Begin? || step.Write?) && Enabled(st, step, h)
    ensures Inv(Stepped(st, step, h), h)
  {
    hide SnapOf, OpsBytes, J.Run, J.Valid;
    SnapId(st.base, st.size, st.fileId - 1, h);
    SnapId(Current(st), st.size, st.fileId, h);
    var next := SnapOf(Current(st), st.size, st.fileId, h);
    assert next.body[..0] == [];
  }

  lemma SnapId(n: Node, size: U64, id: nat, h: Sums)
    requires J.Valid(n, size)
    ensures SnapOf(n, size, id, h).id == id
  {
  }

  lemma {:induction false} PruneKeepsInv(st: State, step: StoreStep, h: Sums)
    requires Inv(st, h) && (step.PruneSnap? || step.EndSnaps? || step.PruneWal? || step.Done?) && Enabled(st, step, h)
    ensures Inv(Stepped(st, step, h), h)
  {
    hide SnapOf, OpsBytes, Current, J.Valid;
    SnapId(st.base, st.size, st.fileId - 1, h);
  }

  lemma {:induction false} FinishKeepsInv(st: State, h: Sums)
    requires Inv(st, h) && Enabled(st, Finish, h)
    ensures Inv(Stepped(st, Finish, h), h)
  {
    NoOps(Current(st), st.size, h.crc);
    hide SnapOf, OpsBytes, Current, J.Valid;
    var next := SnapOf(Current(st), st.size, st.fileId, h);
    assert next.body[..st.phase.cut] == next.body;
  }

  lemma NoOps(n: Node, size: nat, crc: Checksum)
    requires J.Valid(n, size)
    ensures OpsBytes(n, [], size, crc) == []
  {
    assert Frames([]) == [];
  }

  // ---- the crash ----

  /** The disk as a crash leaves it when the live log kept only `cut` bytes. */
  function Crashed(st: State, cut: nat): Disk
    requires cut <= |WalAt(st.disk, st.walId)|
  {
    if st.walId in st.disk.wals
    then st.disk.(wals := st.disk.wals[st.walId := WalAt(st.disk, st.walId)[..cut]])
    else st.disk
  }

  lemma {:induction false} UsableFull(n: Node, size: U64, id: nat, h: Sums)
    requires J.Valid(n, size)
    ensures Usable(SnapOf(n, size, id, h), h) == Some(Snapshot(n, size))
  {
    ValidWritable(n, [], size);
    var body := SnapshotBytes(n, size);
    SnapshotRoundTrip(n, size, |body|);
    assert body[..|body|] == body;
  }

  lemma {:induction false} TornUnusable(n: Node, size: U64, id: nat, h: Sums, cut: nat)
    requires J.Valid(n, size) && cut < |SnapOf(n, size, id, h).body|
    ensures var f := SnapOf(n, size, id, h); Usable(f.(body := f.body[..cut]), h).None?
  {
    ValidWritable(n, [], size);
    SnapshotRoundTrip(n, size, cut);
  }

  /** The snapshot being written counts once its last byte is on disk. */
  predicate SnapshotDone(st: State, h: Sums)
    requires J.Valid(st.base, st.size)
  {
    st.phase.Writing? && st.phase.cut == |SnapOf(Current(st), st.size, st.fileId, h).body|
  }

  lemma {:induction false} LoadNewest(disk: Disk, h: Sums, s: Snapshot)
    requires disk.snaps != [] && Usable(disk.snaps[|disk.snaps| - 1], h) == Some(s)
    ensures Load(disk, h) ==
            Some(ReplayFile(s.node, s.size, WalAt(disk, disk.snaps[|disk.snaps| - 1].id + 1), h.crc).node)
  {
    hide Usable, ReplayFile, Chain, J.Valid;
  }

  lemma {:induction false} LoadPrevious(disk: Disk, h: Sums, s: Snapshot)
    requires |disk.snaps| > 1 && Usable(disk.snaps[|disk.snaps| - 1], h).None?
    requires Usable(disk.snaps[|disk.snaps| - 2], h) == Some(s)
    ensures Load(disk, h) == Some(ReplayFile(s.node, s.size, WalAt(disk, disk.snaps[|disk.snaps| - 1].id), h.crc).node)
  {
    hide Usable, ReplayFile, J.Valid;
    var last := |disk.snaps| - 1;
    assert Newest(disk.snaps, |disk.snaps|, h) == last;
    var r := ReplayFile(s.node, s.size, WalAt(disk, disk.snaps[last].id), h.crc);
    assert Chain(r.node, s.size, disk, last + 1, h.crc) == r.node;
  }

  /** A crash after the last byte of a snapshot loads that snapshot and nothing else. */
  lemma {:induction false} LoadDone(st: State, h: Sums, cut: nat)
    requires Inv(st, h) && SnapshotDone(st, h) && cut <= |WalAt(st.disk, st.walId)|
    ensures Load(Crashed(st, cut), h).Some?
    ensures Model(Load(Crashed(st, cut), h).value) == Model(Current(st))
  {
    hide Usable, ReplayFile, SnapOf, J.Valid, J.RunMap, Load, OpsBytes, Model, Current;
    var node, disk := Current(st), Crashed(st, cut);
    UsableFull(node, st.size, st.fileId, h);
    SnapId(node, st.size, st.fileId, h);
    NoOps(node, st.size, h.crc);
    WholeReplay(node, node, [], st.size, h.crc);
    var next := SnapOf(node, st.size, st.fileId, h);
    assert next.body[..st.phase.cut] == next.body;
    LoadNewest(disk, h, Snapshot(node, st.size));
    assert J.RunMap(Model(node), []) == Model(node) by {
      EmptyRun(Model(node));
    }
  }

  lemma EmptyRun(m: Map)
    ensures J.RunMap(m, []) == m
  {
  }

  /** Any other crash replays the live log over the snapshot before it, through
      the happy path or, past a torn snapshot, through the rebuild. */
  lemma {:induction false} LoadLive(st: State, h: Sums, cut: nat)
    requires Inv(st, h) && !SnapshotDone(st, h) && cut <= |WalAt(st.disk, st.walId)|
    ensures Load(Crashed(st, cut), h)
            == Some(ReplayFile(st.base, st.size, WalAt(st.disk, st.walId)[..cut], h.crc).node)
  {
    hide Usable, ReplayFile, SnapOf, J.Valid, Load, OpsBytes, Current;
    var disk := Crashed(st, cut);
    UsableFull(st.base, st.size, st.fileId - 1, h);
    SnapId(st.base, st.size, st.fileId - 1, h);
    assert WalAt(disk, st.walId) == WalAt(st.disk, st.walId)[..cut];
    if st.phase.Writing? {
      TornUnusable(Current(st), st.size, st.fileId, h, st.phase.cut);
      SnapId(Current(st), st.size, st.fileId, h);
      LoadPrevious(disk, h, Snapshot(st.base, st.size));
    } else {
      LoadNewest(disk, h, Snapshot(st.base, st.size));
    }
  }

  /** Single-crash recovery.  In every state of the store, with the live log cut at
      any byte, a restart loads the map as it was after the first k operations since
      the last snapshot; if no byte of the log is lost, it is the map at the crash. */
  lemma {:induction false} CrashRecovers(st: State, h: Sums, cut: nat) returns (k: nat)
    requires Inv(st, h) && cut <= |WalAt(st.disk, st.walId)| && cut <= Limit(cut)
    requires !CutClashes(Frames(J.Run(st.base, st.ops, st.size).log), cut, h.crc)
    ensures k <= |st.ops| && Load(Crashed(st, cut), h).Some?
    ensures Model(Load(Crashed(st, cut), h).value) == J.RunMap(Model(st.base), st.ops[..k])
    ensures cut == |WalAt(st.disk, st.walId)| ==> Model(Load(Crashed(st, cut), h).value) == Model(Current(st))
  {
    if SnapshotDone(st, h) {
      LoadDone(st, h, cut);
      k := |st.ops|;
      assert st.ops[..k] == st.ops;
    } else {
      LoadLive(st, h, cut);
      k := CutReplay(st.base, st.base, st.ops, st.size, cut, h.crc);
    }
  }

  /** The state after a sequence of steps, None if one of them is not enabled. */
  function RunSteps(st: State, steps: seq<StoreStep>, h: Sums): Option<State>
    decreases |steps|
  {
    if steps == [] then Some(st)
    else
      var before :- RunSteps(st, steps[..|steps| - 1], h);
      var step := steps[|steps| - 1];
      if J.Valid(before.base, before.size) && Enabled(before, step, h) then Some(Stepped(before, step, h)) else None
  }

  /** From a store whose newest snapshot is valid, after every run of operations,
      snapshot writes and prunings, a crash is recovered to exactly the map at the
      crash, and no log that a retained snapshot could need has been pruned. */
  lemma {:induction false} RunRecovers(st: State, steps: seq<StoreStep>, h: Sums)
    requires Inv(st, h) && RunSteps(st, steps, h).Some?
    ensures var st' := RunSteps(st, steps, h).value;
            && Inv(st', h) && KeepsNeeded(st')
            && (|WalAt(st'.disk, st'.walId)| < 0x1_0000_0000 ==>
                  && Load(st'.disk, h).Some?
                  && Model(Load(st'.disk, h).value) == Model(Current(st')))
    decreases |steps|
  {
    hide J.Valid, SnapOf, J.Run, Load, Model, CutClashes, Current, RunSteps;
    RunKeepsInv(st, steps, h);
    var st' := RunSteps(st, steps, h).value;
    var all := |WalAt(st'.disk, st'.walId)|;
    if all < 0x1_0000_0000 {
      WholeFileNoClash(Frames(J.Run(st'.base, st'.ops, st'.size).log), h.crc);
      assert WalAt(st'.disk, st'.walId)[..all] == WalAt(st'.disk, st'.walId);
      assert Crashed(st', all).wals == st'.disk.wals;
      var k := CrashRecovers(st', h, all);
    }
  }

  lemma {:induction false} RunKeepsInv(st: State, steps: seq<StoreStep>, h: Sums)
    requires Inv(st, h) && RunSteps(st, steps, h).Some?
    ensures Inv(RunSteps(st, steps, h).value, h)
    decreases |steps|
  {
    if steps != [] {
      RunKeepsInv(st, steps[..|steps| - 1], h);
      StepKeepsInv(RunSteps(st, steps[..|steps| - 1], h).value, steps[|steps| - 1], h);
    }
  }

  // ---- what a rollover leaves ----

  /** The newest files that a limit leaves; a limit of 0 leaves all. */
  function NewestFiles(snaps: seq<SnapFile>, limit: nat): seq<SnapFile>
  {
    if limit == 0 || |snaps| <= limit then snaps else snaps[|snaps| - limit..]
  }

  function Prunings(k: nat): seq<StoreStep>
  {
    seq(k, _ => PruneSnap)
  }

  lemma RunOneMore(st: State, steps: seq<StoreStep>, step: StoreStep, h: Sums)
    ensures RunSteps(st, steps + [step], h) ==
            match RunSteps(st, steps, h)
            case None => None
            case Some(t) =>
              if J.Valid(t.base, t.size) && Enabled(t, step, h) then Some(Stepped(t, step, h)) else None
  {
    hide J.Valid, Enabled, Stepped;
    assert (steps + [step])[..|steps|] == steps;
  }

  /** So many snapshots are still to go, and the newest of them stay. */
  predicate Pruned(st: State, r: State, k: nat)
  {
    var n, kept := |st.disk.snaps|, |NewestFiles(st.disk.snaps, st.maxSnaps)|;
    && k + kept <= n
    && r.disk == st.disk.(snaps := st.disk.snaps[k..]) && r.phase == PruningSnaps(n - kept - k)
    && r.maxSnaps == st.maxSnaps && r.maxWals == st.maxWals
  }

  lemma FinishPrunes(st: State, h: Sums)
    requires J.Valid(st.base, st.size) && Enabled(st, Finish, h)
    ensures Pruned(st, Stepped(st, Finish, h), 0)
  {
    hide J.Valid, SnapOf, Current;
    assert st.disk.snaps[0..] == st.disk.snaps;
  }

  lemma PrunesOne(st: State, r: State, h: Sums, k: nat)
    requires Pruned(st, r, k) && J.Valid(r.base, r.size) && st.disk.snaps != []
    ensures var n, kept := |st.disk.snaps|, |NewestFiles(st.disk.snaps, st.maxSnaps)|;
            && (Enabled(r, PruneSnap, h) <==> k + 1 + kept <= n)
            && (Enabled(r, PruneSnap, h) ==> Pruned(st, Stepped(r, PruneSnap, h), k + 1))
  {
    hide J.Valid;
    if k < |st.disk.snaps| {
      assert st.disk.snaps[k..][1..] == st.disk.snaps[k + 1..];
    }
  }

  /** The prunings after the snapshot is written. */
  lemma {:induction false} PruningRun(st: State, h: Sums, k: nat)
    requires Inv(st, h) && Enabled(st, Finish, h)
    ensures var r := RunSteps(st, [Finish] + Prunings(k), h);
            && (r.Some? <==> k + |NewestFiles(st.disk.snaps, st.maxSnaps)| <= |st.disk.snaps|)
            && (r.Some? ==> Pruned(st, r.value, k))
  {
    hide J.Valid, SnapOf, Current, Enabled, Stepped, Pruned, NewestFiles;
    var steps := [Finish] + Prunings(k);
    if k == 0 {
      assert steps == [] + [Finish];
      RunOneMore(st, [], Finish, h);
      FinishPrunes(st, h);
      FewerFiles(st.disk.snaps, st.maxSnaps);
    } else {
      assert steps == ([Finish] + Prunings(k - 1)) + [PruneSnap];
      PruningRun(st, h, k - 1);
      RunOneMore(st, [Finish] + Prunings(k - 1), PruneSnap, h);
      var r := RunSteps(st, [Finish] + Prunings(k - 1), h);
      if r.Some? {
        RunValid(st, [Finish] + Prunings(k - 1), h);
        PrunesOne(st, r.value, h, k - 1);
      }
    }
  }

  lemma FewerFiles(snaps: seq<SnapFile>, limit: nat)
    ensures |NewestFiles(snaps, limit)| <= |snaps|
  {
  }

  lemma RunValid(st: State, steps: seq<StoreStep>, h: Sums)
    requires Inv(st, h) && RunSteps(st, steps, h).Some?
    ensures var r := RunSteps(st, steps, h).value; J.Valid(r.base, r.size)
  {
    hide RunSteps, J.Valid, LiveLog, KeepsNeeded;
    RunKeepsInv(st, steps, h);
  }

  /** A rollover prunes until exactly the newest files that the limit allows are left, no
      more and no fewer, and then turns to the logs older than the oldest of them. */
  lemma {:induction false} RolloverKeepsNewest(st: State, h: Sums, k: nat)
    requires Inv(st, h) && Enabled(st, Finish, h)
    ensures var kept := NewestFiles(st.disk.snaps, st.maxSnaps);
            var r := RunSteps(st, [Finish] + Prunings(k) + [EndSnaps], h);
            && (r.Some? <==> k + |kept| == |st.disk.snaps|)
            && (r.Some? ==>
                  && r.value.disk == st.disk.(snaps := kept) && kept != []
                  && r.value.phase == PruningWals(if st.maxSnaps == 0 || st.maxWals == 0 then 0 else kept[0].id))
  {
    hide J.Valid, SnapOf, Current, RunSteps;
    PruningRun(st, h, k);
    RunOneMore(st, [Finish] + Prunings(k), EndSnaps, h);
    var r := RunSteps(st, [Finish] + Prunings(k), h);
    if r.Some? {
      RunValid(st, [Finish] + Prunings(k), h);
    }
  }

  /** When the rollover is over every log older than the kept snapshots is gone, and
      nothing else is. */
  lemma {:induction false} LogsPruned(st: State, h: Sums, ids: seq<nat>)
    requires J.Valid(st.base, st.size) && st.phase.PruningWals?
    ensures var r := RunSteps(st, seq(|ids|, i requires 0 <= i < |ids| => PruneWal(ids[i])) + [Done], h);
            r.Some? ==>
              && r.value.phase.Idle? && r.value.disk.snaps == st.disk.snaps
              && r.value.disk.wals == map w | w in st.disk.wals && w >= st.phase.firstKept :: st.disk.wals[w]
  {
    hide J.Valid;
    PruneWals(st, h, ids);
    var steps := seq(|ids|, i requires 0 <= i < |ids| => PruneWal(ids[i]));
    RunOneMore(st, steps, Done, h);
  }

  lemma {:induction false} PruneWals(st: State, h: Sums, ids: seq<nat>)
    requires J.Valid(st.base, st.size) && st.phase.PruningWals?
    ensures var r := RunSteps(st, seq(|ids|, i requires 0 <= i < |ids| => PruneWal(ids[i])), h);
            r.Some? ==>
              && r.value == st.(disk := st.disk.(wals := r.value.disk.wals))
              && (forall w | w in r.value.disk.wals ::
                    w in st.disk.wals && r.value.disk.wals[w] == st.disk.wals[w])
              && (forall w | w in st.disk.wals && w >= st.phase.firstKept :: w in r.value.disk.wals)
  {
    hide J.Valid;
    var steps := seq(|ids|, i requires 0 <= i < |ids| => PruneWal(ids[i]));
    if ids == [] {
      assert steps == [];
    } else {
      var init := ids[..|ids| - 1];
      var before := seq(|init|, i requires 0 <= i < |init| => PruneWal(init[i]));
      assert steps == before + [PruneWal(ids[|ids| - 1])];
      PruneWals(st, h, init);
      RunOneMore(st, before, PruneWal(ids[|ids| - 1]), h);
    }
  }

  lemma {:induction false} OneAddition(e: Entry, size: nat, crc: Checksum)
    requires J.Valid(Leaf([]), size)
    ensures J.Run(Leaf([]), [J.AddOp(e)], size) == Step(Leaf([e]), [Addition(e)])
    ensures |OpsBytes(Leaf([]), [J.AddOp(e)], size, crc)| == 91
  {
    var ops := [J.AddOp(e)];
    assert ops[..0] == [];
    assert J.Run(Leaf([]), ops, size).log == [] + [Addition(e)] == [Addition(e)];
    OneFrame(Addition(e), crc);
  }

  lemma OneFrame(r: Record, crc: Checksum)
    ensures PayloadSize(Tag(r), false).Some?
    ensures |LogBytes([r], crc)| == 5 + PayloadSize(Tag(r), false).value
  {
    RecordSize(r);
    var fs := Frames([r]);
    assert fs == [Frame(Tag(r), Payload(r))] && fs[1..] == [];
    FrameParts(fs[0], crc, []);
    assert FileBytes(fs, crc) == FrameBytes(fs[0], crc) + FileBytes([], crc);
  }

  lemma EmptyUnusable(id: nat, h: Sums)
    ensures Usable(SnapFile(id, 0, []), h).None?
  {
  }

  lemma {:induction false} LoadOldest(disk: Disk, h: Sums, s: Snapshot)
    requires |disk.snaps| == 3 && Usable(disk.snaps[0], h) == Some(s)
    requires Usable(disk.snaps[1], h).None? && Usable(disk.snaps[2], h).None?
    ensures Load(disk, h) == Some(Chain(s.node, s.size, disk, 1, h.crc))
  {
    hide Usable, Chain, J.Valid;
    assert Newest(disk.snaps, 3, h) == Newest(disk.snaps, 2, h) == Newest(disk.snaps, 1, h) == 1;
  }

  /** Three snapshots, of which the newer two are damaged; nothing happened before
      the second and an entry was added before the third. */
  function GapDisk(e: Entry, size: U64, h: Sums): (disk: Disk)
    requires size >= 2
  {
    assert J.Valid(Leaf([]), size);
    Disk([SnapOf(Leaf([]), size, 1, h), SnapFile(2, 0, []), SnapFile(3, 0, [])],
         map[3 := OpsBytes(Leaf([]), [J.AddOp(e)], size, h.crc)])
  }

  function GapPast(e: Entry): Past
  {
    Past([Leaf([]), Leaf([]), Leaf([e])], [[], [J.AddOp(e)]])
  }

  lemma {:induction false} GapSegments(e: Entry, size: U64, h: Sums)
    requires size >= 2
    ensures J.Valid(Leaf([]), size) && J.Valid(Leaf([e]), size)
    ensures Segment(GapPast(e), GapDisk(e, size, h), size, h.crc, 0)
    ensures Segment(GapPast(e), GapDisk(e, size, h), size, h.crc, 1)
  {
    var empty := Leaf([]);
    assert J.Valid(empty, size) && J.Valid(Leaf([e]), size);
    OneAddition(e, size, h.crc);
    NoOps(empty, size, h.crc);
    assert J.Run(empty, [], size).node == empty;
    hide SnapOf, OpsBytes, J.Valid, J.Run;
  }

  lemma {:induction false} GapRecorded(e: Entry, size: U64, h: Sums)
    requires size >= 2
    ensures Recorded(GapPast(e), GapDisk(e, size, h), size, h.crc)
  {
    hide Segment, SnapOf, OpsBytes, J.Valid;
    GapSegments(e, size, h);
  }

  /** An empty log in the middle loses what the logs after it hold: the restart does
      not have the entry. */
  lemma {:induction false} EmptyLogLosesEntry(e: Entry, size: U64, h: Sums)
    requires size >= 2
    ensures var disk := GapDisk(e, size, h);
            && Recorded(GapPast(e), disk, size, h.crc) && e.hash in Model(GapPast(e).bases[2])
            && Load(disk, h).Some? && e.hash !in Model(Load(disk, h).value)
  {
    var disk := GapDisk(e, size, h);
    var empty := Leaf([]);
    assert J.Valid(empty, size);
    GapRecorded(e, size, h);
    UsableFull(empty, size, 1, h);
    EmptyUnusable(2, h);
    EmptyUnusable(3, h);
    hide Usable, SnapOf, OpsBytes, Chain, Recorded;
    LoadOldest(disk, h, Snapshot(empty, size));
    RebuildReaches(GapPast(e), disk, size, h.crc, empty, 1);
    assert Reached(disk, 1) == 1;
  }
}
