/**
 The write-ahead log file: records framed as a tag byte, a four-byte checksum
 and a payload whose length follows from the tag.

 Older writers used 78-byte payloads for additions and increments where newer
 ones use 86.  The reader tries 86 first, retries at 78, and a record that
 verifies at 78 makes the short form stick for the rest of the file.  The
 checksum is a parameter, so every condition on it is spelled out.
 */
module Wal {
  import opened Entries
  import opened Cbor
  import opened Codec

  type Checksum = seq<Byte> -> U32

  datatype Frame = Frame(tag: Byte, payload: seq<Byte>)

  const CLEAN_EOF := -3
  const SHORT_TYPE := 1
  const SHORT_CRC := 2
  const SHORT_PAYLOAD := 3
  const BAD_CRC := 4
  const UNKNOWN_TYPE := 5

  function FrameBytes(f: Frame, crc: Checksum): seq<Byte>
  {
    [f.tag] + BE(crc(f.payload), 4) + f.payload
  }

  function FileBytes(fs: seq<Frame>, crc: Checksum): seq<Byte>
  {
    if fs == [] then [] else FrameBytes(fs[0], crc) + FileBytes(fs[1..], crc)
  }

  datatype Outcome =
    | Read(frame: Frame, length: nat, legacy: bool)
    | Stop(code: int)

  predicate IsEntry(tag: Byte)
  {
    tag == ADD || tag == INCREMENT
  }

  /** The payload of a record, if it is complete and verifies. */
  function Verified(s: seq<Byte>, size: nat, crc: Checksum, legacy: bool): Outcome
    requires |s| >= 5
  {
    if |s| < 5 + size then Stop(SHORT_PAYLOAD)
    else if s[1..5] != BE(crc(s[5..5 + size]), 4) then Stop(BAD_CRC)
    else Read(Frame(s[0], s[5..5 + size]), 5 + size, legacy)
  }

  /** One record off the front of the remaining bytes. */
  function ReadOne(s: seq<Byte>, legacy: bool, crc: Checksum): (o: Outcome)
    ensures o.Read? ==> 5 <= o.length <= |s|
  {
    if |s| < 1 then Stop(SHORT_TYPE)
    else if |s| < 5 then Stop(SHORT_CRC)
    else if PayloadSize(s[0], legacy).None? then Stop(UNKNOWN_TYPE)
    else
      var first := Verified(s, PayloadSize(s[0], legacy).value, crc, legacy);
      if first.Stop? && IsEntry(s[0]) && !legacy then Verified(s, 78, crc, true) else first
  }

  /** The file size as the reader keeps it: truncated to a signed 32-bit integer,
      then compared as an unsigned 64-bit one. */
  function Limit(length: nat): nat
  {
    var low := length % 0x1_0000_0000;
    if low < 0x8000_0000 then low else 0x1_0000_0000_0000_0000 - 0x1_0000_0000 + low
  }

  datatype Recovered = Recovered(frames: seq<Frame>, code: int)

  /** The replay loop.  Only the first read skips the end-of-file test. */
  function ReadAll(file: seq<Byte>, cursor: nat, legacy: bool, first: bool, crc: Checksum): Recovered
    requires cursor <= |file|
    decreases |file| - cursor
  {
    if !first && cursor >= Limit(|file|) then Recovered([], CLEAN_EOF)
    else
      match ReadOne(file[cursor..], legacy, crc)
      case Stop(code) => Recovered([], code)
      case Read(frame, length, legacy') =>
        if cursor + length > Limit(|file|) then Recovered([], 0)
        else
          var rest := ReadAll(file, cursor + length, legacy', false, crc);
          Recovered([frame] + rest.frames, rest.code)
  }

  function Recover(file: seq<Byte>, crc: Checksum): Recovered
  {
    ReadAll(file, 0, false, true, crc)
  }

  // ---- the file object ----

  class WalFile {
    const crc: Checksum
    var file: seq<Byte>
    var isOpen: bool
    var legacyEntrySize: bool

    constructor (crc: Checksum, file: seq<Byte>)
      ensures this.crc == crc && this.file == file && !isOpen && !legacyEntrySize
    {
      this.crc, this.file := crc, file;
      isOpen, legacyEntrySize := false, false;
    }

    method Write(tag: Byte, data: seq<Byte>)
      modifies `file, `isOpen
      ensures file == old(file) + FrameBytes(Frame(tag, data), crc)
    {
      isOpen := true;
      file := file + [tag];
      file := file + BE(crc(data), 4);
      file := file + data;
      assert FrameBytes(Frame(tag, data), crc) == [tag] + BE(crc(data), 4) + data;
    }

    /** Retry a record at another payload size. */
    method ReadPayload(start: nat, size: nat, legacy: bool) returns (o: Outcome)
      requires start + 5 <= |file|
      modifies `legacyEntrySize
      ensures o == Verified(file[start..], size, crc, legacy)
      ensures legacyEntrySize == (old(legacyEntrySize) || (legacy && o.Read?))
    {
      var rest := file[start..];
      if |rest| < 5 + size {
        return Stop(SHORT_PAYLOAD);
      }
      var buf := rest[5..5 + size];
      if rest[1..5] != BE(crc(buf), 4) {
        return Stop(BAD_CRC);
      }
      if legacy {
        legacyEntrySize := true;
      }
      o := Read(Frame(rest[0], buf), 5 + size, legacy);
    }

    method ReadRecord(cursor: nat) returns (o: Outcome)
      requires cursor <= |file|
      modifies `isOpen, `legacyEntrySize
      ensures isOpen
      ensures o == if old(isOpen) && cursor >= Limit(|file|) then Stop(CLEAN_EOF)
                   else ReadOne(file[cursor..], old(legacyEntrySize), crc)
      ensures legacyEntrySize == if o.Read? then o.legacy else old(legacyEntrySize)
    {
      if !isOpen {
        isOpen := true;
      } else if cursor >= Limit(|file|) {
        return Stop(CLEAN_EOF);
      }
      if |file| - cursor < 1 {
        return Stop(SHORT_TYPE);
      }
      if |file| - cursor < 5 {
        return Stop(SHORT_CRC);
      }
      var tag := file[cursor];
      var size := PayloadSize(tag, legacyEntrySize);
      if size.None? {
        return Stop(UNKNOWN_TYPE);
      }
      var legacy := legacyEntrySize;
      o := ReadPayload(cursor, size.value, legacy);
      if o.Stop? && IsEntry(tag) && !legacy {
        o := ReadPayload(cursor, 78, true);
      }
    }

    /** Read records until the reader stops. */
    method ReadBack() returns (r: Recovered)
      requires !isOpen && !legacyEntrySize
      modifies `isOpen, `legacyEntrySize
      ensures r == Recover(file, crc)
    {
      hide ReadOne, Limit;
      var frames: seq<Frame> := [];
      var cursor := 0;
      ghost var rest := Recover(file, crc);
      while true
        invariant cursor <= |file|
        invariant rest == ReadAll(file, cursor, legacyEntrySize, !isOpen, crc)
        invariant Recover(file, crc) == Recovered(frames + rest.frames, rest.code)
        decreases |file| - cursor
      {
        var o := ReadRecord(cursor);
        if o.Stop? || cursor + o.length > Limit(|file|) {
          assert rest.frames == [];
          return Recovered(frames, if o.Stop? then o.code else 0);
        }
        cursor := cursor + o.length;
        ghost var later := ReadAll(file, cursor, legacyEntrySize, !isOpen, crc);
        assert rest == Recovered([o.frame] + later.frames, later.code);
        assert frames + rest.frames == frames + [o.frame] + later.frames;
        frames, rest := frames + [o.frame], later;
      }
    }
  }

  // ---- reading back a modern file ----

  /** The payload has the length that goes with the tag. */
  predicate Sized(f: Frame, legacy: bool)
  {
    PayloadSize(f.tag, legacy) == Some(|f.payload|)
  }

  predicate AllSized(fs: seq<Frame>, legacy: bool)
  {
    forall i | 0 <= i < |fs| :: Sized(fs[i], legacy)
  }

  predicate AllModern(fs: seq<Frame>)
  {
    AllSized(fs, false)
  }

  /** Legacy writers had no metadata records. */
  predicate AllLegacy(fs: seq<Frame>)
  {
    AllSized(fs, true) && forall i | 0 <= i < |fs| :: fs[i].tag != META
  }

  lemma FrameParts(f: Frame, crc: Checksum, rest: seq<Byte>)
    ensures var s := FrameBytes(f, crc) + rest;
            && |FrameBytes(f, crc)| == 5 + |f.payload|
            && s[0] == f.tag && s[1..5] == BE(crc(f.payload), 4) && s[5..5 + |f.payload|] == f.payload
            && s[5 + |f.payload|..] == rest
  {
  }

  /** A frame is read back off the front of a file, in either form. */
  lemma {:induction false} ReadWritten(f: Frame, legacy: bool, crc: Checksum, rest: seq<Byte>)
    requires Sized(f, legacy)
    ensures ReadOne(FrameBytes(f, crc) + rest, legacy, crc) == Read(f, |FrameBytes(f, crc)|, legacy)
  {
    FrameParts(f, crc, rest);
  }

  function EndCode(length: nat, first: bool): int
  {
    if first || length < Limit(length) then SHORT_TYPE else CLEAN_EOF
  }

  /** One turn of the loop over a file that starts with a whole frame. */
  lemma {:induction false} ReadAllStep(file: seq<Byte>, cursor: nat, legacy: bool, first: bool, f: Frame,
                                       rest: seq<Byte>, crc: Checksum)
    requires cursor <= |file| <= Limit(|file|) && file[cursor..] == FrameBytes(f, crc) + rest
    requires Sized(f, legacy)
    ensures var next := cursor + |FrameBytes(f, crc)|;
            && cursor < next <= |file| && file[next..] == rest
            && var later := ReadAll(file, next, legacy, false, crc);
               ReadAll(file, cursor, legacy, first, crc) == Recovered([f] + later.frames, later.code)
  {
    ReadWritten(f, legacy, crc, rest);
    FrameParts(f, crc, rest);
    hide ReadOne, Limit;
    var next := cursor + |FrameBytes(f, crc)|;
    assert |file| - cursor == |FrameBytes(f, crc) + rest|;
    assert file[next..] == file[cursor..][|FrameBytes(f, crc)|..] == rest;
  }

  lemma FileSplit(fs: seq<Frame>, crc: Checksum)
    requires fs != []
    ensures FileBytes(fs, crc) == FrameBytes(fs[0], crc) + FileBytes(fs[1..], crc) && [fs[0]] + fs[1..] == fs
  {
    hide FrameBytes;
  }

  lemma {:induction false} ReadAllWritten(file: seq<Byte>, cursor: nat, legacy: bool, first: bool, fs: seq<Frame>,
                                          crc: Checksum)
    requires cursor <= |file| <= Limit(|file|) && file[cursor..] == FileBytes(fs, crc)
    requires AllSized(fs, legacy)
    ensures ReadAll(file, cursor, legacy, first, crc) == Recovered(fs, EndCode(|file|, first && fs == []))
    decreases |fs|
  {
    hide ReadAll, FileBytes, FrameBytes, Limit, Sized, EndCode;
    if fs == [] {
      NoFrames(crc);
      ReadAllDone(file, cursor, legacy, first, crc);
    } else {
      var f, others := fs[0], fs[1..];
      FileSplit(fs, crc);
      ReadAllStep(file, cursor, legacy, first, f, FileBytes(others, crc), crc);
      ReadAllWritten(file, cursor + |FrameBytes(f, crc)|, legacy, false, others, crc);
    }
  }

  lemma NoFrames(crc: Checksum)
    ensures FileBytes([], crc) == []
  {
  }

  /** At the end of the file. */
  lemma ReadAllDone(file: seq<Byte>, cursor: nat, legacy: bool, first: bool, crc: Checksum)
    requires cursor <= |file| <= Limit(|file|) && file[cursor..] == []
    ensures ReadAll(file, cursor, legacy, first, crc) == Recovered([], EndCode(|file|, first))
  {
    hide Limit;
    assert |file| - cursor == 0;
  }

  /** A written file is read back record by record.  The reader then reports a
      clean end, except on an empty file, which it takes for a short record. */
  lemma {:induction false} ReadBackWritten(fs: seq<Frame>, crc: Checksum)
    requires AllModern(fs) && |FileBytes(fs, crc)| < 0x8000_0000
    ensures Recover(FileBytes(fs, crc), crc) == Recovered(fs, if fs == [] then SHORT_TYPE else CLEAN_EOF)
  {
    var file := FileBytes(fs, crc);
    assert file[0..] == file;
    ReadAllWritten(file, 0, false, true, fs, crc);
  }

  lemma {:induction false} ReadLength(s: seq<Byte>, legacy: bool, crc: Checksum)
    ensures var o := ReadOne(s, legacy, crc); o.Read? ==> o.length == |FrameBytes(o.frame, crc)|
  {
    hide PayloadSize;
    var o := ReadOne(s, legacy, crc);
    if o.Read? {
      FrameParts(o.frame, crc, []);
    }
  }

  /** The records a reader returns never reach past the size it keeps. */
  lemma {:induction false} ReadAllFits(file: seq<Byte>, cursor: nat, legacy: bool, first: bool, crc: Checksum)
    requires cursor <= |file| && cursor <= Limit(|file|)
    ensures cursor + |FileBytes(ReadAll(file, cursor, legacy, first, crc).frames, crc)| <= Limit(|file|)
    decreases |file| - cursor
  {
    hide Limit, ReadOne, FrameBytes;
    var o := ReadOne(file[cursor..], legacy, crc);
    ReadLength(file[cursor..], legacy, crc);
    if (first || cursor < Limit(|file|)) && o.Read? && cursor + o.length <= Limit(|file|) {
      ReadAllFits(file, cursor + o.length, o.legacy, false, crc);
      var later := ReadAll(file, cursor + o.length, o.legacy, false, crc);
      assert ([o.frame] + later.frames)[1..] == later.frames;
    }
  }

  /** Every record of a written file is recovered if and only if the file's size
      survives the truncation to a signed 32-bit integer. */
  lemma {:induction false} ReadBackExact(fs: seq<Frame>, crc: Checksum)
    requires AllModern(fs)
    ensures var file := FileBytes(fs, crc);
            Recover(file, crc).frames == fs <==> |file| <= Limit(|file|)
  {
    var file := FileBytes(fs, crc);
    assert file[0..] == file;
    if |file| <= Limit(|file|) {
      ReadAllWritten(file, 0, false, true, fs, crc);
    } else {
      ReadAllFits(file, 0, false, true, crc);
    }
  }

  lemma {:induction false} RepeatedSize(f: Frame, n: nat, crc: Checksum)
    ensures |FileBytes(seq(n, _ => f), crc)| == n * (5 + |f.payload|)
  {
    if n > 0 {
      RepeatedSize(f, n - 1, crc);
      assert seq(n, _ => f)[1..] == seq(n - 1, _ => f);
      FrameParts(f, crc, []);
    }
  }

  /** A log of 2^32 removals: its size is cast to zero and nothing comes back. */
  lemma {:induction false} OversizeLogIsLost(crc: Checksum)
    ensures var fs := seq(0x1_0000_0000, _ => Frame(REMOVE, seq(34, _ => 0)));
            && AllModern(fs) && |fs| == 0x1_0000_0000
            && Recover(FileBytes(fs, crc), crc).frames == []
  {
    var f := Frame(REMOVE, seq(34, _ => 0));
    var fs := seq(0x1_0000_0000, _ => f);
    RepeatedSize(f, 0x1_0000_0000, crc);
    var file := FileBytes(fs, crc);
    assert |file| == 0x1_0000_0000 * 39;
    assert Limit(|file|) == 0;
  }

  // ---- a file cut anywhere ----

  /** How many records lie completely before a cut. */
  function Complete(fs: seq<Frame>, cut: nat, crc: Checksum): (k: nat)
    ensures k <= |fs|
  {
    if fs == [] || cut < |FrameBytes(fs[0], crc)| then 0
    else 1 + Complete(fs[1..], cut - |FrameBytes(fs[0], crc)|, crc)
  }

  /** Two payloads the checksum does not tell apart. */
  predicate Clash(a: seq<Byte>, b: seq<Byte>, crc: Checksum)
  {
    crc(a) == crc(b)
  }

  /** The record at the cut is an entry of which at least 78 payload bytes are
      left, and these verify as a legacy record. */
  predicate CutClashes(fs: seq<Frame>, cut: nat, crc: Checksum)
  {
    if fs == [] then false
    else if cut < |FrameBytes(fs[0], crc)| then
      IsEntry(fs[0].tag) && |fs[0].payload| >= 78 && cut >= 83 && Clash(fs[0].payload, fs[0].payload[..78], crc)
    else CutClashes(fs[1..], cut - |FrameBytes(fs[0], crc)|, crc)
  }

  lemma ChecksumBytes(a: seq<Byte>, b: seq<Byte>, crc: Checksum)
    ensures BE(crc(a), 4) == BE(crc(b), 4) <==> Clash(a, b, crc)
  {
    PowerValues();
    BERoundTrip(crc(a), 4);
    BERoundTrip(crc(b), 4);
  }

  /** A torn record stops the reader, unless its first 78 payload bytes clash. */
  lemma {:induction false} ReadTorn(f: Frame, cut: nat, crc: Checksum)
    requires Sized(f, false) && cut < |FrameBytes(f, crc)|
    ensures ReadOne(FrameBytes(f, crc)[..cut], false, crc).Stop? <==> !CutClashes([f], cut, crc)
  {
    var s := FrameBytes(f, crc)[..cut];
    FrameParts(f, crc, []);
    assert FrameBytes(f, crc) + [] == FrameBytes(f, crc);
    if cut >= 83 && IsEntry(f.tag) {
      assert s[1..5] == BE(crc(f.payload), 4);
      assert s[5..83] == f.payload[..78];
      ChecksumBytes(f.payload, f.payload[..78], crc);
    }
  }

  /** The cut lies behind the first frame. */
  lemma {:induction false} CutBehind(fs: seq<Frame>, cut: nat, crc: Checksum)
    requires fs != [] && |FrameBytes(fs[0], crc)| <= cut <= |FileBytes(fs, crc)|
    ensures var f, rest, later := fs[0], fs[1..], cut - |FrameBytes(fs[0], crc)|;
            && later <= |FileBytes(rest, crc)|
            && FileBytes(fs, crc)[..cut] == FrameBytes(f, crc) + FileBytes(rest, crc)[..later]
            && fs[..Complete(fs, cut, crc)] == [f] + rest[..Complete(rest, later, crc)]
            && CutClashes(fs, cut, crc) == CutClashes(rest, later, crc)
  {
    hide FrameBytes, FileBytes;
    FileSplit(fs, crc);
    var k := Complete(fs[1..], cut - |FrameBytes(fs[0], crc)|, crc);
    assert fs[..1 + k] == [fs[0]] + fs[1..][..k];
  }

  /** The cut tears the first frame. */
  lemma {:induction false} CutWithin(fs: seq<Frame>, cut: nat, crc: Checksum)
    requires fs != [] && cut < |FrameBytes(fs[0], crc)|
    ensures cut <= |FileBytes(fs, crc)| && FileBytes(fs, crc)[..cut] == FrameBytes(fs[0], crc)[..cut]
    ensures Complete(fs, cut, crc) == 0 && CutClashes(fs, cut, crc) == CutClashes([fs[0]], cut, crc)
  {
    hide FrameBytes, FileBytes, Clash;
    FileSplit(fs, crc);
  }

  lemma NothingCut(cut: nat, crc: Checksum)
    ensures Complete([], cut, crc) == 0 && !CutClashes([], cut, crc)
  {
  }

  lemma {:induction false} ReadAllCut(file: seq<Byte>, cursor: nat, first: bool, fs: seq<Frame>, cut: nat,
                                      crc: Checksum)
    requires AllModern(fs) && cut <= |FileBytes(fs, crc)|
    requires cursor <= |file| <= Limit(|file|) && file[cursor..] == FileBytes(fs, crc)[..cut]
    ensures ReadAll(file, cursor, false, first, crc).frames == fs[..Complete(fs, cut, crc)] <==>
            !CutClashes(fs, cut, crc)
    decreases |fs|
  {
    hide ReadOne, ReadAll, FileBytes, FrameBytes, Limit, Sized, Complete, CutClashes;
    if fs == [] {
      NoFrames(crc);
      NothingCut(cut, crc);
      ReadAllDone(file, cursor, false, first, crc);
    } else {
      var f, rest := fs[0], fs[1..];
      var length := |FrameBytes(f, crc)|;
      if cut < length {
        CutWithin(fs, cut, crc);
        ReadTorn(f, cut, crc);
        TornFront(file, cursor, first, f, cut, crc);
      } else {
        CutBehind(fs, cut, crc);
        ReadAllStep(file, cursor, false, first, f, FileBytes(rest, crc)[..cut - length], crc);
        ReadAllCut(file, cursor + length, false, rest, cut - length, crc);
        SameTail(f, ReadAll(file, cursor + length, false, false, crc).frames,
                 rest[..Complete(rest, cut - length, crc)]);
      }
    }
  }

  lemma SameTail(f: Frame, a: seq<Frame>, b: seq<Frame>)
    ensures [f] + a == [f] + b <==> a == b
  {
    assert ([f] + a)[1..] == a && ([f] + b)[1..] == b;
  }

  lemma {:induction false} TornFront(file: seq<Byte>, cursor: nat, first: bool, f: Frame, cut: nat, crc: Checksum)
    requires Sized(f, false) && cut < |FrameBytes(f, crc)|
    requires cursor <= |file| <= Limit(|file|) && file[cursor..] == FrameBytes(f, crc)[..cut]
    ensures ReadAll(file, cursor, false, first, crc).frames == [] <==> ReadOne(file[cursor..], false, crc).Stop?
  {
  }

  lemma {:induction false} CompleteReaches(fs: seq<Frame>, cut: nat, crc: Checksum)
    requires AllModern(fs) && cut <= |FileBytes(fs, crc)|
    ensures cut < |FileBytes(fs[..Complete(fs, cut, crc)], crc)| + 91
  {
    if fs != [] {
      FrameParts(fs[0], crc, []);
      if cut >= |FrameBytes(fs[0], crc)| {
        CompleteReaches(fs[1..], cut - |FrameBytes(fs[0], crc)|, crc);
        var k := Complete(fs[1..], cut - |FrameBytes(fs[0], crc)|, crc);
        assert fs[..1 + k][1..] == fs[1..][..k];
      }
    }
  }

  /** Cut a modern file anywhere: the reader returns exactly the complete records
      before the cut, if and only if the cut survives the truncation to a signed
      32-bit integer and the torn record's first 78 payload bytes do not verify as
      a legacy record. */
  lemma {:induction false} CutRead(fs: seq<Frame>, cut: nat, crc: Checksum)
    requires AllModern(fs) && cut <= |FileBytes(fs, crc)|
    ensures Recover(FileBytes(fs, crc)[..cut], crc).frames == fs[..Complete(fs, cut, crc)] <==>
            cut <= Limit(cut) && !CutClashes(fs, cut, crc)
  {
    var file := FileBytes(fs, crc)[..cut];
    assert file[0..] == file;
    if cut <= Limit(cut) {
      ReadAllCut(file, 0, true, fs, cut, crc);
    } else {
      ReadAllFits(file, 0, false, true, crc);
      CompleteReaches(fs, cut, crc);
    }
  }

  /** Under a checksum that does not tell an addition from its first 78 bytes, a cut
      in its last bytes makes the reader return a record nobody wrote. */
  lemma {:induction false} TornRecordIsTaken(cut: nat)
    requires 83 <= cut < 91
    ensures var f, crc := Frame(ADD, seq(86, _ => 0)), (_: seq<Byte>) => 0;
            && AllModern([f]) && cut < |FileBytes([f], crc)| && Complete([f], cut, crc) == 0
            && Recover(FileBytes([f], crc)[..cut], crc).frames != []
  {
    var f, crc := Frame(ADD, seq(86, _ => 0)), (_: seq<Byte>) => 0;
    FrameParts(f, crc, []);
    assert FileBytes([f], crc) == FrameBytes(f, crc) + FileBytes([], crc);
    CutRead([f], cut, crc);
  }

  // ---- records appended after a cut ----

  /** The bytes start with something that verifies as a record. */
  predicate Verifies(s: seq<Byte>, crc: Checksum)
  {
    ReadOne(s, false, crc).Read?
  }

  /** Whole frames are read off the front, whatever follows them. */
  lemma {:induction false} ReadAllThen(file: seq<Byte>, cursor: nat, first: bool, gs: seq<Frame>, rest: seq<Byte>,
                                       crc: Checksum)
    requires AllModern(gs) && cursor <= |file| <= Limit(|file|) && file[cursor..] == FileBytes(gs, crc) + rest
    ensures var next := cursor + |FileBytes(gs, crc)|;
            && next <= |file| && file[next..] == rest
            && ReadAll(file, cursor, false, first, crc).frames ==
               gs + ReadAll(file, next, false, first && gs == [], crc).frames
    decreases |gs|
  {
    hide ReadAll, FileBytes, FrameBytes, Limit, Sized;
    if gs == [] {
      NoFrames(crc);
      assert [] + rest == rest;
    } else {
      var f, others := gs[0], gs[1..];
      FileSplit(gs, crc);
      assert FileBytes(gs, crc) + rest == FrameBytes(f, crc) + (FileBytes(others, crc) + rest);
      ReadAllStep(file, cursor, false, first, f, FileBytes(others, crc) + rest, crc);
      ReadAllThen(file, cursor + |FrameBytes(f, crc)|, false, others, rest, crc);
    }
  }

  lemma {:induction false} FileConcat(a: seq<Frame>, b: seq<Frame>, crc: Checksum)
    ensures FileBytes(a + b, crc) == FileBytes(a, crc) + FileBytes(b, crc)
  {
    hide FrameBytes;
    if a == [] {
      assert a + b == b;
    } else {
      assert (a + b)[1..] == a[1..] + b;
      FileConcat(a[1..], b, crc);
    }
  }

  /** What the cut leaves is the complete records and less than one more. */
  lemma {:induction false} CutLeaves(fs: seq<Frame>, cut: nat, crc: Checksum)
    requires cut <= |FileBytes(fs, crc)|
    ensures var whole := FileBytes(fs[..Complete(fs, cut, crc)], crc);
            |whole| <= cut && FileBytes(fs, crc)[..|whole|] == whole
  {
    hide FrameBytes;
    var k := Complete(fs, cut, crc);
    CompleteFits(fs, cut, crc);
    assert fs == fs[..k] + fs[k..];
    FileConcat(fs[..k], fs[k..], crc);
  }

  lemma {:induction false} CompleteFits(fs: seq<Frame>, cut: nat, crc: Checksum)
    ensures |FileBytes(fs[..Complete(fs, cut, crc)], crc)| <= cut
  {
    hide FrameBytes;
    if fs != [] && cut >= |FrameBytes(fs[0], crc)| {
      CompleteFits(fs[1..], cut - |FrameBytes(fs[0], crc)|, crc);
      var k := Complete(fs[1..], cut - |FrameBytes(fs[0], crc)|, crc);
      assert fs[..1 + k][1..] == fs[1..][..k];
    }
  }

  /** Append records to a file that was cut.  If the cut fell between two records they
      are all read back, exactly if the size survives the truncation.  If it fell inside a
      record, what is left of that one hides them: only the complete records before the
      cut are read, unless the torn record and what was appended verify as a record that
      nobody wrote. */
  lemma {:induction false} AppendedAfterCut(fs: seq<Frame>, cut: nat, more: seq<Frame>, crc: Checksum)
    requires AllModern(fs) && AllModern(more) && cut <= |FileBytes(fs, crc)|
    ensures var done := fs[..Complete(fs, cut, crc)];
            var file := FileBytes(fs, crc)[..cut] + FileBytes(more, crc);
            && |FileBytes(done, crc)| <= cut
            && var torn := FileBytes(fs, crc)[|FileBytes(done, crc)|..cut];
               if torn == [] then Recover(file, crc).frames == done + more <==> |file| <= Limit(|file|)
               else |file| <= Limit(|file|) ==>
                    (Recover(file, crc).frames == done <==> !Verifies(torn + FileBytes(more, crc), crc))
  {
    hide FileBytes, FrameBytes, Limit, ReadAll, ReadOne, Complete;
    CutLeaves(fs, cut, crc);
    var done := fs[..Complete(fs, cut, crc)];
    var whole := FileBytes(done, crc);
    var torn, tail := FileBytes(fs, crc)[|whole|..cut], FileBytes(more, crc);
    var file := FileBytes(fs, crc)[..cut] + tail;
    assert FileBytes(fs, crc)[..cut] == whole + torn;
    if torn == [] {
      FileConcat(done, more, crc);
      assert file == FileBytes(done + more, crc);
      ReadBackExact(done + more, crc);
    } else if |file| <= Limit(|file|) {
      assert file[0..] == whole + (torn + tail);
      ReadAllThen(file, 0, true, done, torn + tail, crc);
      TornStops(file, |whole|, done == [], torn + tail, crc);
      assert done + [] == done;
    }
  }

  lemma {:induction false} TornStops(file: seq<Byte>, cursor: nat, first: bool, s: seq<Byte>, crc: Checksum)
    requires cursor < |file| <= Limit(|file|) && file[cursor..] == s
    ensures ReadAll(file, cursor, false, first, crc).frames == [] <==> !Verifies(s, crc)
  {
    hide ReadOne, Limit;
  }

  /** A removal of which only the tag was written, and a whole one after it: neither is
      read. */
  lemma {:induction false} AppendedIsLost()
    ensures var f, crc := Frame(REMOVE, seq(34, _ => 0)), (_: seq<Byte>) => 0;
            && AllModern([f]) && 1 <= |FileBytes([f], crc)|
            && Recover(FileBytes([f], crc)[..1] + FileBytes([f], crc), crc).frames == []
  {
    var f, crc := Frame(REMOVE, seq(34, _ => 0)), (_: seq<Byte>) => 0;
    FrameParts(f, crc, []);
    var bytes := FileBytes([f], crc);
    assert bytes == FrameBytes(f, crc) + FileBytes([], crc) == FrameBytes(f, crc);
    AppendedAfterCut([f], 1, [f], crc);
    var s := bytes[..1] + bytes;
    assert s[0] == REMOVE && s[1] == REMOVE && s[1..5][0] == REMOVE;
    assert BE(0, 4)[0] == 0;
  }

  // ---- a legacy file ----

  /** The first entry record and the bytes after it verify as one modern record. */
  predicate LegacyClashes(fs: seq<Frame>, crc: Checksum)
  {
    if fs == [] then false
    else if !IsEntry(fs[0].tag) then LegacyClashes(fs[1..], crc)
    else
      var s := FileBytes(fs, crc);
      |s| >= 91 && Clash(fs[0].payload, s[5..91], crc)
  }

  lemma NothingClashes(crc: Checksum)
    ensures !LegacyClashes([], crc)
  {
  }

  lemma LaterClash(fs: seq<Frame>, crc: Checksum)
    requires fs != [] && !IsEntry(fs[0].tag)
    ensures LegacyClashes(fs, crc) == LegacyClashes(fs[1..], crc)
  {
  }

  /** Records that are no entries have one form. */
  lemma OneForm(f: Frame)
    requires Sized(f, true) && !IsEntry(f.tag)
    ensures Sized(f, false)
  {
  }

  lemma {:induction false} ReadAllLegacy(file: seq<Byte>, cursor: nat, first: bool, fs: seq<Frame>, crc: Checksum)
    requires AllLegacy(fs) && cursor <= |file| <= Limit(|file|) && file[cursor..] == FileBytes(fs, crc)
    ensures ReadAll(file, cursor, false, first, crc).frames == fs <==> !LegacyClashes(fs, crc)
    decreases |fs|
  {
    hide ReadOne, ReadAll, FileBytes, FrameBytes, Limit, Sized, LegacyClashes;
    if fs == [] {
      NoFrames(crc);
      NothingClashes(crc);
      ReadAllDone(file, cursor, false, first, crc);
    } else {
      var f, rest := fs[0], FileBytes(fs[1..], crc);
      FileSplit(fs, crc);
      if !IsEntry(f.tag) {
        var next := cursor + |FrameBytes(f, crc)|;
        OneForm(f);
        LaterClash(fs, crc);
        ReadAllStep(file, cursor, false, first, f, rest, crc);
        ReadAllLegacy(file, next, false, fs[1..], crc);
        SameTail(f, ReadAll(file, next, false, false, crc).frames, fs[1..]);
      } else {
        LegacyEntryFirst(file, cursor, first, fs, crc);
      }
    }
  }

  /** From the first entry on, the file is read in the form that entry is taken for. */
  lemma {:induction false} LegacyEntryFirst(file: seq<Byte>, cursor: nat, first: bool, fs: seq<Frame>, crc: Checksum)
    requires AllLegacy(fs) && cursor <= |file| <= Limit(|file|) && file[cursor..] == FileBytes(fs, crc)
    requires fs != [] && IsEntry(fs[0].tag)
    ensures ReadAll(file, cursor, false, first, crc).frames == fs <==> !LegacyClashes(fs, crc)
  {
    var f, rest := fs[0], FileBytes(fs[1..], crc);
    FileSplit(fs, crc);
    FirstLegacyEntry(f, rest, crc);
    FrameParts(f, crc, rest);
    hide ReadOne, Limit, FileBytes, FrameBytes;
    if !LegacyClashes(fs, crc) {
      assert file[cursor + 83..] == file[cursor..][83..] == rest;
      ReadAllWritten(file, cursor + 83, true, false, fs[1..], crc);
    }
  }

  /** The retry classifies the first entry of a legacy file. */
  lemma {:induction false} FirstLegacyEntry(f: Frame, rest: seq<Byte>, crc: Checksum)
    requires Sized(f, true) && IsEntry(f.tag)
    ensures var s := FrameBytes(f, crc) + rest;
            var clash := |s| >= 91 && Clash(f.payload, s[5..91], crc);
            ReadOne(s, false, crc) == if clash then Read(Frame(f.tag, s[5..91]), 91, false) else Read(f, 83, true)
  {
    var s := FrameBytes(f, crc) + rest;
    FrameParts(f, crc, rest);
    if |s| >= 91 {
      ChecksumBytes(f.payload, s[5..91], crc);
    }
  }

  /** A file written entirely in the legacy form is recovered entirely, if and
      only if its size survives the truncation to a signed 32-bit integer and its
      first entry record does not verify at the modern length. */
  lemma {:induction false} LegacyRead(fs: seq<Frame>, crc: Checksum)
    requires AllLegacy(fs)
    ensures var file := FileBytes(fs, crc);
            Recover(file, crc).frames == fs <==> |file| <= Limit(|file|) && !LegacyClashes(fs, crc)
  {
    var file := FileBytes(fs, crc);
    assert file[0..] == file;
    if |file| <= Limit(|file|) {
      ReadAllLegacy(file, 0, true, fs, crc);
    } else {
      ReadAllFits(file, 0, false, true, crc);
    }
  }

  /** Under a checksum that does not tell them apart, a legacy addition swallows the
      first eight bytes of the removal after it. */
  lemma {:induction false} LegacyRecordIsMisread()
    ensures var fs := [Frame(ADD, seq(78, _ => 0)), Frame(REMOVE, seq(34, _ => 0))];
            var crc := (_: seq<Byte>) => 0;
            AllLegacy(fs) && Recover(FileBytes(fs, crc), crc).frames != fs
  {
    var fs := [Frame(ADD, seq(78, _ => 0)), Frame(REMOVE, seq(34, _ => 0))];
    var crc := (_: seq<Byte>) => 0;
    FrameParts(fs[0], crc, FileBytes(fs[1..], crc));
    FrameParts(fs[1], crc, FileBytes(fs[1..][1..], crc));
    assert |FileBytes(fs, crc)| == 83 + 39;
    LegacyRead(fs, crc);
  }
}
