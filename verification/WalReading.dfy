/**
 What reading a log means, for any bytes whatever: which frames a file holds is said
 without the reader, and the reader finds exactly those.
 */
module WalReading {
  import opened Entries
  import opened Cbor
  import opened Wal

  /** A frame stands at the front of these bytes, in the form the reader is in or, for an entry
      a reader still in the long form meets, in the short one. */
  predicate Readable(s: seq<Byte>, f: Frame, legacy: bool, short: bool, crc: Checksum)
  {
    && FrameBytes(f, crc) <= s && Sized(f, short)
    && (short == legacy || (short && IsEntry(f.tag)))
  }

  ghost predicate Unreadable(s: seq<Byte>, legacy: bool, short: bool, crc: Checksum)
  {
    forall f: Frame :: !Readable(s, f, legacy, short, crc)
  }

  /** The least payload a reader accepts behind a tag. */
  function Least(tag: Byte): Option<nat>
  {
    if tag == 'a' as int || tag == 'i' as int then Some(78)
    else if tag == 'e' as int then Some(44)
    else if tag == 'r' as int then Some(34)
    else if tag == 'm' as int then Some(86)
    else None
  }

  lemma Prefix(s: seq<Byte>, f: Frame, crc: Checksum)
    ensures FrameBytes(f, crc) <= s <==>
            && |s| >= 5 + |f.payload| && s[0] == f.tag && s[1..5] == BE(crc(f.payload), 4)
            && s[5..5 + |f.payload|] == f.payload
  {
    FrameParts(f, crc, []);
    var b := FrameBytes(f, crc);
    assert b + [] == b;
    if b <= s {
      var rest := s[|b|..];
      assert s == b + rest;
      FrameParts(f, crc, rest);
    }
    if && |s| >= 5 + |f.payload| && s[0] == f.tag && s[1..5] == BE(crc(f.payload), 4)
       && s[5..5 + |f.payload|] == f.payload {
      assert s[..5 + |f.payload|] == [s[0]] + s[1..5] + s[5..5 + |f.payload|];
    }
  }

  /** A size accepts exactly the frame of that size at the front. */
  lemma {:induction false} VerifiedExact(s: seq<Byte>, size: nat, legacy: bool, crc: Checksum, f: Frame)
    requires |s| >= 5 && |f.payload| == size
    ensures FrameBytes(f, crc) <= s <==> Verified(s, size, crc, legacy) == Read(f, 5 + size, legacy)
  {
    Prefix(s, f, crc);
  }

  /** One record: it is read if and only if one is there, the long form is preferred, and the
      stop codes say what was missing. */
  lemma {:induction false} ReadOneExact(s: seq<Byte>, legacy: bool, crc: Checksum)
    ensures var o := ReadOne(s, legacy, crc);
            && (o.Read? ==> && Readable(s, o.frame, legacy, o.legacy, crc)
                            && o.length == |FrameBytes(o.frame, crc)|
                            && (o.legacy != legacy ==> Unreadable(s, legacy, false, crc)))
            && (o.Stop? ==> Unreadable(s, legacy, false, crc) && Unreadable(s, legacy, true, crc))
  {
    var o := ReadOne(s, legacy, crc);
    ReadLength(s, legacy, crc);
    if o.Read? {
      Prefix(s, o.frame, crc);
    }
    forall f: Frame, short: bool | Readable(s, f, legacy, short, crc)
      ensures o.Read? && (short == legacy ==> o.legacy == legacy)
    {
      Prefix(s, f, crc);
      VerifiedExact(s, |f.payload|, short, crc, f);
    }
  }

  lemma {:induction false} StopCodes(s: seq<Byte>, legacy: bool, crc: Checksum)
    ensures var o := ReadOne(s, legacy, crc);
            o.Stop? ==> o.code == if s == [] then SHORT_TYPE
                                  else if |s| < 5 then SHORT_CRC
                                  else if Least(s[0]).None? then UNKNOWN_TYPE
                                  else if |s| < 5 + Least(s[0]).value then SHORT_PAYLOAD
                                  else BAD_CRC
  {
  }

  /** These frames, and no more, stand one behind the other from here: each is readable where it
      begins, an entry counts as short only where no long one stands, and from then on the
      short form stays. */
  ghost predicate Holds(s: seq<Byte>, legacy: bool, fs: seq<Frame>, crc: Checksum)
    decreases |fs|
  {
    if fs == [] then Unreadable(s, legacy, false, crc) && Unreadable(s, legacy, true, crc)
    else
      exists short: bool ::
        && Readable(s, fs[0], legacy, short, crc)
        && (short != legacy ==> Unreadable(s, legacy, false, crc))
        && |FrameBytes(fs[0], crc)| <= |s|
        && Holds(s[|FrameBytes(fs[0], crc)|..], short, fs[1..], crc)
  }

  /** Two frames in one form at one place are the same. */
  lemma {:induction false} OneFrame(s: seq<Byte>, f: Frame, g: Frame, legacy: bool, short: bool, crc: Checksum)
    requires Readable(s, f, legacy, short, crc) && Readable(s, g, legacy, short, crc)
    ensures f == g
  {
    Prefix(s, f, crc);
    Prefix(s, g, crc);
  }

  /** The front of a file is the frame the reader returns there. */
  lemma {:induction false} FrontIs(s: seq<Byte>, legacy: bool, f: Frame, short: bool, crc: Checksum)
    requires Readable(s, f, legacy, short, crc)
    requires short != legacy ==> Unreadable(s, legacy, false, crc)
    ensures ReadOne(s, legacy, crc) == Read(f, |FrameBytes(f, crc)|, short)
  {
    hide ReadOne, Readable;
    ReadOneExact(s, legacy, crc);
    var o := ReadOne(s, legacy, crc);
    assert o.Read?;
    assert o.legacy == short by {
      ShortStays(s, o.frame, legacy, o.legacy, crc);
      ShortStays(s, f, legacy, short, crc);
    }
    OneFrame(s, f, o.frame, legacy, short, crc);
  }

  lemma ShortStays(s: seq<Byte>, f: Frame, legacy: bool, short: bool, crc: Checksum)
    requires Readable(s, f, legacy, short, crc)
    ensures legacy ==> short
  {
  }

  lemma NothingHeld(legacy: bool, crc: Checksum)
    ensures Holds([], legacy, [], crc)
  {
    ReadOneExact([], legacy, crc);
  }

  /** The replay loop returns frames that the bytes hold. */
  lemma {:induction false} ReadsHeld(file: seq<Byte>, cursor: nat, legacy: bool, first: bool, crc: Checksum)
    requires cursor <= |file| <= Limit(|file|)
    ensures Holds(file[cursor..], legacy, ReadAll(file, cursor, legacy, first, crc).frames, crc)
    decreases |file| - cursor
  {
    hide Limit, ReadOne, Readable, Unreadable, FrameBytes;
    var s := file[cursor..];
    var o := ReadOne(s, legacy, crc);
    ReadOneExact(s, legacy, crc);
    var fs := ReadAll(file, cursor, legacy, first, crc).frames;
    if !first && cursor >= Limit(|file|) {
      assert s == [];
      NothingHeld(legacy, crc);
    } else if o.Read? {
      ReadsHeld(file, cursor + o.length, o.legacy, false, crc);
      assert s[o.length..] == file[cursor + o.length..];
      assert fs[0] == o.frame && fs[1..] == ReadAll(file, cursor + o.length, o.legacy, false, crc).frames;
    }
  }

  /** Bytes hold only one run of frames. */
  lemma {:induction false} HeldOnce(s: seq<Byte>, legacy: bool, fs: seq<Frame>, gs: seq<Frame>, crc: Checksum)
    requires Holds(s, legacy, fs, crc) && Holds(s, legacy, gs, crc)
    ensures fs == gs
    decreases |fs|
  {
    hide ReadOne, Readable, FrameBytes;
    if fs != [] && gs != [] {
      var a: bool :| && Readable(s, fs[0], legacy, a, crc)
                     && (a != legacy ==> Unreadable(s, legacy, false, crc))
                     && |FrameBytes(fs[0], crc)| <= |s|
                     && Holds(s[|FrameBytes(fs[0], crc)|..], a, fs[1..], crc);
      var b: bool :| && Readable(s, gs[0], legacy, b, crc)
                     && (b != legacy ==> Unreadable(s, legacy, false, crc))
                     && |FrameBytes(gs[0], crc)| <= |s|
                     && Holds(s[|FrameBytes(gs[0], crc)|..], b, gs[1..], crc);
      FrontIs(s, legacy, fs[0], a, crc);
      FrontIs(s, legacy, gs[0], b, crc);
      HeldOnce(s[|FrameBytes(fs[0], crc)|..], a, fs[1..], gs[1..], crc);
      assert fs == [fs[0]] + fs[1..] && gs == [gs[0]] + gs[1..];
    }
  }

  /** Recovery returns exactly the frames a file holds, for every file below two gigabytes:
      written whole, cut, damaged or not a log at all. */
  lemma {:induction false} RecoverExact(file: seq<Byte>, fs: seq<Frame>, crc: Checksum)
    requires |file| < 0x8000_0000
    ensures Recover(file, crc).frames == fs <==> Holds(file, false, fs, crc)
  {
    hide Holds, ReadAll;
    assert file[0..] == file;
    ReadsHeld(file, 0, false, true, crc);
    if Holds(file, false, fs, crc) {
      HeldOnce(file, false, fs, Recover(file, crc).frames, crc);
    }
  }

  /** The reader reports a clean end if and only if it read something and its records are the
      whole file. */
  lemma {:induction false} CleanEnd(file: seq<Byte>, cursor: nat, legacy: bool, first: bool, crc: Checksum)
    requires cursor <= |file| < 0x8000_0000
    ensures var r := ReadAll(file, cursor, legacy, first, crc);
            r.code == CLEAN_EOF <==> FileBytes(r.frames, crc) == file[cursor..] && (first ==> r.frames != [])
    decreases |file| - cursor
  {
    hide ReadOne, FrameBytes;
    var s := file[cursor..];
    var o := ReadOne(s, legacy, crc);
    var r := ReadAll(file, cursor, legacy, first, crc);
    ReadOneExact(s, legacy, crc);
    StopCodes(s, legacy, crc);
    if !first && cursor >= |file| {
      assert s == [];
    } else if o.Read? {
      var later := ReadAll(file, cursor + o.length, o.legacy, false, crc);
      CleanEnd(file, cursor + o.length, o.legacy, false, crc);
      assert FrameBytes(o.frame, crc) <= s;
      assert s == FrameBytes(o.frame, crc) + s[o.length..];
      assert s[o.length..] == file[cursor + o.length..];
      assert r.frames[1..] == later.frames;
    }
  }
}
