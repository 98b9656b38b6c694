/**
 The part of CBOR the store writes: unsigned integers of a chosen width, byte
 strings and arrays of definite length (major types 0, 2 and 4 of RFC 8949,
 section 3.1).  An integer keeps the width it was built with, so a 64-bit zero
 takes nine bytes; lengths take the shortest head.
 */
module Cbor {
  import opened Entries

  datatype Item =
    | Uint(width: nat, value: nat)
    | Bytes(bytes: seq<Byte>)
    | Array(items: seq<Item>)

  function Pow256(n: nat): nat
  {
    if n == 0 then 1 else 256 * Pow256(n - 1)
  }

  /** Big-endian digits, and back. */
  function BE(x: nat, n: nat): (s: seq<Byte>)
    ensures |s| == n
  {
    if n == 0 then [] else BE(x / 256, n - 1) + [x % 256]
  }

  function FromBE(s: seq<Byte>): nat
  {
    if s == [] then 0 else FromBE(s[..|s| - 1]) * 256 + s[|s| - 1]
  }

  lemma {:induction false} BERoundTrip(x: nat, n: nat)
    requires x < Pow256(n)
    ensures FromBE(BE(x, n)) == x
    decreases n
  {
    if n > 0 {
      BERoundTrip(x / 256, n - 1);
      assert BE(x, n)[..n - 1] == BE(x / 256, n - 1);
    }
  }

  lemma PowerValues()
    ensures Pow256(1) == 0x100 && Pow256(2) == 0x1_0000 && Pow256(4) == 0x1_0000_0000
    ensures Pow256(8) == 0x1_0000_0000_0000_0000
  {
    assert Pow256(1) == 0x100;
    assert Pow256(2) == 0x1_0000;
    assert Pow256(3) == 0x100_0000;
    assert Pow256(4) == 0x1_0000_0000;
    assert Pow256(5) == 0x100_0000_0000;
    assert Pow256(6) == 0x1_0000_0000_0000;
    assert Pow256(7) == 0x100_0000_0000_0000;
  }

  predicate Width(w: nat)
  {
    w == 1 || w == 2 || w == 4 || w == 8
  }

  /** Items that can be written: values fit their widths, lengths fit 64 bits. */
  predicate Valid(item: Item)
  {
    match item
    case Uint(w, v) => Width(w) && v < Pow256(w)
    case Bytes(b) => |b| < Pow256(8)
    case Array(items) => |items| < Pow256(8) && forall i | 0 <= i < |items| :: Valid(items[i])
  }

  /** The argument width code of a head: 24, 25, 26, 27 for 1, 2, 4, 8 bytes. */
  function Code(w: nat): nat
    requires Width(w)
  {
    if w == 1 then 24 else if w == 2 then 25 else if w == 4 then 26 else 27
  }

  function CodeWidth(code: nat): nat
    requires 24 <= code <= 27
  {
    if code == 24 then 1 else if code == 25 then 2 else if code == 26 then 4 else 8
  }

  function WideHead(major: nat, w: nat, v: nat): seq<Byte>
    requires major < 8 && Width(w)
  {
    [32 * major + Code(w)] + BE(v, w)
  }

  /** The shortest head for a length. */
  function Head(major: nat, v: nat): seq<Byte>
    requires major < 8
  {
    if v < 24 then [32 * major + v]
    else if v < Pow256(1) then WideHead(major, 1, v)
    else if v < Pow256(2) then WideHead(major, 2, v)
    else if v < Pow256(4) then WideHead(major, 4, v)
    else WideHead(major, 8, v)
  }

  function Serialize(item: Item): seq<Byte>
    requires Valid(item)
  {
    match item
    case Uint(w, v) => if w == 1 && v < 24 then [v] else WideHead(0, w, v)
    case Bytes(b) => Head(2, |b|) + b
    case Array(items) => Head(4, |items|) + SerializeAll(items)
  }

  function SerializeAll(items: seq<Item>): seq<Byte>
    requires forall i | 0 <= i < |items| :: Valid(items[i])
  {
    if items == [] then [] else Serialize(items[0]) + SerializeAll(items[1..])
  }

  datatype Cut<T> = Cut(value: T, rest: seq<Byte>)

  datatype HeadValue = HeadValue(major: nat, width: nat, value: nat)

  /** Read a head: major type, argument width and argument. */
  function ReadHead(s: seq<Byte>): (r: Option<Cut<HeadValue>>)
    ensures r.Some? ==> |r.value.rest| < |s|
  {
    if s == [] then None
    else
      var major, info := s[0] / 32, s[0] % 32;
      if info < 24 then Some(Cut(HeadValue(major, 1, info), s[1..]))
      else if info > 27 || |s| < 1 + CodeWidth(info) then None
      else
        var w := CodeWidth(info);
        Some(Cut(HeadValue(major, w, FromBE(s[1..1 + w])), s[1 + w..]))
  }

  /** Read one item off the front, as the loader does. */
  function Parse(s: seq<Byte>): (r: Option<Cut<Item>>)
    ensures r.Some? ==> |r.value.rest| < |s|
    decreases |s|, 0
  {
    var h :- ReadHead(s);
    var v := h.value.value;
    if h.value.major == 0 then Some(Cut(Uint(h.value.width, v), h.rest))
    else if h.value.major == 2 then
      if |h.rest| < v then None else Some(Cut(Bytes(h.rest[..v]), h.rest[v..]))
    else if h.value.major == 4 then
      var items :- ParseAll(v, h.rest);
      Some(Cut(Array(items.value), items.rest))
    else None
  }

  function ParseAll(n: nat, s: seq<Byte>): (r: Option<Cut<seq<Item>>>)
    ensures r.Some? ==> |r.value.rest| <= |s|
    decreases |s|, 1
  {
    if n == 0 then Some(Cut([], s))
    else
      var first :- Parse(s);
      var others :- ParseAll(n - 1, first.rest);
      Some(Cut([first.value] + others.value, others.rest))
  }

  // ---- what is written is read back ----

  lemma {:induction false} WideHeadRoundTrip(major: nat, w: nat, v: nat, rest: seq<Byte>)
    requires major < 8 && Width(w) && v < Pow256(w)
    ensures ReadHead(WideHead(major, w, v) + rest) == Some(Cut(HeadValue(major, w, v), rest))
  {
    var s := WideHead(major, w, v) + rest;
    assert s[0] / 32 == major && s[0] % 32 == Code(w);
    assert s[1..1 + w] == BE(v, w) && s[1 + w..] == rest;
    BERoundTrip(v, w);
  }

  lemma {:induction false} HeadRoundTrip(major: nat, v: nat, rest: seq<Byte>)
    requires major < 8 && v < Pow256(8)
    ensures var r := ReadHead(Head(major, v) + rest);
            r.Some? && r.value.value.major == major && r.value.value.value == v && r.value.rest == rest
  {
    if v < 24 {
      var s := [32 * major + v] + rest;
      assert s[0] / 32 == major && s[0] % 32 == v && s[1..] == rest;
    } else if v < Pow256(1) {
      WideHeadRoundTrip(major, 1, v, rest);
    } else if v < Pow256(2) {
      WideHeadRoundTrip(major, 2, v, rest);
    } else if v < Pow256(4) {
      WideHeadRoundTrip(major, 4, v, rest);
    } else {
      WideHeadRoundTrip(major, 8, v, rest);
    }
  }

  /** Every valid item is read back from its bytes, whatever follows them. */
  lemma {:induction false} RoundTrip(item: Item, rest: seq<Byte>)
    requires Valid(item)
    ensures Parse(Serialize(item) + rest) == Some(Cut(item, rest))
    decreases item, 0
  {
    match item
    case Uint(w, v) =>
      if w == 1 && v < 24 {
        var s := [v] + rest;
        assert s[0] / 32 == 0 && s[0] % 32 == v && s[1..] == rest;
      } else {
        WideHeadRoundTrip(0, w, v, rest);
      }
    case Bytes(b) =>
      HeadRoundTrip(2, |b|, b + rest);
      assert Head(2, |b|) + b + rest == Head(2, |b|) + (b + rest);
      assert (b + rest)[..|b|] == b && (b + rest)[|b|..] == rest;
    case Array(items) =>
      var body := SerializeAll(items) + rest;
      HeadRoundTrip(4, |items|, body);
      assert Head(4, |items|) + SerializeAll(items) + rest == Head(4, |items|) + body;
      RoundTripAll(items, rest);
  }

  lemma SerializeStep(items: seq<Item>)
    requires items != [] && forall i | 0 <= i < |items| :: Valid(items[i])
    ensures SerializeAll(items) == Serialize(items[0]) + SerializeAll(items[1..]) && [items[0]] + items[1..] == items
  {
    hide Serialize;
  }

  lemma ParseStep(n: nat, s: seq<Byte>, first: Item, tail: seq<Byte>, others: seq<Item>, rest: seq<Byte>)
    requires n > 0 && Parse(s) == Some(Cut(first, tail)) && ParseAll(n - 1, tail) == Some(Cut(others, rest))
    ensures ParseAll(n, s) == Some(Cut([first] + others, rest))
  {
    hide Parse;
  }

  lemma ParseNone(s: seq<Byte>)
    ensures ParseAll(0, s) == Some(Cut([], s)) && SerializeAll([]) == []
  {
  }

  lemma {:induction false} RoundTripAll(items: seq<Item>, rest: seq<Byte>)
    requires forall i | 0 <= i < |items| :: Valid(items[i])
    ensures ParseAll(|items|, SerializeAll(items) + rest) == Some(Cut(items, rest))
    decreases items, 1
  {
    hide Parse, ParseAll, Serialize, SerializeAll, Valid;
    if items == [] {
      ParseNone(rest);
      assert [] + rest == rest;
    } else {
      var first, others := items[0], items[1..];
      var tail := SerializeAll(others) + rest;
      RoundTrip(first, tail);
      RoundTripAll(others, rest);
      SerializeStep(items);
      assert SerializeAll(items) + rest == Serialize(first) + tail;
      ParseStep(|items|, Serialize(first) + tail, first, tail, others, rest);
    }
  }

  // ---- a torn item is never read ----

  lemma {:induction false} HeadExtend(s: seq<Byte>, more: seq<Byte>)
    requires ReadHead(s).Some?
    ensures ReadHead(s + more) == Some(Cut(ReadHead(s).value.value, ReadHead(s).value.rest + more))
  {
    var info := s[0] % 32;
    if info < 24 {
      assert (s + more)[1..] == s[1..] + more;
    } else {
      var w := CodeWidth(info);
      assert (s + more)[1..1 + w] == s[1..1 + w];
      assert (s + more)[1 + w..] == s[1 + w..] + more;
    }
  }

  /** Bytes after an item do not change how it is read. */
  lemma {:induction false} ParseExtend(s: seq<Byte>, more: seq<Byte>)
    requires Parse(s).Some?
    ensures Parse(s + more) == Some(Cut(Parse(s).value.value, Parse(s).value.rest + more))
    decreases |s|, 0
  {
    HeadExtend(s, more);
    var h := ReadHead(s).value;
    var v := h.value.value;
    if h.value.major == 2 {
      assert (h.rest + more)[..v] == h.rest[..v];
      assert (h.rest + more)[v..] == h.rest[v..] + more;
    } else if h.value.major == 4 {
      ParseAllExtend(v, h.rest, more);
    }
  }

  lemma {:induction false} ParseAllExtend(n: nat, s: seq<Byte>, more: seq<Byte>)
    requires ParseAll(n, s).Some?
    ensures ParseAll(n, s + more) == Some(Cut(ParseAll(n, s).value.value, ParseAll(n, s).value.rest + more))
    decreases |s|, 1
  {
    if n > 0 {
      ParseExtend(s, more);
      ParseAllExtend(n - 1, Parse(s).value.rest, more);
    }
  }

  /** A proper prefix of a serialized item does not parse. */
  lemma {:induction false} TornNeverParses(item: Item, cut: nat)
    requires Valid(item) && cut < |Serialize(item)|
    ensures Parse(Serialize(item)[..cut]).None?
  {
    var s := Serialize(item);
    var torn, more := s[..cut], s[cut..];
    assert torn + more == s == s + [];
    RoundTrip(item, []);
    if Parse(torn).Some? {
      ParseExtend(torn, more);
      assert false;
    }
  }
}
