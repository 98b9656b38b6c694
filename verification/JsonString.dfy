/**
 JSON strings: the printer that escapes a byte string and the parser that undoes it,
 with the UTF-16 escapes of section 7 of RFC 8259 and the UTF-8 encoding of section 3
 of RFC 3629.
 */
module JsonString {
  import opened Entries

  const QUOTE: Byte := 34
  const BACKSLASH: Byte := 92
  const LETTER_U: Byte := 117

  type Bytes = seq<Byte>

  // ---- printing ----

  /** The letter of a one-character escape. */
  function Letter(b: Byte): Option<Byte>
  {
    if b == 92 then Some(92)
    else if b == 34 then Some(34)
    else if b == 8 then Some(98)
    else if b == 12 then Some(102)
    else if b == 10 then Some(110)
    else if b == 13 then Some(114)
    else if b == 9 then Some(116)
    else None
  }

  function HexDigit(n: nat): Byte
    requires n < 16
  {
    if n < 10 then 48 + n else 87 + n
  }

  /** Four lower-case hexadecimal digits. */
  function Hex(n: nat): (r: Bytes)
    requires n < 0x1_0000
    ensures |r| == 4
  {
    [HexDigit(n / 0x1000), HexDigit(n / 0x100 % 16), HexDigit(n / 16 % 16), HexDigit(n % 16)]
  }

  function Escape(b: Byte): (r: Bytes)
    ensures |r| == 1 || |r| == 2 || |r| == 6
  {
    if b > 31 && b != QUOTE && b != BACKSLASH then [b]
    else match Letter(b)
      case Some(c) => [BACKSLASH, c]
      case None => [BACKSLASH, LETTER_U] + Hex(b)
  }

  function Escaped(s: Bytes): Bytes
  {
    if s == [] then [] else Escape(s[0]) + Escaped(s[1..])
  }

  function Printed(s: Bytes): Bytes
  {
    [QUOTE] + Escaped(s) + [QUOTE]
  }

  // ---- parsing ----

  /** Where the closing quote is; a backslash hides the byte after it. */
  function Close(t: Bytes): (r: Option<nat>)
    ensures r.Some? ==> r.value < |t| && t[r.value] == QUOTE
  {
    if t == [] then None
    else if t[0] == QUOTE then Some(0)
    else if t[0] == BACKSLASH then
      if |t| < 2 then None
      else
        var r :- Close(t[2..]);
        Some(r + 2)
    else
      var r :- Close(t[1..]);
      Some(r + 1)
  }

  function Digit(c: Byte): Option<nat>
  {
    if 48 <= c <= 57 then Some(c - 48)
    else if 65 <= c <= 70 then Some(c - 55)
    else if 97 <= c <= 102 then Some(c - 87)
    else None
  }

  /** The value of four hexadecimal digits, and 0 if one of them is not a digit. */
  function Hex4(t: Bytes): (n: nat)
    requires |t| == 4
    ensures n < 0x1_0000
  {
    var a, b, c, d := Digit(t[0]), Digit(t[1]), Digit(t[2]), Digit(t[3]);
    if a.None? || b.None? || c.None? || d.None? then 0
    else 0x1000 * a.value + 0x100 * b.value + 16 * c.value + d.value
  }

  /** The UTF-8 encoding of a code point. */
  function Utf8(cp: nat): (r: Bytes)
    requires cp < 0x11_0000
    ensures 1 <= |r| <= 4
    ensures cp < 0x1_0000 ==> |r| <= 3
  {
    if cp < 0x80 then [cp]
    else if cp < 0x800 then [0xC0 + cp / 64, 0x80 + cp % 64]
    else if cp < 0x1_0000 then [0xE0 + cp / 4096, 0x80 + cp / 64 % 64, 0x80 + cp % 64]
    else [0xF0 + cp / 0x4_0000, 0x80 + cp / 4096 % 64, 0x80 + cp / 64 % 64, 0x80 + cp % 64]
  }

  /** A \u escape at the start of t: how many bytes it takes and what it stands for. */
  function Literal(t: Bytes): (r: Option<(nat, Bytes)>)
    requires |t| >= 2
    ensures r.Some? ==> r.value.0 <= |t| && (r.value.0 == 6 || r.value.0 == 12)
    ensures r.Some? && r.value.0 == 6 ==> |r.value.1| <= 3
    ensures r.Some? && r.value.0 == 12 ==> |r.value.1| <= 4
  {
    if |t| < 6 then None
    else
      var first := Hex4(t[2..6]);
      if 0xDC00 <= first <= 0xDFFF then None
      else if 0xD800 <= first <= 0xDBFF then
        if |t| < 12 || t[6] != BACKSLASH || t[7] != LETTER_U then None
        else
          var second := Hex4(t[8..12]);
          if second < 0xDC00 || second > 0xDFFF then None
          else Some((12, Utf8(0x1_0000 + 0x400 * (first - 0xD800) + (second - 0xDC00))))
      else Some((6, Utf8(first)))
  }

  /** The byte of a one-character escape. */
  function Plain(c: Byte): Option<Byte>
  {
    if c == 98 then Some(8)
    else if c == 102 then Some(12)
    else if c == 110 then Some(10)
    else if c == 114 then Some(13)
    else if c == 116 then Some(9)
    else if c == QUOTE || c == BACKSLASH || c == 47 then Some(c)
    else None
  }

  /** The first byte or escape of a literal that is followed by a quote: how many bytes
      it takes and what it stands for. */
  function Unit(t: Bytes): (r: Option<(nat, Bytes)>)
    requires t != []
    ensures r.Some? ==> 0 < r.value.0 <= |t| && |r.value.1| <= if t[0] == BACKSLASH && |t| > 1 then r.value.0 / 2 else 1
    ensures r.Some? && t[0] == BACKSLASH && |t| > 1 ==> r.value.0 % 2 == 0
  {
    if t[0] != BACKSLASH then Some((1, [t[0]]))
    else
      var c := if |t| > 1 then t[1] else QUOTE;
      if c == LETTER_U then Literal(t)
      else
        var b :- Plain(c);
        Some((if |t| > 1 then 2 else 1, [b]))
  }

  /** The bytes written before the end or the first bad escape. */
  datatype Decoded = Decoded(bytes: Bytes, ok: bool)

  /** Undo the escapes of a literal that is followed by a quote. */
  function Decode(t: Bytes): Decoded
    decreases |t|
  {
    if t == [] then Decoded([], true)
    else match Unit(t)
      case None => Decoded([], false)
      case Some(u) =>
        var rest := Decode(t[u.0..]);
        Decoded(u.1 + rest.bytes, rest.ok)
  }

  /** The string that starts at the beginning of t, and where it ends. */
  function Parse(t: Bytes): Option<(Bytes, nat)>
  {
    if t == [] || t[0] != QUOTE then None
    else
      var end :- Close(t[1..]);
      var d := Decode(t[1..][..end]);
      if d.ok then Some((d.bytes, end + 2)) else None
  }

  // ---- the round trip ----

  lemma HexRoundTrip(n: nat)
    requires n < 0x1_0000
    ensures Hex4(Hex(n)) == n
  {
    hide Digit, HexDigit;
    HexParts(n);
    DigitRoundTrip(n / 0x1000);
    DigitRoundTrip(n / 0x100 % 16);
    DigitRoundTrip(n / 16 % 16);
    DigitRoundTrip(n % 16);
  }

  lemma HexParts(n: nat)
    ensures n == 0x1000 * (n / 0x1000) + 0x100 * (n / 0x100 % 16) + 16 * (n / 16 % 16) + n % 16
  {
    var a := n / 16;
    var b := n / 0x100;
    assert n == 16 * a + n % 16;
    assert a / 16 == b && a == 16 * b + a % 16;
    assert b / 16 == n / 0x1000 && b == 16 * (n / 0x1000) + b % 16;
  }

  lemma DigitRoundTrip(n: nat)
    requires n < 16
    ensures Digit(HexDigit(n)) == Some(n)
  {
  }

  lemma HexClean(n: nat)
    requires n < 0x1_0000
    ensures forall i | 0 <= i < 4 :: Hex(n)[i] != QUOTE && Hex(n)[i] != BACKSLASH
  {
  }

  /** A backslash takes the byte after it along. */
  lemma CloseTwo(c: Byte, rest: Bytes)
    ensures Close([BACKSLASH, c] + rest) == (match Close(rest) case None => None case Some(n) => Some(n + 2))
  {
    var t := [BACKSLASH, c] + rest;
    assert t[2..] == rest;
  }

  lemma CloseOne(b: Byte, rest: Bytes)
    requires b != QUOTE && b != BACKSLASH
    ensures Close([b] + rest) == (match Close(rest) case None => None case Some(n) => Some(n + 1))
  {
    assert ([b] + rest)[1..] == rest;
  }

  lemma {:induction false} CloseEscape(b: Byte, rest: Bytes)
    ensures Close(Escape(b) + rest) == (match Close(rest) case None => None case Some(n) => Some(n + |Escape(b)|))
  {
    hide Close, Hex, Letter;
    if b > 31 && b != QUOTE && b != BACKSLASH {
      CloseOne(b, rest);
    } else if Letter(b).Some? {
      CloseTwo(Letter(b).value, rest);
    } else {
      HexClean(b);
      CloseClean(Hex(b), rest);
      CloseTwo(LETTER_U, Hex(b) + rest);
      assert Escape(b) + rest == [BACKSLASH, LETTER_U] + (Hex(b) + rest);
    }
  }

  lemma {:induction false} CloseClean(clean: Bytes, rest: Bytes)
    requires forall i | 0 <= i < |clean| :: clean[i] != QUOTE && clean[i] != BACKSLASH
    ensures Close(clean + rest) == (match Close(rest) case None => None case Some(n) => Some(n + |clean|))
  {
    if clean == [] {
      assert clean + rest == rest;
    } else {
      assert (clean + rest)[1..] == clean[1..] + rest;
      CloseClean(clean[1..], rest);
    }
  }

  lemma {:induction false} CloseEscaped(s: Bytes, rest: Bytes)
    ensures Close(Escaped(s) + [QUOTE] + rest) == Some(|Escaped(s)|)
  {
    if s == [] {
      assert Escaped(s) + [QUOTE] + rest == [QUOTE] + rest;
    } else {
      CloseEscaped(s[1..], rest);
      CloseEscape(s[0], Escaped(s[1..]) + [QUOTE] + rest);
      assert Escaped(s) + [QUOTE] + rest == Escape(s[0]) + (Escaped(s[1..]) + [QUOTE] + rest);
    }
  }

  lemma {:induction false} UnitEscape(b: Byte, rest: Bytes)
    ensures Unit(Escape(b) + rest) == Some((|Escape(b)|, [b]))
  {
    var t := Escape(b) + rest;
    if |Escape(b)| == 6 {
      assert t[2..6] == Hex(b);
      HexRoundTrip(b);
      LiteralControl(t, b);
    }
  }

  lemma LiteralControl(t: Bytes, b: Byte)
    requires |t| >= 6 && b < 32 && Hex4(t[2..6]) == b
    ensures Literal(t) == Some((6, [b]))
  {
    hide Hex4;
  }

  lemma {:induction false} DecodeEscape(b: Byte, rest: Bytes)
    ensures Decode(Escape(b) + rest) == Decoded([b] + Decode(rest).bytes, Decode(rest).ok)
  {
    hide Unit, Escape;
    UnitEscape(b, rest);
    assert (Escape(b) + rest)[|Escape(b)|..] == rest;
  }

  lemma {:induction false} DecodeEscaped(s: Bytes)
    ensures Decode(Escaped(s)) == Decoded(s, true)
  {
    if s != [] {
      DecodeEscaped(s[1..]);
      DecodeEscape(s[0], Escaped(s[1..]));
    }
  }

  /** Parsing what was printed gives the string back and stops behind the closing
      quote, whatever follows. */
  lemma {:induction false} RoundTrip(s: Bytes, rest: Bytes)
    ensures Parse(Printed(s) + rest) == Some((s, |Printed(s)|))
  {
    hide Escaped, Close, Decode;
    var t := Printed(s) + rest;
    assert t[1..] == Escaped(s) + [QUOTE] + rest;
    CloseEscaped(s, rest);
    assert t[1..][..|Escaped(s)|] == Escaped(s);
    DecodeEscaped(s);
  }

  // ---- what is printed ----

  /** The two-character escapes of RFC 8259, section 7: the letter and the byte it stands for. */
  const SHORT_ESCAPES: seq<(char, Byte)> :=
    [('"', 34), ('\\', 92), ('/', 47), ('b', 8), ('f', 12), ('n', 10), ('r', 13), ('t', 9)]

  const HEX_DIGITS := "0123456789abcdef"

  predicate Short(c: Byte, b: Byte)
  {
    exists i | 0 <= i < |SHORT_ESCAPES| :: SHORT_ESCAPES[i].0 as int == c && SHORT_ESCAPES[i].1 == b
  }

  /** A parser takes a letter behind a backslash for a byte if and only if the table says so. */
  lemma ShortExact(c: Byte, b: Byte, rest: Bytes)
    requires c != LETTER_U
    ensures Unit([BACKSLASH, c] + rest) == Some((2, [b])) <==> Short(c, b)
  {
    var table := SHORT_ESCAPES;
    assert table[0] == ('"', 34) && table[1] == ('\\', 92) && table[2] == ('/', 47) && table[3] == ('b', 8);
    assert table[4] == ('f', 12) && table[5] == ('n', 10) && table[6] == ('r', 13) && table[7] == ('t', 9);
  }

  /** What is printed is text: no control byte is left in it. */
  lemma {:induction false} PrintedClean(s: Bytes)
    ensures forall i | 0 <= i < |Escaped(s)| :: Escaped(s)[i] >= 32
  {
    if s != [] {
      PrintedClean(s[1..]);
      EscapeClean(s[0]);
    }
  }

  lemma EscapeClean(b: Byte)
    ensures forall i | 0 <= i < |Escape(b)| :: Escape(b)[i] >= 32
  {
  }

  /** A control byte without a letter is printed with lower-case digits. */
  lemma ControlEscape(b: Byte)
    requires b < 32 && forall c: Byte :: !Short(c, b)
    ensures Escape(b) == [BACKSLASH, LETTER_U, 48, 48, HEX_DIGITS[b / 16] as int, HEX_DIGITS[b % 16] as int]
  {
    forall i | 0 <= i < |SHORT_ESCAPES|
      ensures SHORT_ESCAPES[i].1 != b
    {
      assert !Short(SHORT_ESCAPES[i].0 as int, b);
    }
    var table := SHORT_ESCAPES;
    assert table[3] == ('b', 8) && table[4] == ('f', 12);
    assert table[5] == ('n', 10) && table[6] == ('r', 13) && table[7] == ('t', 9);
  }

  /** The printer's form of a byte is the shortest text a parser reads as that byte. */
  lemma {:induction false} EscapeShortest(b: Byte, t: Bytes)
    requires Decode(t) == Decoded([b], true) && Close(t + [QUOTE]) == Some(|t|)
    requires forall i | 0 <= i < |t| :: t[i] >= 32
    ensures |Escape(b)| <= |t|
  {
    hide Hex, Utf8;
    assert t != [];
    var u := Unit(t).value;
    UnitGives(t);
    assert u.1 + Decode(t[u.0..]).bytes == [b];
    assert |Decode(t[u.0..]).bytes| == 0;
    if t[u.0..] != [] {
      UnitGives(t[u.0..]);
      assert false;
    }
    assert t[0] != QUOTE;
    assert u.0 == |t| by {
      assert |t[u.0..]| == |t| - u.0;
    }
    assert u.1 == [b] by {
      assert u.1 + [] == u.1;
    }
    if t[0] != BACKSLASH {
      assert t == [b];
    } else if |t| == 1 {
      assert false;
    } else if t[1] != LETTER_U {
      assert Plain(t[1]) == Some(b);
    }
  }

  lemma UnitGives(t: Bytes)
    requires t != []
    ensures Unit(t).Some? ==> Unit(t).value.1 != []
  {
    hide Hex4;
  }

  // ---- Unicode ----

  predicate IsScalar(cp: nat)
  {
    cp < 0xD800 || 0xE000 <= cp < 0x11_0000
  }

  predicate Tail(b: Byte)
  {
    0x80 <= b <= 0xBF
  }

  /** The code point of one UTF-8 sequence: shortest form only, no surrogates. */
  function Scalar(b: Bytes): Option<nat>
  {
    if |b| == 1 && b[0] < 0x80 then Some(b[0])
    else if |b| == 2 && 0xC2 <= b[0] <= 0xDF && Tail(b[1]) then
      Some(64 * (b[0] - 0xC0) as nat + (b[1] - 0x80) as nat)
    else if |b| == 3 && 0xE0 <= b[0] <= 0xEF && Tail(b[1]) && Tail(b[2]) then
      var cp: nat := 4096 * (b[0] - 0xE0) as nat + 64 * (b[1] - 0x80) as nat + (b[2] - 0x80) as nat;
      if cp >= 0x800 && IsScalar(cp) then Some(cp) else None
    else if |b| == 4 && 0xF0 <= b[0] <= 0xF4 && Tail(b[1]) && Tail(b[2]) && Tail(b[3]) then
      var cp: nat := 0x4_0000 * (b[0] - 0xF0) as nat + 4096 * (b[1] - 0x80) as nat +
                     64 * (b[2] - 0x80) as nat + (b[3] - 0x80) as nat;
      if 0x1_0000 <= cp && IsScalar(cp) then Some(cp) else None
    else None
  }

  /** The encoder writes the one UTF-8 sequence of each code point. */
  lemma {:induction false} Utf8Exact(cp: nat, b: Bytes)
    requires IsScalar(cp)
    ensures Scalar(b) == Some(cp) <==> b == Utf8(cp)
  {
    if b == Utf8(cp) {
      Utf8Decodes(cp);
    } else if Scalar(b) == Some(cp) {
      ScalarEncodes(b);
    }
  }

  /** The base-64 digits of a number. */
  lemma Parts(x: nat, y: nat, z: nat, w: nat)
    requires y < 64 && z < 64 && w < 64
    ensures var n := 0x4_0000 * x + 4096 * y + 64 * z + w;
            n % 64 == w && n / 64 % 64 == z && n / 4096 % 64 == y && n / 0x4_0000 == x
            && n / 64 == 4096 * x + 64 * y + z && n / 4096 == 64 * x + y
  {
    var n := 0x4_0000 * x + 4096 * y + 64 * z + w;
    var a := 4096 * x + 64 * y + z;
    var b := 64 * x + y;
    assert n == 64 * a + w && n / 64 == a && n % 64 == w;
    assert a == 64 * b + z && a / 64 == b && a % 64 == z;
    assert b / 64 == x && b % 64 == y;
    assert n / 4096 == a / 64 && n / 0x4_0000 == b / 64;
  }

  lemma Utf8Decodes(cp: nat)
    requires IsScalar(cp)
    ensures Scalar(Utf8(cp)) == Some(cp)
  {
    var x, y, z, w := cp / 0x4_0000, cp / 4096 % 64, cp / 64 % 64, cp % 64;
    FromParts(cp);
    Parts(x, y, z, w);
  }

  lemma FromParts(n: nat)
    ensures n == 0x4_0000 * (n / 0x4_0000) + 4096 * (n / 4096 % 64) + 64 * (n / 64 % 64) + n % 64
  {
    var a := n / 64;
    var b := n / 4096;
    assert n == 64 * a + n % 64;
    assert a / 64 == b && a == 64 * b + a % 64;
    assert b / 64 == n / 0x4_0000 && b == 64 * (n / 0x4_0000) + b % 64;
  }

  lemma ScalarEncodes(b: Bytes)
    requires Scalar(b).Some?
    ensures Scalar(b).value < 0x11_0000 && b == Utf8(Scalar(b).value)
  {
    if |b| == 2 {
      Parts(0, 0, b[0] as nat - 0xC0, b[1] as nat - 0x80);
    } else if |b| == 3 {
      var x := b[0] as nat - 0xE0;
      Parts(0, x, b[1] as nat - 0x80, b[2] as nat - 0x80);
    } else if |b| == 4 {
      Parts(b[0] as nat - 0xF0, b[1] as nat - 0x80, b[2] as nat - 0x80, b[3] as nat - 0x80);
    }
  }

  /** Hexadecimal digits of either case. */
  predicate Digits(t: Bytes)
  {
    forall i | 0 <= i < |t| :: Digit(t[i]).Some?
  }

  /** The number that digits stand for in base 16. */
  function Base16(t: Bytes): nat
    requires Digits(t)
  {
    if t == [] then 0 else Base16(t[..|t| - 1]) * 16 + Digit(t[|t| - 1]).value
  }

  /** The code unit four bytes stand for, and 0 if they are not all digits. */
  function Code(t: Bytes): nat
  {
    if Digits(t) then Base16(t) else 0
  }

  lemma {:induction false} Hex4Exact(t: Bytes)
    requires |t| == 4
    ensures Hex4(t) == Code(t)
  {
    hide Digit;
    if Digits(t) {
      assert t[..3][..2] == t[..2] && t[..2][..1] == t[..1] && t[..1][..0] == [];
      assert Base16(t[..1]) == Digit(t[0]).value;
      assert Base16(t[..2]) == 16 * Digit(t[0]).value + Digit(t[1]).value;
      assert Base16(t[..3]) == 0x100 * Digit(t[0]).value + 16 * Digit(t[1]).value + Digit(t[2]).value;
    }
  }

  /** Four bytes as a \u escape. */
  function Group(t: Bytes): (r: Bytes)
    ensures |r| == |t| + 2
  {
    [BACKSLASH, LETTER_U] + t
  }

  predicate High(u: nat)
  {
    0xD800 <= u <= 0xDBFF
  }

  predicate Low(u: nat)
  {
    0xDC00 <= u <= 0xDFFF
  }

  /** The code point of a surrogate pair. */
  function Joined(u: nat, v: nat): (cp: nat)
    requires High(u) && Low(v)
    ensures 0x1_0000 <= cp < 0x11_0000
  {
    0x1_0000 + 0x400 * (u - 0xD800) + (v - 0xDC00)
  }

  lemma {:induction false} OneUnit(t: Bytes, rest: Bytes)
    requires |t| == 4 && !High(Code(t)) && !Low(Code(t))
    ensures Code(t) < 0x1_0000 && Unit(Group(t) + rest) == Some((6, Utf8(Code(t)))) && (Group(t) + rest)[6..] == rest
  {
    hide Hex4, Utf8, Code;
    var all := Group(t) + rest;
    assert all[2..6] == t && all[6..] == rest;
    Hex4Exact(t);
  }

  lemma {:induction false} TwoUnits(t: Bytes, u: Bytes, rest: Bytes)
    requires |t| == |u| == 4 && High(Code(t))
    ensures Unit(Group(t) + Group(u) + rest) ==
            if Low(Code(u)) then Some((12, Utf8(Joined(Code(t), Code(u))))) else None
    ensures (Group(t) + Group(u) + rest)[12..] == rest
  {
    hide Hex4, Utf8, Code;
    var all := Group(t) + Group(u) + rest;
    assert all[2..6] == t && all[8..12] == u && all[12..] == rest;
    Hex4Exact(t);
    Hex4Exact(u);
  }

  /** The bytes are \u escapes of a code point: one code unit or a surrogate pair, in
      digits of either case. */
  predicate Spells(e: Bytes, cp: nat)
  {
    || (|e| == 6 && e == Group(e[2..6]) && Code(e[2..6]) == cp)
    || (|e| == 12 && e == Group(e[2..6]) + Group(e[8..12]) && High(Code(e[2..6])) && Low(Code(e[8..12])) &&
        cp == Joined(Code(e[2..6]), Code(e[8..12])))
  }

  /** Whatever \u escapes spell a code point decode to the one UTF-8 sequence that stands
      for it, whatever follows, and to no other. */
  lemma {:induction false} EscapesDecode(cp: nat, e: Bytes, b: Bytes, rest: Bytes)
    requires IsScalar(cp) && Spells(e, cp)
    ensures Decode(e + rest) == Decoded(b + Decode(rest).bytes, Decode(rest).ok) <==> Scalar(b) == Some(cp)
  {
    hide Unit, Utf8, Scalar, Code, Group;
    Utf8Exact(cp, b);
    if |e| == 6 {
      OneUnit(e[2..6], rest);
    } else {
      TwoUnits(e[2..6], e[8..12], rest);
    }
    DecodeFirst(e, rest, Utf8(cp));
    SameHead(b, Utf8(cp), Decode(rest).bytes);
  }

  lemma DecodeFirst(e: Bytes, rest: Bytes, b: Bytes)
    requires e != [] && Unit(e + rest) == Some((|e|, b)) && (e + rest)[|e|..] == rest
    ensures Decode(e + rest) == Decoded(b + Decode(rest).bytes, Decode(rest).ok)
  {
    hide Unit;
  }

  lemma SameHead(a: Bytes, b: Bytes, tail: Bytes)
    ensures a + tail == b + tail <==> a == b
  {
    if a + tail == b + tail {
      assert |a| == |b|;
      assert a == (a + tail)[..|a|] && b == (b + tail)[..|a|];
    }
  }

  predicate Fours(ts: seq<Bytes>)
  {
    forall i | 0 <= i < |ts| :: |ts[i]| == 4
  }

  function Groups(ts: seq<Bytes>): Bytes
  {
    if ts == [] then [] else Group(ts[0]) + Groups(ts[1..])
  }

  function Codes(ts: seq<Bytes>): (r: seq<nat>)
    ensures |r| == |ts|
  {
    seq(|ts|, i requires 0 <= i < |ts| => Code(ts[i]))
  }

  /** Well-formed UTF-16: surrogates come in pairs, the high one first. */
  predicate Paired(us: seq<nat>)
  {
    if us == [] then true
    else if High(us[0]) then |us| > 1 && Low(us[1]) && Paired(us[2..])
    else !Low(us[0]) && Paired(us[1..])
  }

  /** A string of \u escapes, of any four bytes each, is accepted if and only if its code
      units are well-formed UTF-16, where an escape that is not all digits counts as the
      code unit 0. */
  lemma {:induction false} AcceptedIffPaired(ts: seq<Bytes>)
    requires Fours(ts)
    ensures Decode(Groups(ts)).ok <==> Paired(Codes(ts))
    decreases |ts|
  {
    hide Unit, Utf8, Code, Group;
    if ts != [] {
      var t, rest := ts[0], Groups(ts[1..]);
      assert Codes(ts)[1..] == Codes(ts[1..]);
      if High(Code(t)) {
        if |ts| > 1 {
          assert Codes(ts)[2..] == Codes(ts[2..]) && ts[1..][1..] == ts[2..];
          var all := Group(t) + Group(ts[1]) + Groups(ts[2..]);
          TwoUnits(t, ts[1], Groups(ts[2..]));
          AcceptedIffPaired(ts[2..]);
          assert Groups(ts) == all && all != [];
          assert Decode(all).ok <==> Low(Code(ts[1])) && Decode(all[12..]).ok;
        } else {
          LoneUnit(t, rest);
        }
      } else if Low(Code(t)) {
        LoneUnit(t, rest);
      } else {
        OneUnit(t, rest);
        AcceptedIffPaired(ts[1..]);
      }
    }
  }

  /** A surrogate without its partner is refused: a low one, or a high one that no other
      escape follows. */
  lemma {:induction false} LoneUnit(t: Bytes, rest: Bytes)
    requires |t| == 4
    requires Low(Code(t)) || (High(Code(t)) && (|rest| < 6 || rest[0] != BACKSLASH || rest[1] != LETTER_U))
    ensures Group(t) + rest != [] && Unit(Group(t) + rest).None?
  {
    hide Hex4, Utf8, Code;
    var all := Group(t) + rest;
    assert all[2..6] == t && all[6..] == rest;
    Hex4Exact(t);
  }

  /** Four bytes that are not all hexadecimal digits are not refused: the escape is read
      as the code point 0, as four zeroes are, and as no other digits are. */
  lemma {:induction false} BadDigits(t: Bytes, rest: Bytes)
    requires |t| == 4
    ensures Unit(Group(t) + rest) == Some((6, [0])) <==> !Digits(t) || Base16(t) == 0
  {
    hide Hex4, Code;
    var all := Group(t) + rest;
    assert all[2..6] == t;
    Hex4Exact(t);
    CodeZero(t);
  }

  lemma CodeZero(t: Bytes)
    ensures Code(t) == 0 <==> !Digits(t) || Base16(t) == 0
  {
    hide Base16, Digits;
  }

  /** As the second half of a pair they are refused. */
  lemma {:induction false} SecondHalf(t: Bytes, u: Bytes, rest: Bytes)
    requires |t| == |u| == 4 && High(Code(t))
    ensures Unit(Group(t) + Group(u) + rest).Some? <==> Digits(u) && Low(Base16(u))
  {
    hide Unit, Utf8, Base16, Digits;
    TwoUnits(t, u, rest);
  }

  // ---- the parser's buffer ----

  /** A literal in which no backslash is the last byte. */
  predicate Whole(t: Bytes)
  {
    t == [] || (if t[0] == BACKSLASH then |t| > 1 && Whole(t[2..]) else Whole(t[1..]))
  }

  /** The escapes the first pass counts. */
  function Skips(t: Bytes): nat
    requires Whole(t)
  {
    if t == [] then 0
    else if t[0] == BACKSLASH then 1 + Skips(t[2..])
    else Skips(t[1..])
  }

  /** Going k bytes ahead ends at an escape boundary, or inside an escape. */
  lemma {:induction false} ScanAhead(t: Bytes, k: nat)
    requires Whole(t) && k <= |t|
    ensures || (Whole(t[k..]) && Skips(t) <= Skips(t[k..]) + k / 2)
            || (k < |t| && Whole(t[k + 1..]) && Skips(t) <= Skips(t[k + 1..]) + (k + 1) / 2)
    decreases k
  {
    if k == 0 {
      assert t[0..] == t;
    } else if t[0] != BACKSLASH {
      ScanAhead(t[1..], k - 1);
      assert t[1..][k - 1..] == t[k..];
      assert k < |t| ==> t[1..][k..] == t[k + 1..];
    } else if k > 1 {
      ScanAhead(t[2..], k - 2);
      assert t[2..][k - 2..] == t[k..];
      assert k < |t| ==> t[2..][k - 1..] == t[k + 1..];
    }
  }

  /** The literal from here on, when the first pass has a boundary here or one byte on. */
  function SkipsFrom(t: Bytes, inside: bool): nat
    requires if inside then t != [] && Whole(t[1..]) else Whole(t)
  {
    if inside then Skips(t[1..]) else Skips(t)
  }

  /** The second pass, which may get out of step with the first inside a bad \u escape,
      still writes no more than the first pass reserved. */
  lemma {:induction false} FitsBuffer(t: Bytes, inside: bool)
    requires if inside then t != [] && Whole(t[1..]) else Whole(t)
    ensures |Decode(t).bytes| + SkipsFrom(t, inside) <= |t|
    decreases |t|
  {
    hide Unit;
    if t == [] {
    } else if t[0] != BACKSLASH {
      UnitPlain(t);
      FitsBuffer(t[1..], false);
    } else if |t| == 1 {
      assert Unit(t).Some? ==> t[Unit(t).value.0..] == [];
    } else {
      FewSkips(t, inside);
      if Unit(t).Some? {
        FitsAfter(t, inside, Unit(t).value.0);
      }
    }
  }

  lemma UnitPlain(t: Bytes)
    requires t != [] && t[0] != BACKSLASH
    ensures Unit(t) == Some((1, [t[0]]))
  {
  }

  lemma {:induction false} FewSkips(t: Bytes, inside: bool)
    requires if inside then t != [] && Whole(t[1..]) else Whole(t)
    ensures SkipsFrom(t, inside) <= |t|
  {
    if inside {
      ScanAhead(t[1..], |t| - 1);
    } else {
      ScanAhead(t, |t|);
    }
  }

  /** The bound for what follows an escape of k bytes. */
  lemma {:induction false} FitsAfter(t: Bytes, inside: bool, k: nat)
    requires if inside then t != [] && Whole(t[1..]) else Whole(t)
    requires 2 <= k <= |t| && k % 2 == 0
    ensures |Decode(t[k..]).bytes| + SkipsFrom(t, inside) <= |t| - k + k / 2
    decreases |t|, 0
  {
    hide Decode;
    var rest := t[k..];
    if inside {
      ScanAhead(t[1..], k - 1);
      assert t[1..][k - 1..] == rest;
      assert k < |t| ==> t[1..][k..] == rest[1..];
    } else {
      ScanAhead(t, k);
      assert k < |t| ==> t[k + 1..] == rest[1..];
    }
    if Whole(rest) {
      FitsBuffer(rest, false);
    }
    if rest != [] && Whole(rest[1..]) {
      FitsBuffer(rest, true);
    }
  }

  // ---- the loops ----

  /** The bytes that the escapes of a string add. */
  function Extra(s: Bytes): nat
  {
    if s == [] then 0 else Extra(s[..|s| - 1]) + |Escape(s[|s| - 1])| - 1
  }

  lemma {:induction false} EscapedAppend(s: Bytes, b: Byte)
    ensures Escaped(s + [b]) == Escaped(s) + Escape(b)
  {
    if s == [] {
      assert s + [b] == [b] && Escaped([]) == [];
    } else {
      assert (s + [b])[1..] == s[1..] + [b];
      EscapedAppend(s[1..], b);
    }
  }

  lemma {:induction false} EscapedLength(s: Bytes)
    ensures |Escaped(s)| == |s| + Extra(s)
  {
    if s != [] {
      EscapedLength(s[..|s| - 1]);
      EscapedAppend(s[..|s| - 1], s[|s| - 1]);
      assert s == s[..|s| - 1] + [s[|s| - 1]];
    }
  }

  lemma ExtraAppend(s: Bytes, b: Byte)
    ensures Extra(s + [b]) == Extra(s) + |Escape(b)| - 1
  {
    assert (s + [b])[..|s|] == s;
  }

  lemma PlainByte(b: Byte)
    ensures |Escape(b)| == 1 ==> Escape(b) == [b]
  {
    hide Letter;
  }

  lemma {:induction false} NothingExtra(s: Bytes)
    requires Extra(s) == 0
    ensures Escaped(s) == s
  {
    if s != [] {
      hide Extra, Escaped, Escape;
      var init, b := s[..|s| - 1], s[|s| - 1];
      assert s == init + [b];
      ExtraAppend(init, b);
      NothingExtra(init);
      EscapedAppend(init, b);
      PlainByte(b);
    }
  }

  /** Escape a string into a buffer of exactly the length reserved for it. */
  method Print(input: Bytes) returns (output: array<Byte>)
    requires 0 !in input
    ensures output[..] == Printed(input) + [0]
  {
    hide Escaped, Extra;
    var escapes := CountEscapes(input);
    EscapedLength(input);
    var length := |input| + escapes;
    output := new Byte[length + 3](_ => 0);
    output[0] := QUOTE;
    if escapes == 0 {
      NothingExtra(input);
      CopyPlain(input, output);
    } else {
      CopyEscaped(input, output);
    }
    output[length + 1] := QUOTE;
    output[length + 2] := 0;
    assert output[1..length + 1] == Escaped(input);
    assert output[..] == [output[0]] + output[1..length + 1] + [output[length + 1], output[length + 2]];
  }

  method CountEscapes(input: Bytes) returns (escapes: nat)
    ensures escapes == Extra(input)
  {
    escapes := 0;
    var i := 0;
    while i < |input|
      invariant 0 <= i <= |input| && escapes == Extra(input[..i])
    {
      assert input[..i + 1][..i] == input[..i];
      if Letter(input[i]).Some? {
        escapes := escapes + 1;
      } else if input[i] < 32 {
        escapes := escapes + 5;
      }
      i := i + 1;
    }
    assert input[..i] == input;
  }

  method CopyPlain(input: Bytes, output: array<Byte>)
    requires output.Length == |input| + 3
    modifies output
    ensures output[0] == old(output[0]) && output[1..|input| + 1] == input
  {
    var i := 0;
    while i < |input|
      invariant 0 <= i <= |input| && output[0] == old(output[0])
      invariant output[1..i + 1] == input[..i]
    {
      output[i + 1] := input[i];
      assert output[1..i + 2] == output[1..i + 1] + [input[i]];
      i := i + 1;
    }
  }

  method CopyEscaped(input: Bytes, output: array<Byte>)
    requires output.Length == |Escaped(input)| + 3
    modifies output
    ensures output[0] == old(output[0]) && output[1..|Escaped(input)| + 1] == Escaped(input)
  {
    hide Escaped, Escape;
    EscapedNone();
    var i, at := 0, 1;
    assert input[..0] == [] && input[0..] == input;
    while i < |input|
      invariant 0 <= i <= |input| && at == 1 + |Escaped(input[..i])|
      invariant output[0] == old(output[0]) && at + |Escaped(input[i..])| == 1 + |Escaped(input)|
      invariant output[1..at] == Escaped(input[..i])
    {
      assert input[..i + 1] == input[..i] + [input[i]];
      EscapedAppend(input[..i], input[i]);
      EscapedFirst(input[i..]);
      assert input[i..][1..] == input[i + 1..];
      ghost var done := output[..at];
      assert done[1..] == output[1..at];
      assert done[0] == output[0];
      var next := PutEscape(input[i], output, at);
      assert output[..at] == done;
      assert output[..at][1..] == output[1..at] && output[1..next] == output[1..at] + output[at..next];
      assert output[0] == output[..at][0];
      at := next;
      i := i + 1;
    }
    assert input[..i] == input;
  }

  lemma EscapedNone()
    ensures Escaped([]) == []
  {
  }

  lemma EscapedFirst(s: Bytes)
    requires s != []
    ensures Escaped(s) == Escape(s[0]) + Escaped(s[1..])
  {
  }

  /** Write one escaped byte at the output pointer. */
  method PutEscape(b: Byte, output: array<Byte>, at: nat) returns (next: nat)
    requires at + |Escape(b)| <= output.Length
    modifies output
    ensures next == at + |Escape(b)| && output[at..next] == Escape(b)
    ensures output[..at] == old(output[..at])
  {
    hide Hex;
    if b > 31 && b != QUOTE && b != BACKSLASH {
      output[at] := b;
      next := at + 1;
    } else if Letter(b).Some? {
      output[at] := BACKSLASH;
      output[at + 1] := Letter(b).value;
      next := at + 2;
    } else {
      var digits := Hex(b);
      output[at], output[at + 1] := BACKSLASH, LETTER_U;
      output[at + 2], output[at + 3], output[at + 4], output[at + 5] := digits[0], digits[1], digits[2], digits[3];
      next := at + 6;
    }
  }

  lemma {:induction false} CloseStep(t: Bytes)
    requires t != [] && t[0] != QUOTE
    ensures var k := if t[0] == BACKSLASH then 2 else 1;
            && (|t| < k ==> Close(t).None?)
            && (|t| >= k ==> Close(t) == match Close(t[k..]) case None => None case Some(n) => Some(n + k))
  {
  }

  lemma {:induction false} CloseWhole(t: Bytes)
    requires Close(t).Some?
    ensures Whole(t[..Close(t).value])
  {
    var n := Close(t).value;
    if t[0] == QUOTE {
    } else if t[0] == BACKSLASH {
      CloseWhole(t[2..]);
      assert t[..n][2..] == t[2..][..n - 2];
    } else {
      CloseWhole(t[1..]);
      assert t[..n][1..] == t[1..][..n - 1];
    }
  }

  /** Parse the string that starts at the beginning of the input. */
  method ParseString(t: Bytes) returns (r: Option<(Bytes, nat)>)
    requires t != []
    ensures r == Parse(t)
  {
    if t[0] != QUOTE {
      return None;
    }
    var end, skipped := FindEnd(t[1..]);
    if end.None? {
      return None;
    }
    var literal := t[1..][..end.value];
    CloseWhole(t[1..]);
    var output := new Byte[end.value + 1 - skipped + 1];
    var n, ok := Unescape(literal, output);
    if !ok {
      return None;
    }
    r := Some((output[..n], end.value + 2));
  }

  /** The first pass: the closing quote, and the escapes before it. */
  method FindEnd(t: Bytes) returns (end: Option<nat>, skipped: nat)
    ensures end == Close(t)
    ensures end.Some? ==> Whole(t[..end.value]) && skipped == Skips(t[..end.value])
    ensures end.Some? ==> skipped <= end.value
  {
    hide Close, Whole, Skips;
    WholePlain(0);
    assert t[..0] == [] && t[0..] == t;
    var i := 0;
    skipped := 0;
    while i < |t| && t[i] != QUOTE
      invariant 0 <= i <= |t|
      invariant Close(t) == match Close(t[i..]) case None => None case Some(n) => Some(n + i)
      invariant Whole(t[..i]) && skipped == Skips(t[..i])
    {
      CloseStep(t[i..]);
      if t[i] == BACKSLASH {
        if i + 1 >= |t| {
          return None, skipped;
        }
        assert t[i..][2..] == t[i + 2..];
        WholeEscape(t[i + 1]);
        WholeAppend(t[..i], [BACKSLASH, t[i + 1]]);
        assert t[..i] + [BACKSLASH, t[i + 1]] == t[..i + 2];
        skipped := skipped + 1;
        i := i + 2;
      } else {
        assert t[i..][1..] == t[i + 1..];
        WholePlain(t[i]);
        WholeAppend(t[..i], [t[i]]);
        assert t[..i] + [t[i]] == t[..i + 1];
        i := i + 1;
      }
    }
    CloseHere(t[i..]);
    if i >= |t| {
      return None, skipped;
    }
    end := Some(i);
    FewSkips(t[..i], false);
  }

  lemma CloseHere(t: Bytes)
    ensures t == [] ==> Close(t).None?
    ensures t != [] && t[0] == QUOTE ==> Close(t) == Some(0)
  {
  }

  lemma WholePlain(b: Byte)
    requires b != BACKSLASH
    ensures Whole([]) && Skips([]) == 0 && Whole([b]) && Skips([b]) == 0
  {
    assert [b][1..] == [];
  }

  lemma WholeEscape(b: Byte)
    ensures Whole([BACKSLASH, b]) && Skips([BACKSLASH, b]) == 1
  {
    assert [BACKSLASH, b][2..] == [];
  }

  lemma {:induction false} WholeAppend(t: Bytes, u: Bytes)
    requires Whole(t) && Whole(u)
    ensures Whole(t + u) && Skips(t + u) == Skips(t) + Skips(u)
  {
    if t == [] {
      assert t + u == u;
    } else if t[0] == BACKSLASH {
      assert (t + u)[2..] == t[2..] + u;
      WholeAppend(t[2..], u);
    } else {
      assert (t + u)[1..] == t[1..] + u;
      WholeAppend(t[1..], u);
    }
  }

  /** The second pass: write the bytes the literal stands for. */
  method Unescape(t: Bytes, output: array<Byte>) returns (n: nat, ok: bool)
    requires Whole(t) && output.Length > |t| - Skips(t)
    modifies output
    ensures ok == Decode(t).ok
    ensures ok ==> n <= output.Length && output[..n] == Decode(t).bytes
  {
    hide Unit, Decode, Whole, Skips;
    FitsBuffer(t, false);
    DecodeNone();
    var rest := t;
    n := 0;
    while rest != []
      invariant n + |Decode(rest).bytes| == |Decode(t).bytes| < output.Length
      invariant Decode(t) == Decoded(output[..n] + Decode(rest).bytes, Decode(rest).ok)
      decreases |rest|
    {
      DecodeNext(rest);
      var unit := NextUnit(rest);
      if unit.None? {
        return n, false;
      }
      ghost var done := output[..n];
      Emit(unit.value.1, output, n);
      n := n + |unit.value.1|;
      assert output[..n] == done + unit.value.1;
      rest := rest[unit.value.0..];
    }
    ok := true;
  }

  lemma DecodeNone()
    ensures Decode([]) == Decoded([], true)
  {
  }

  lemma DecodeNext(t: Bytes)
    requires t != []
    ensures Decode(t) == match Unit(t)
                         case None => Decoded([], false)
                         case Some(u) => Decoded(u.1 + Decode(t[u.0..]).bytes, Decode(t[u.0..]).ok)
  {
  }

  /** Take the next byte or escape. */
  method NextUnit(rest: Bytes) returns (unit: Option<(nat, Bytes)>)
    requires rest != []
    ensures unit == Unit(rest)
  {
    if rest[0] != BACKSLASH {
      return Some((1, [rest[0]]));
    }
    var c := if |rest| > 1 then rest[1] else QUOTE;
    if c == LETTER_U {
      return Literal(rest);
    }
    var b := Plain(c);
    unit := if b.None? then None else Some((if |rest| > 1 then 2 else 1, [b.value]));
  }

  /** Write a UTF-8 sequence at the output pointer. */
  method Emit(bytes: Bytes, output: array<Byte>, at: nat)
    requires at + |bytes| <= output.Length
    modifies output
    ensures output[..at] == old(output[..at]) && output[at..at + |bytes|] == bytes
  {
    var i := 0;
    while i < |bytes|
      invariant 0 <= i <= |bytes|
      invariant output[..at] == old(output[..at]) && output[at..at + i] == bytes[..i]
    {
      output[at + i] := bytes[i];
      assert output[at..at + i + 1] == output[at..at + i] + [bytes[i]];
      i := i + 1;
    }
  }
}
