/**
 The slot bitmap of a section: 32-bit words in which a set bit is a free slot.
 Bits past the last slot stay clear.
 */
module FreeMap {
  import opened Arith
  import opened Entries

  const WORD: nat := 32

  /** A 32-bit word, least significant bit first. */
  type Word = w: seq<bool> | |w| == WORD witness seq(WORD, _ => false)

  function Zero(): Word
  {
    seq(WORD, _ => false)
  }

  function Capacity(total: nat): nat
  {
    (total + 31) / 32
  }

  // ---- which slots are used ----

  /** The number of used slots. */
  function Count(used: seq<bool>): (n: nat)
    ensures n <= |used|
  {
    if used == [] then 0 else Count(used[..|used| - 1]) + if used[|used| - 1] then 1 else 0
  }

  /** The lowest free slot. */
  function FirstFree(used: seq<bool>): (r: Option<nat>)
    ensures r.Some? ==> r.value < |used| && !used[r.value] && forall j | 0 <= j < r.value :: used[j]
    ensures r.None? ==> forall j | 0 <= j < |used| :: used[j]
  {
    if used == [] then None
    else if !used[0] then Some(0)
    else match FirstFree(used[1..])
      case Some(i) =>
        assert forall j | 0 < j <= i :: used[j] == used[1..][j - 1];
        Some(i + 1)
      case None =>
        assert forall j | 0 < j < |used| :: used[j] == used[1..][j - 1];
        None
  }

  /** One past the highest used slot. */
  function Extent(used: seq<bool>): (n: nat)
    ensures n <= |used|
    ensures n > 0 ==> used[n - 1]
    ensures forall i | n <= i < |used| :: !used[i]
  {
    if used == [] then 0
    else if used[|used| - 1] then |used|
    else Extent(used[..|used| - 1])
  }

  /** Where each used slot goes when the used slots move to the front in order. */
  function Relocation(used: seq<bool>): (r: seq<Option<nat>>)
    ensures |r| == |used|
  {
    if used == [] then []
    else
      var rest := used[..|used| - 1];
      Relocation(rest) + [if used[|used| - 1] then Some(Count(rest)) else None]
  }

  /** The first n slots used, the others free. */
  function Front(n: nat, total: nat): (used: seq<bool>)
    ensures |used| == total
  {
    seq(total, i => i < n)
  }

  lemma {:induction false} CountTake(used: seq<bool>, i: nat)
    requires i < |used|
    ensures Count(used[..i + 1]) == Count(used[..i]) + if used[i] then 1 else 0
  {
    assert used[..i + 1][..i] == used[..i];
  }

  lemma {:induction false} CountMonotone(used: seq<bool>, i: nat, j: nat)
    requires i <= j <= |used|
    ensures Count(used[..i]) <= Count(used[..j]) <= Count(used[..i]) + (j - i)
  {
    if i < j {
      CountMonotone(used, i, j - 1);
      CountTake(used, j - 1);
    }
  }

  lemma {:induction false} RelocationAt(used: seq<bool>, i: nat)
    requires i < |used|
    ensures Relocation(used)[i] == if used[i] then Some(Count(used[..i])) else None
  {
    var rest := used[..|used| - 1];
    if i < |rest| {
      RelocationAt(rest, i);
      assert rest[..i] == used[..i];
    }
  }

  /** The relocation is strictly increasing on the used slots, never moves a slot
      up, and fills exactly the first Count slots. */
  lemma {:induction false} RelocationCompacts(used: seq<bool>)
    ensures forall i | 0 <= i < |used| :: Relocation(used)[i].Some? <==> used[i]
    ensures forall i | 0 <= i < |used| && used[i] :: Relocation(used)[i].value <= i
    ensures forall i | 0 <= i < |used| && used[i] :: Relocation(used)[i].value < Count(used)
    ensures forall i, j | 0 <= i < j < |used| && used[i] && used[j] ::
              Relocation(used)[i].value < Relocation(used)[j].value
    ensures forall k: nat | k < Count(used) :: Some(k) in Relocation(used)
  {
    forall i | 0 <= i < |used|
      ensures Relocation(used)[i].Some? <==> used[i]
      ensures used[i] ==> Relocation(used)[i].value <= i && Relocation(used)[i].value < Count(used)
    {
      RelocationAt(used, i);
      CountTake(used, i);
      CountMonotone(used, i + 1, |used|);
      assert used[..|used|] == used;
    }
    forall i, j | 0 <= i < j < |used| && used[i] && used[j]
      ensures Relocation(used)[i].value < Relocation(used)[j].value
    {
      RelocationAt(used, i);
      RelocationAt(used, j);
      CountTake(used, i);
      CountMonotone(used, i + 1, j);
    }
    forall k: nat | k < Count(used)
      ensures Some(k) in Relocation(used)
    {
      var i := SlotFor(used, k);
    }
  }

  /** The slot that is moved to position k. */
  lemma {:induction false} SlotFor(used: seq<bool>, k: nat) returns (i: nat)
    requires k < Count(used)
    ensures i < |used| && Relocation(used)[i] == Some(k)
  {
    var rest := used[..|used| - 1];
    if k < Count(rest) {
      i := SlotFor(rest, k);
    } else {
      i := |rest|;
    }
  }

  /** A map with no gap is one whose used slots are already the first ones. */
  lemma {:induction false} NoGap(used: seq<bool>)
    ensures Extent(used) <= Count(used) <==> used == Front(Count(used), |used|)
    ensures Count(used) <= Extent(used)
  {
    var n := Extent(used);
    assert used[..|used|] == used;
    CountEmpty(used, n);
    assert n > Count(used) ==> used[n - 1];
    if n <= Count(used) {
      CountFull(used, n);
    }
  }

  lemma {:induction false} CountEmpty(used: seq<bool>, n: nat)
    requires n <= |used| && forall i | n <= i < |used| :: !used[i]
    ensures Count(used) == Count(used[..n]) <= n
  {
    if n == |used| {
      assert used[..n] == used;
    } else {
      CountEmpty(used[..|used| - 1], n);
      assert used[..|used| - 1][..n] == used[..n];
    }
  }

  lemma {:induction false} CountFull(used: seq<bool>, n: nat)
    requires n <= |used| && Count(used[..n]) >= n
    ensures forall i | 0 <= i < n :: used[i]
  {
    if n > 0 {
      CountTake(used, n - 1);
      CountFull(used, n - 1);
    }
  }

  lemma {:induction false} CountFront(n: nat, total: nat)
    requires n <= total
    ensures Count(Front(n, total)) == n
  {
    var used := Front(n, total);
    CountEmpty(used, n);
    CountAll(used[..n]);
  }

  lemma {:induction false} CountAll(used: seq<bool>)
    requires forall i | 0 <= i < |used| :: used[i]
    ensures Count(used) == |used|
  {
    if used != [] {
      CountAll(used[..|used| - 1]);
    }
  }

  // ---- the words ----

  /** Slot i is bit i % 32 of word i / 32, and it is used when the bit is clear. */
  function UsedOf(words: seq<Word>, total: nat): (used: seq<bool>)
    requires |words| == Capacity(total)
    ensures |used| == total
  {
    seq(total, i requires 0 <= i < total => !words[i / 32][i % 32])
  }

  predicate Padded(words: seq<Word>, total: nat)
  {
    forall w, b | 0 <= w < |words| && 0 <= b < WORD && total <= 32 * w + b :: !words[w][b]
  }

  function Stored(words: seq<Word>, i: nat, bit: bool): (r: seq<Word>)
    requires i / 32 < |words|
    ensures |r| == |words|
  {
    words[i / 32 := words[i / 32][i % 32 := bit]]
  }

  lemma {:induction false} StoredIsUpdate(words: seq<Word>, total: nat, i: nat, bit: bool)
    requires |words| == Capacity(total) && i < total && Padded(words, total)
    ensures UsedOf(Stored(words, i, bit), total) == UsedOf(words, total)[i := !bit]
    ensures Padded(Stored(words, i, bit), total)
  {
    var words' := Stored(words, i, bit);
    forall j | 0 <= j < total
      ensures UsedOf(words', total)[j] == UsedOf(words, total)[i := !bit][j]
    {
      assert j == 32 * (j / 32) + j % 32;
      assert i == 32 * (i / 32) + i % 32;
    }
  }

  /** The words one after the other. */
  function Flat(words: seq<Word>): (bits: seq<bool>)
    ensures |bits| == 32 * |words|
  {
    if words == [] then [] else Flat(words[..|words| - 1]) + words[|words| - 1]
  }

  lemma {:induction false} FlatAt(words: seq<Word>, w: nat, b: nat)
    requires w < |words| && b < WORD
    ensures Flat(words)[32 * w + b] == words[w][b]
  {
    if w < |words| - 1 {
      FlatAt(words[..|words| - 1], w, b);
    }
  }

  lemma {:induction false} CountConcat(a: seq<bool>, b: seq<bool>)
    ensures Count(a + b) == Count(a) + Count(b)
  {
    if b == [] {
      assert a + b == a;
    } else {
      assert (a + b)[..|a + b| - 1] == a + b[..|b| - 1];
      CountConcat(a, b[..|b| - 1]);
    }
  }

  /** The set bits are the free slots. */
  lemma {:induction false} FreeBits(words: seq<Word>, total: nat)
    requires |words| == Capacity(total) && Padded(words, total)
    ensures Count(Flat(words)) == total - Count(UsedOf(words, total))
  {
    var bits := Flat(words);
    forall i | total <= i < |bits|
      ensures !bits[i]
    {
      FlatAt(words, i / 32, i % 32);
    }
    CountEmpty(bits, total);
    forall i | 0 <= i < total
      ensures bits[..total][i] == !UsedOf(words, total)[i]
    {
      FlatAt(words, i / 32, i % 32);
    }
    CountComplement(bits[..total], UsedOf(words, total));
  }

  lemma {:induction false} CountComplement(a: seq<bool>, b: seq<bool>)
    requires |a| == |b| && forall i | 0 <= i < |a| :: a[i] == !b[i]
    ensures Count(a) == |a| - Count(b)
  {
    if a != [] {
      CountComplement(a[..|a| - 1], b[..|b| - 1]);
    }
  }

  /** The position of the lowest set bit. */
  function LowestSet(bits: seq<bool>): (r: Option<nat>)
    ensures r.Some? ==> r.value < |bits| && bits[r.value] && forall j | 0 <= j < r.value :: !bits[j]
    ensures r.None? ==> forall j | 0 <= j < |bits| :: !bits[j]
  {
    if bits == [] then None
    else if bits[0] then Some(0)
    else match LowestSet(bits[1..])
      case Some(i) =>
        assert forall j | 0 < j <= i :: bits[j] == bits[1..][j - 1];
        Some(i + 1)
      case None =>
        assert forall j | 0 < j < |bits| :: bits[j] == bits[1..][j - 1];
        None
  }

  lemma FirstFreeIs(used: seq<bool>, i: nat)
    requires i < |used| && !used[i] && forall j | 0 <= j < i :: used[j]
    ensures FirstFree(used) == Some(i)
  {
    hide FirstFree;
    assert FirstFree(used).Some?;
  }

  lemma ExtentIs(used: seq<bool>, n: nat)
    requires n <= |used| && (n > 0 ==> used[n - 1]) && forall i | n <= i < |used| :: !used[i]
    ensures Extent(used) == n
  {
    hide Extent;
    if Extent(used) > n {
      assert false;
    }
  }

  /** The inverted word, without the padding. */
  function Occupied(word: Word, width: nat): (r: seq<bool>)
    requires width <= WORD
    ensures |r| == width
  {
    seq(width, b requires 0 <= b < width => !word[b])
  }

  lemma OccupiedIsUsed(words: seq<Word>, total: nat, w: nat, width: nat)
    requires |words| == Capacity(total) && w < |words|
    requires width == if w == |words| - 1 && total % 32 != 0 then total % 32 else 32
    ensures 32 * w + width <= total && (w < |words| - 1 || 32 * w + width == total)
    ensures forall i | 32 * w <= i < 32 * w + width :: UsedOf(words, total)[i] == Occupied(words[w], width)[i - 32 * w]
  {
    forall i | 32 * w <= i < 32 * w + width
      ensures UsedOf(words, total)[i] == Occupied(words[w], width)[i - 32 * w]
    {
      assert i / 32 == w && i % 32 == i - 32 * w;
    }
  }

  class FreeMap {
    var total: nat
    var words: array<Word>

    ghost predicate Valid()
      reads this, words
    {
      words.Length == Capacity(total) && Padded(words[..], total)
    }

    ghost function Used(): seq<bool>
      requires Valid()
      reads this, words
    {
      UsedOf(words[..], total)
    }

    constructor (blocks: nat)
      ensures Valid() && total == blocks && fresh(words)
      ensures Used() == Front(0, blocks)
    {
      total := blocks;
      words := new Word[Capacity(blocks)](_ => Zero());
      new;
      var i := 0;
      while i < total
        modifies words
        invariant 0 <= i <= total == blocks && words.Length == Capacity(total)
        invariant Padded(words[..], total)
        invariant forall j | 0 <= j < total :: UsedOf(words[..], total)[j] <==> j >= i
      {
        ghost var before := words[..];
        words[i / 32] := words[i / 32][i % 32 := true];
        assert words[..] == Stored(before, i, true);
        StoredIsUpdate(before, total, i, true);
        i := i + 1;
      }
    }

    /** Take the lowest free slot, if there is one. */
    method Alloc() returns (slot: Option<nat>)
      requires Valid()
      modifies words
      ensures Valid()
      ensures slot == FirstFree(old(Used()))
      ensures Used() == if slot.Some? then old(Used())[slot.value := true] else old(Used())
    {
      var w := 0;
      while w < words.Length
        invariant 0 <= w <= words.Length
        invariant forall k | 0 <= k < w :: words[k] == Zero()
        invariant words[..] == old(words[..])
      {
        if words[w] != Zero() {
          var bit := LowestSet(words[w]);
          assert exists b :: 0 <= b < WORD && words[w][b];
          var i := 32 * w + bit.value;
          assert i / 32 == w && i % 32 == bit.value;
          assert i < total;
          FirstFreeIs(Used(), i);
          StoredIsUpdate(words[..], total, i, false);
          words[w] := words[w][bit.value := false];
          assert words[..] == Stored(old(words[..]), i, false);
          return Some(i);
        }
        w := w + 1;
      }
      slot := None;
    }

    /** Free a slot; refused when it is out of range or already free. */
    method Dealloc(i: nat) returns (ok: bool)
      requires Valid()
      modifies words
      ensures Valid()
      ensures ok <==> i < total && old(Used())[i]
      ensures Used() == if ok then old(Used())[i := false] else old(Used())
    {
      if i >= total {
        return false;
      }
      if words[i / 32][i % 32] {
        return false;
      }
      StoredIsUpdate(words[..], total, i, true);
      words[i / 32] := words[i / 32][i % 32 := true];
      assert words[..] == Stored(old(words[..]), i, true);
      ok := true;
    }

    method IsFull() returns (full: bool)
      requires Valid()
      ensures full <==> FirstFree(Used()).None?
    {
      var w := 0;
      while w < words.Length
        invariant 0 <= w <= words.Length
        invariant forall k | 0 <= k < w :: words[k] == Zero()
      {
        if words[w] != Zero() {
          var b :| 0 <= b < WORD && words[w][b];
          assert !Used()[32 * w + b];
          return false;
        }
        w := w + 1;
      }
      full := true;
    }

    method CountFree() returns (n: nat)
      requires Valid()
      ensures n == total - Count(Used())
    {
      n := 0;
      var w := 0;
      while w < words.Length
        invariant 0 <= w <= words.Length
        invariant n == Count(Flat(words[..w]))
      {
        assert words[..w + 1][..w] == words[..w];
        CountConcat(Flat(words[..w]), words[w]);
        n := n + Count(words[w]);
        w := w + 1;
      }
      assert words[..w] == words[..];
      FreeBits(words[..], total);
    }

    /** The highest used slot, or the number of slots if all are free. */
    method HighestUsed() returns (n: nat)
      requires Valid()
      ensures n == if Extent(Used()) > 0 then Extent(Used()) - 1 else total
    {
      var w := words.Length;
      while w > 0
        invariant 0 <= w <= words.Length
        invariant forall i | 32 * w <= i < total :: !Used()[i]
      {
        w := w - 1;
        var width := if w == words.Length - 1 && total % 32 != 0 then total % 32 else 32;
        var occupied := Occupied(words[w], width);
        OccupiedIsUsed(words[..], total, w, width);
        if Extent(occupied) > 0 {
          n := 32 * w + Extent(occupied) - 1;
          assert occupied[Extent(occupied) - 1];
          ExtentIs(Used(), n + 1);
          return;
        }
      }
      ExtentIs(Used(), 0);
      n := total;
    }

    /** Move the used slots to the front, in order; the result says where each went. */
    method Defragment() returns (relocation: array<Option<nat>>, newCount: nat)
      requires Valid()
      modifies words
      ensures Valid() && fresh(relocation)
      ensures relocation[..] == Relocation(old(Used()))
      ensures newCount == Count(old(Used()))
      ensures Used() == Front(newCount, total)
    {
      hide Relocation, Count, Front;
      relocation, newCount := Plan();
      Refill(newCount);
    }

    /** Where each used slot goes. */
    method Plan() returns (relocation: array<Option<nat>>, newCount: nat)
      requires Valid()
      ensures fresh(relocation) && relocation[..] == Relocation(Used())
      ensures newCount == Count(Used()) <= total
    {
      ghost var used := Used();
      relocation := new Option<nat>[total](_ => None);
      newCount := 0;
      var i := 0;
      while i < total
        modifies relocation
        invariant 0 <= i <= total
        invariant newCount == Count(used[..i]) <= i
        invariant relocation[..i] == Relocation(used[..i])
        invariant forall j | i <= j < total :: relocation[j] == None
      {
        assert used[..i + 1][..i] == used[..i];
        if !words[i / 32][i % 32] {
          relocation[i] := Some(newCount);
          newCount := newCount + 1;
        }
        assert relocation[..i + 1] == relocation[..i] + [relocation[i]];
        i := i + 1;
      }
      assert used[..i] == used && relocation[..i] == relocation[..];
    }

    /** The first n slots used, the others free. */
    method Refill(n: nat)
      requires words.Length == Capacity(total) && n <= total
      modifies words
      ensures Valid() && Used() == Front(n, total)
    {
      var w := 0;
      while w < words.Length
        invariant 0 <= w <= words.Length
        invariant forall k | 0 <= k < w :: words[k] == Zero()
      {
        words[w] := Zero();
        w := w + 1;
      }
      var i := n;
      while i < total
        invariant n <= i <= total && Padded(words[..], total)
        invariant forall j | 0 <= j < total :: UsedOf(words[..], total)[j] <==> (j < n || j >= i)
      {
        ghost var before := words[..];
        words[i / 32] := words[i / 32][i % 32 := true];
        assert words[..] == Stored(before, i, true);
        StoredIsUpdate(before, total, i, true);
        i := i + 1;
      }
    }
  }

  // ---- the meta file ----

  datatype Meta = Meta(total: nat, words: seq<Word>)

  function Value(bits: seq<bool>): nat
  {
    if bits == [] then 0 else (if bits[0] then 1 else 0) + 2 * Value(bits[1..])
  }

  function BitsOf(v: nat, n: nat): (bits: seq<bool>)
    ensures |bits| == n
  {
    if n == 0 then [] else [v % 2 == 1] + BitsOf(v / 2, n - 1)
  }

  lemma {:induction false} ValueBits(bits: seq<bool>)
    ensures Value(bits) < Pow2(|bits|)
    ensures BitsOf(Value(bits), |bits|) == bits
  {
    if bits != [] {
      ValueBits(bits[1..]);
    }
  }

  lemma {:induction false} ValueBit(bits: seq<bool>, i: nat)
    requires i < |bits|
    ensures Pow2(i) > 0 && (Value(bits) / Pow2(i) % 2 == 1 <==> bits[i])
  {
    Pow2Positive(i);
    if i > 0 {
      var p := Pow2(i - 1);
      ValueBit(bits[1..], i - 1);
      assert Value(bits) / 2 == Value(bits[1..]);
      DivideTwice(Value(bits), 2, p);
      assert Pow2(i) == 2 * p;
    }
  }

  function OctetOf(word: Word, k: nat): (b: Byte)
    requires k < 4
  {
    var bits := word[8 * k..8 * k + 8];
    ValueBits(bits);
    assert Pow2(8) == 256;
    Value(bits)
  }

  /** The memory of a word on a little-endian machine. */
  function WordBytes(word: Word): (r: seq<Byte>)
    ensures |r| == 4
  {
    [OctetOf(word, 0), OctetOf(word, 1), OctetOf(word, 2), OctetOf(word, 3)]
  }

  function BytesWord(b: seq<Byte>): Word
    requires |b| == 4
  {
    BitsOf(b[0], 8) + BitsOf(b[1], 8) + BitsOf(b[2], 8) + BitsOf(b[3], 8)
  }

  lemma {:induction false} WordRoundTrip(word: Word)
    ensures BytesWord(WordBytes(word)) == word
  {
    hide Value, BitsOf;
    OctetBits(word, 0);
    OctetBits(word, 1);
    OctetBits(word, 2);
    OctetBits(word, 3);
    assert word == word[0..8] + word[8..16] + word[16..24] + word[24..32];
  }

  lemma {:induction false} OctetBits(word: Word, k: nat)
    requires k < 4
    ensures BitsOf(OctetOf(word, k), 8) == word[8 * k..8 * k + 8]
  {
    ValueBits(word[8 * k..8 * k + 8]);
  }

  function Le32(n: nat): (r: seq<Byte>)
    ensures |r| == 4
  {
    [n % 256, n / 0x100 % 256, n / 0x1_0000 % 256, n / 0x100_0000 % 256]
  }

  function FromLe32(b: seq<Byte>): (n: U32)
    requires |b| == 4
  {
    b[0] as int + 0x100 * b[1] as int + 0x1_0000 * b[2] as int + 0x100_0000 * b[3] as int
  }

  function AllBytes(words: seq<Word>): (r: seq<Byte>)
    ensures |r| == 4 * |words|
  {
    if words == [] then [] else WordBytes(words[0]) + AllBytes(words[1..])
  }

  function AllWords(b: seq<Byte>): (r: seq<Word>)
    requires |b| % 4 == 0
    ensures |r| == |b| / 4
  {
    if b == [] then [] else [BytesWord(b[..4])] + AllWords(b[4..])
  }

  lemma {:induction false} WordsRoundTrip(words: seq<Word>)
    ensures AllWords(AllBytes(words)) == words
  {
    if words != [] {
      var b := AllBytes(words);
      assert b[..4] == WordBytes(words[0]) && b[4..] == AllBytes(words[1..]);
      WordRoundTrip(words[0]);
      WordsRoundTrip(words[1..]);
    }
  }

  /** Four bytes of slot count, then the words. */
  function Serialize(m: Meta): seq<Byte>
  {
    Le32(m.total) + AllBytes(m.words)
  }

  /** Bytes past the expected end are ignored. */
  function Deserialize(b: seq<Byte>): Option<Meta>
  {
    if |b| < 4 then None
    else
      var total := FromLe32(b[..4]);
      var end: int := 4 + 4 * Capacity(total);
      if |b| < end then None else Some(Meta(total, AllWords(b[4..end])))
  }

  /** A meta file is read back as written, whatever follows it, if and only if the
      slot count fits 32 bits. */
  lemma {:induction false} MetaRoundTrip(m: Meta, rest: seq<Byte>)
    requires |m.words| == Capacity(m.total)
    ensures Deserialize(Serialize(m) + rest) == Some(m) <==> m.total < 0x1_0000_0000
  {
    hide BytesWord, WordBytes, AllWords, AllBytes;
    if m.total < 0x1_0000_0000 {
      var b := Serialize(m) + rest;
      var end := 4 + 4 * |m.words|;
      assert b[..4] == Le32(m.total);
      assert b[4..end] == AllBytes(m.words);
      Le32RoundTrip(m.total);
      WordsRoundTrip(m.words);
    }
  }

  /** A meta file that was cut short is rejected. */
  lemma {:induction false} TornMetaRejected(m: Meta, cut: nat)
    requires |m.words| == Capacity(m.total) && m.total < 0x1_0000_0000 && cut < |Serialize(m)|
    ensures Deserialize(Serialize(m)[..cut]).None?
  {
    hide BytesWord, WordBytes, AllWords, AllBytes;
    if cut >= 4 {
      assert Serialize(m)[..cut][..4] == Le32(m.total);
      Le32RoundTrip(m.total);
    }
  }

  lemma Le32RoundTrip(n: nat)
    requires n < 0x1_0000_0000
    ensures FromLe32(Le32(n)) == n
  {
    var a := n / 0x100;
    var b := n / 0x1_0000;
    assert n == 0x100 * a + n % 0x100;
    assert a / 0x100 == b && a == 0x100 * b + a % 0x100;
    assert b / 0x100 == n / 0x100_0000 && b == 0x100 * (n / 0x100_0000) + b % 0x100;
  }

  lemma {:induction false} AllBytesAt(words: seq<Word>, w: nat)
    requires w < |words|
    ensures AllBytes(words)[4 * w..4 * w + 4] == WordBytes(words[w])
  {
    hide WordBytes;
    if w > 0 {
      AllBytesAt(words[1..], w - 1);
    }
  }

  /** Byte i / 8 of the words holds slot i's bit, as its bit i % 8. */
  lemma {:induction false} WordsLayout(words: seq<Word>, i: nat)
    requires i < 32 * |words|
    ensures i / 8 < |AllBytes(words)| && Pow2(i % 8) > 0
    ensures AllBytes(words)[i / 8] / Pow2(i % 8) % 2 == 1 <==> words[i / 32][i % 32]
  {
    var w, k, j := i / 32, i / 8 % 4, i % 8;
    Places(i);
    AllBytesAt(words, w);
    hide Value, Pow2, AllBytes;
    var octet := words[w][8 * k..8 * k + 8];
    assert AllBytes(words)[i / 8] == AllBytes(words)[4 * w..4 * w + 4][k] == Value(octet);
    ValueBit(octet, j);
    assert octet[j] == words[w][8 * k + j];
  }

  lemma Places(i: nat)
    ensures i / 8 == 4 * (i / 32) + i / 8 % 4 && i % 32 == 8 * (i / 8 % 4) + i % 8
  {
  }

  /** The meta file: the slot count, lowest byte first, and then the bits of the words, lowest
      first. */
  lemma {:induction false} MetaLayout(m: Meta, i: nat)
    requires m.total < 0x1_0000_0000 && i < 32 * |m.words|
    ensures |Serialize(m)| == 4 + 4 * |m.words| && Pow2(i % 8) > 0
    ensures var b := Serialize(m)[..4];
            b[0] as int + 0x100 * b[1] as int + 0x1_0000 * b[2] as int + 0x100_0000 * b[3] as int == m.total
    ensures Serialize(m)[4 + i / 8] / Pow2(i % 8) % 2 == 1 <==> m.words[i / 32][i % 32]
  {
    Le32RoundTrip(m.total);
    WordsLayout(m.words, i);
    hide Le32, Pow2, AllBytes;
    assert Serialize(m)[..4] == Le32(m.total);
  }
}
