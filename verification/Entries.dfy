/** Machine words, 32-byte hashes and the index entry. */
module Entries {
  import F = Fibonacci

  datatype Option<+T> = None | Some(value: T) {
    predicate IsFailure() {
      None?
    }

    function PropagateFailure<U>(): Option<U>
      requires None?
    {
      None
    }

    function Extract(): T
      requires Some?
    {
      value
    }
  }

  type Byte = x: int | 0 <= x < 0x100
  type U16 = x: int | 0 <= x < 0x1_0000
  type U32 = x: int | 0 <= x < 0x1_0000_0000
  type U64 = x: int | 0 <= x < 0x1_0000_0000_0000_0000

  /** A BLAKE3 digest. */
  type Hash = h: seq<Byte> | |h| == 32 witness seq(32, _ => 0)

  datatype Entry = Entry(
    hash: Hash,
    counter: F.Counter,
    sectionIndex: U64,
    sectionId: U64,
    ejectionDate: U64,
    ephemeralCount: U16,
    pinCount: U32)

  /** (b >> k) & 1 */
  function ByteBit(b: nat, k: nat): bool
    decreases k
  {
    if k == 0 then b % 2 == 1 else ByteBit(b / 2, k - 1)
  }

  /** Bit k of a hash: byte k / 8, counted from its low end. */
  function Bit(h: Hash, k: nat): bool
    requires k < 256
  {
    ByteBit(h[k / 8], k % 8)
  }

  /** A number below 2^n is determined by its low n bits. */
  lemma {:induction false} FromBits(a: nat, b: nat, n: nat)
    requires n <= 8 && a < Pow2(n) && b < Pow2(n)
    requires forall k: nat | k < n :: ByteBit(a, k) == ByteBit(b, k)
    ensures a == b
    decreases n
  {
    if n > 0 {
      assert ByteBit(a, 0) == ByteBit(b, 0);
      forall k: nat | k < n - 1
        ensures ByteBit(a / 2, k) == ByteBit(b / 2, k)
      {
        assert ByteBit(a, k + 1) == ByteBit(b, k + 1);
      }
      FromBits(a / 2, b / 2, n - 1);
    }
  }

  function Pow2(n: nat): nat
  {
    if n == 0 then 1 else 2 * Pow2(n - 1)
  }

  lemma Pow2Positive(n: nat)
    ensures Pow2(n) > 0
  {
  }

  /** The 256 bits determine the hash. */
  lemma HashFromBits(g: Hash, h: Hash)
    requires forall k: nat | k < 256 :: Bit(g, k) == Bit(h, k)
    ensures g == h
  {
    forall i | 0 <= i < 32
      ensures g[i] == h[i]
    {
      forall k: nat | k < 8
        ensures ByteBit(g[i], k) == ByteBit(h[i], k)
      {
        assert Bit(g, 8 * i + k) == Bit(h, 8 * i + k);
        assert (8 * i + k) / 8 == i && (8 * i + k) % 8 == k;
      }
      FromBits(g[i], h[i], 8);
    }
  }

  const TWO_TO_64: nat := 0x1_0000_0000_0000_0000

  /** What an unsigned 64-bit variable keeps of a number. */
  function Wrap(x: int): U64
  {
    x % TWO_TO_64
  }

  lemma WrapAdd(x: int, y: int)
    ensures Wrap(Wrap(x) + y) == Wrap(x + y)
  {
  }
}
