/** What the parts of a filter mean: its probes, its adds, its merges, its splits and its bits. */
module BloomEffects {
  import opened Arith
  import opened Entries
  import opened Bloom
  import M = FreeMap

  // ---- probes ----

  /** The seeds of successive probes lie one step apart, in 64-bit arithmetic. */
  lemma {:induction false} SeedStep(p: Params, i: nat)
    ensures Seed(p, 0) == p.seedA % 0x1_0000_0000_0000_0000
    ensures Seed(p, i + 1) == (Seed(p, i) + p.seedB) % 0x1_0000_0000_0000_0000
  {
    assert (i + 1) * p.seedB == i * p.seedB + p.seedB;
  }

  /** The probes of a filter with the usual seeds all hash differently seeded. */
  lemma SeedsDiffer(p: Params, i: nat, j: nat)
    requires p.seedA == 1 && p.seedB == 2 && i < j < 0x8000_0000_0000_0000
    ensures Seed(p, i) != Seed(p, j)
  {
  }

  /** Bucket and fingerprint are two consecutive parts of the hash value: its remainder by the
      size, and the next bits of the quotient, with 1 for 0. */
  lemma {:induction false} ProbeParts(hash: Hasher, p: Params, data: Data, i: nat) returns (f: nat)
    requires p.size > 0
    ensures f < Pow2(p.fpBits) && Print(hash, p, data, i) == NonZero(f)
    ensures p.size * Pow2(p.fpBits) > 0
    ensures hash(data, Seed(p, i)) % (p.size * Pow2(p.fpBits)) == p.size * f + Index(hash, p, data, i)
  {
    hide Seed, Pow2;
    Pow2Positive(p.fpBits);
    var x, n, m := hash(data, Seed(p, i)), p.size, Pow2(p.fpBits);
    var q := x / n;
    f := q % m;
    Division(x, n);
    Division(q, m);
    Nested(n, m, q / m, f);
    Steps(n, f, m);
    DivIs(x, n * m, q / m, n * f + x % n);
  }

  // ---- adding and merging again ----

  /** Adding what is found changes nothing. */
  lemma {:induction false} AddAgain(hash: Hasher, p: Params, b: Buckets, data: Data, n: nat)
    requires p.size > 0 && |b| == p.size && Has(hash, p, b, data) && n <= p.hashCount
    ensures Added(hash, p, b, data, n) == b
  {
    hide Index, Print;
    if n > 0 {
      AddAgain(hash, p, b, data, n - 1);
    }
  }

  /** No bucket holds a fingerprint twice. */
  predicate Distinct(b: Buckets)
  {
    forall j, k, l | 0 <= j < |b| && 0 <= k < l < |b[j]| :: b[j][k] != b[j][l]
  }

  lemma {:induction false} AddKeepsDistinct(hash: Hasher, p: Params, b: Buckets, data: Data, n: nat)
    requires p.size > 0 && |b| == p.size && Distinct(b)
    ensures Distinct(Added(hash, p, b, data, n))
  {
    hide Index, Print;
    if n > 0 {
      AddKeepsDistinct(hash, p, b, data, n - 1);
    }
  }

  /** Merging in what is there already changes nothing. */
  lemma {:induction false} MergeAgain(a: Buckets, b: Buckets)
    requires Below(b, a)
    ensures Merged(a, b) == a
  {
    forall j | 0 <= j < |a|
      ensures Merged(a, b)[j] == a[j]
    {
      UnionAgain(a[j], b[j]);
    }
  }

  lemma {:induction false} UnionAgain(a: seq<nat>, b: seq<nat>)
    requires forall f | f in b :: f in a
    ensures UnionOf(a, b) == a
  {
    if b != [] {
      UnionAgain(a, b[..|b| - 1]);
    }
  }

  // ---- occupancy ----

  function Filled(b: Buckets): set<nat>
  {
    set j: nat | j < |b| && b[j] != []
  }

  lemma {:induction false} OccupiedExact(b: Buckets)
    ensures Occupied(b) == |Filled(b)|
  {
    if b != [] {
      var init := b[..|b| - 1];
      OccupiedExact(init);
      assert Filled(b) == Filled(init) + if b[|b| - 1] != [] then {|b| - 1} else {};
    }
  }

  /** Overfull without a quotient. */
  lemma OverfullExact(occupied: nat, size: nat, omega: real)
    requires size > 0
    ensures Overfull(occupied, size, omega) <==> occupied as real > omega * size as real
  {
    var n, m := occupied as real, size as real;
    var x := n / m;
    assert x * m == n;
    if x > omega {
      assert (x - omega) * m > 0.0;
    } else {
      assert (omega - x) * m >= 0.0;
    }
  }

  // ---- splitting ----

  /** A split moves every entry of a bucket to one of the two that replace it. */
  lemma {:induction false} SplitKeepsCount(entries: seq<nat>)
    ensures |Halved(entries, 0)| + |Halved(entries, 1)| == |entries|
  {
    if entries != [] {
      SplitKeepsCount(entries[..|entries| - 1]);
    }
  }

  // ---- the bit map ----

  /** Bucket j's bit is bit j % 8 of byte j / 8. */
  lemma {:induction false} BitExact(b: Buckets, j: nat)
    requires j < |b|
    ensures j / 8 < |BitBytes(b)|
    ensures Pow2(j % 8) > 0 && (BitBytes(b)[j / 8] / Pow2(j % 8) % 2 == 1 <==> b[j] != [])
  {
    var k, i := j / 8, j % 8;
    assert j == 8 * k + i;
    ByteIs(b, k);
    hide M.Value, BitByte;
    M.ValueBit(ByteBits(b, k), i);
  }

  /** Which of the eight buckets from 8 * k on hold something. */
  function ByteBits(b: Buckets, k: nat): (r: seq<bool>)
    ensures |r| == 8
  {
    seq(8, i requires 0 <= i < 8 => 8 * k + i < |b| && b[8 * k + i] != [])
  }

  lemma ByteIs(b: Buckets, k: nat)
    requires 8 * k < |b|
    ensures BitByte(b, k) == M.Value(ByteBits(b, k))
  {
    ByteValue(ByteBits(b, k));
    hide M.Value;
  }

  function Flag(b: bool): nat
  {
    if b then 1 else 0
  }

  lemma ByteValue(x: seq<bool>)
    requires |x| == 8
    ensures M.Value(x) ==
            Flag(x[0]) + 2 * Flag(x[1]) + 4 * Flag(x[2]) + 8 * Flag(x[3]) + 16 * Flag(x[4]) + 32 * Flag(x[5])
            + 64 * Flag(x[6]) + 128 * Flag(x[7])
  {
    TwoBits(x[6..]);
    TwoBits(x[4..]);
    TwoBits(x[2..]);
    TwoBits(x);
  }

  lemma TwoBits(x: seq<bool>)
    requires |x| >= 2
    ensures M.Value(x) == Flag(x[0]) + 2 * Flag(x[1]) + 4 * M.Value(x[2..])
  {
    assert x[1..][1..] == x[2..];
  }
}
