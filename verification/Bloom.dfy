/**
 The elastic Bloom filter: buckets of fingerprints, with one bit per bucket that says
 whether it holds any.
 */
module Bloom {
  import opened Arith
  import opened Entries
  import C = Cbor

  /** The bytes that are hashed, read as a number. */
  type Data = nat

  /** The seeded 64-bit hash. */
  type Hasher = (Data, nat) -> nat

  datatype Params = Params(size: nat, hashCount: nat, fpBits: nat, seedA: nat, seedB: nat)

  type Buckets = seq<seq<nat>>

  function Seed(p: Params, i: nat): nat
  {
    (p.seedA + i * p.seedB) % 0x1_0000_0000_0000_0000
  }

  /** The bucket of the i-th probe. */
  function Index(hash: Hasher, p: Params, data: Data, i: nat): (j: nat)
    requires p.size > 0
    ensures j < p.size
  {
    hash(data, Seed(p, i)) % p.size
  }

  /** The fingerprint of the i-th probe; 0 is not used. */
  function Print(hash: Hasher, p: Params, data: Data, i: nat): (f: nat)
    requires p.size > 0
    ensures f > 0
  {
    Pow2Positive(p.fpBits);
    var f := (hash(data, Seed(p, i)) / p.size) % Pow2(p.fpBits);
    if f == 0 then 1 else f
  }

  function Inserted(b: Buckets, j: nat, f: nat): (r: Buckets)
    requires j < |b|
    ensures |r| == |b|
  {
    if f in b[j] then b else b[j := [f] + b[j]]
  }

  /** The buckets after the first n probes of an add. */
  function Added(hash: Hasher, p: Params, b: Buckets, data: Data, n: nat): (r: Buckets)
    requires p.size > 0 && |b| == p.size
    ensures |r| == |b|
  {
    if n == 0 then b
    else Inserted(Added(hash, p, b, data, n - 1), Index(hash, p, data, n - 1), Print(hash, p, data, n - 1))
  }

  predicate Has(hash: Hasher, p: Params, b: Buckets, data: Data)
    requires p.size > 0 && |b| == p.size
  {
    forall i | 0 <= i < p.hashCount :: Print(hash, p, data, i) in b[Index(hash, p, data, i)]
  }

  /** Every fingerprint of the first is in the second. */
  predicate Below(a: Buckets, b: Buckets)
  {
    |a| == |b| && forall j, f | 0 <= j < |a| && f in a[j] :: f in b[j]
  }

  /** The buckets hold the same fingerprints, in any order. */
  predicate Same(a: Buckets, b: Buckets)
  {
    Below(a, b) && Below(b, a)
  }

  lemma {:induction false} HasMonotone(hash: Hasher, p: Params, a: Buckets, b: Buckets, data: Data)
    requires p.size > 0 && |a| == p.size && Below(a, b) && Has(hash, p, a, data)
    ensures Has(hash, p, b, data)
  {
    hide Index, Print;
    forall i | 0 <= i < p.hashCount
      ensures Print(hash, p, data, i) in b[Index(hash, p, data, i)]
    {
      assert Print(hash, p, data, i) in a[Index(hash, p, data, i)];
    }
  }

  lemma {:induction false} AddedBelow(hash: Hasher, p: Params, b: Buckets, data: Data, m: nat, n: nat)
    requires p.size > 0 && |b| == p.size && m <= n
    ensures Below(Added(hash, p, b, data, m), Added(hash, p, b, data, n))
  {
    if m < n {
      AddedBelow(hash, p, b, data, m, n - 1);
    }
  }

  /** What was added is found, and what was found before still is. */
  lemma {:induction false} AddIsFound(hash: Hasher, p: Params, b: Buckets, data: Data)
    requires p.size > 0 && |b| == p.size
    ensures Has(hash, p, Added(hash, p, b, data, p.hashCount), data)
    ensures Below(b, Added(hash, p, b, data, p.hashCount))
  {
    hide Index, Print;
    AddedBelow(hash, p, b, data, 0, p.hashCount);
    forall i | 0 <= i < p.hashCount
      ensures Print(hash, p, data, i) in Added(hash, p, b, data, p.hashCount)[Index(hash, p, data, i)]
    {
      AddedBelow(hash, p, b, data, i + 1, p.hashCount);
      assert Print(hash, p, data, i) in Added(hash, p, b, data, i + 1)[Index(hash, p, data, i)];
    }
  }

  /** The number of buckets that hold something. */
  function Occupied(b: Buckets): (n: nat)
    ensures n <= |b|
  {
    if b == [] then 0 else Occupied(b[..|b| - 1]) + if b[|b| - 1] != [] then 1 else 0
  }

  /** The share of occupied buckets exceeds the threshold. */
  predicate Overfull(occupied: nat, size: nat, omega: real)
    requires size > 0
  {
    occupied as real / size as real > omega
  }

  /** A threshold of one or more is never exceeded, so the filter is never resized. */
  lemma NeverOverfull(occupied: nat, size: nat, omega: real)
    requires occupied <= size && size > 0 && omega >= 1.0
    ensures !Overfull(occupied, size, omega)
  {
    var n, m := occupied as real, size as real;
    var x := n / m;
    assert x * m == n;
    if x > 1.0 {
      assert x * m > m;
    }
  }

  // ---- merging ----

  function UnionOf(a: seq<nat>, b: seq<nat>): (r: seq<nat>)
  {
    if b == [] then a
    else
      var rest := UnionOf(a, b[..|b| - 1]);
      if b[|b| - 1] in rest then rest else [b[|b| - 1]] + rest
  }

  lemma {:induction false} UnionHas(a: seq<nat>, b: seq<nat>, f: nat)
    ensures f in UnionOf(a, b) <==> f in a || f in b
  {
    if b != [] {
      UnionHas(a, b[..|b| - 1], f);
      assert b == b[..|b| - 1] + [b[|b| - 1]];
    }
  }

  function Merged(a: Buckets, b: Buckets): (r: Buckets)
    requires |a| == |b|
    ensures |r| == |a|
  {
    seq(|a|, j requires 0 <= j < |a| => UnionOf(a[j], b[j]))
  }

  lemma {:induction false} MergeIsUnion(a: Buckets, b: Buckets)
    requires |a| == |b|
    ensures Below(a, Merged(a, b)) && Below(b, Merged(a, b))
    ensures forall j, f | 0 <= j < |a| && f in Merged(a, b)[j] :: f in a[j] || f in b[j]
  {
    forall j, f | 0 <= j < |a|
      ensures f in Merged(a, b)[j] <==> f in a[j] || f in b[j]
    {
      UnionHas(a[j], b[j], f);
    }
  }

  // ---- resizing ----

  /** A fingerprint without its low bit. */
  function HalfPrint(f: nat): nat
  {
    if f / 2 == 0 then 1 else f / 2
  }

  /** The entries of a bucket whose fingerprints have this low bit. */
  function Halved(entries: seq<nat>, bit: nat): seq<nat>
  {
    if entries == [] then []
    else
      var init, f := entries[..|entries| - 1], entries[|entries| - 1];
      if f % 2 == bit then [HalfPrint(f)] + Halved(init, bit) else Halved(init, bit)
  }

  function Expanded(b: Buckets): (r: Buckets)
    ensures |r| == 2 * |b|
  {
    seq(2 * |b|, j requires 0 <= j < 2 * |b| => Halved(b[j / 2], j % 2))
  }

  /** A bucket was split into its two. */
  predicate SplitInto(r: Buckets, entries: seq<nat>, k: nat)
  {
    2 * k + 1 < |r| && r[2 * k] == Halved(entries, 0) && r[2 * k + 1] == Halved(entries, 1)
  }

  lemma {:induction false} SplitIsExpanded(b: Buckets, r: Buckets)
    requires |r| == 2 * |b| && forall k | 0 <= k < |b| :: SplitInto(r, b[k], k)
    ensures r == Expanded(b)
  {
    hide Halved;
    forall j | 0 <= j < |r|
      ensures r[j] == Expanded(b)[j]
    {
      assert SplitInto(r, b[j / 2], j / 2);
      assert j == 2 * (j / 2) + j % 2;
    }
  }

  lemma {:induction false} HalvedHas(entries: seq<nat>, bit: nat, g: nat)
    ensures g in Halved(entries, bit) <==> exists f | f in entries :: f % 2 == bit && HalfPrint(f) == g
  {
    if entries != [] {
      var init, last := entries[..|entries| - 1], entries[|entries| - 1];
      HalvedHas(init, bit, g);
      assert entries == init + [last];
      if f :| f in entries && f % 2 == bit && HalfPrint(f) == g {
        assert f in init || f == last;
      }
    }
  }

  /** The fingerprint a probe of the doubled filter looks for comes from one in the
      bucket that was split. */
  predicate Survives(hash: Hasher, p: Params, b: Buckets, data: Data, i: nat)
    requires p.size > 0 && |b| == p.size
  {
    var q := p.(size := 2 * p.size);
    var j := Index(hash, q, data, i);
    exists f | f in b[j / 2] :: f % 2 == j % 2 && HalfPrint(f) == Print(hash, q, data, i)
  }

  lemma {:induction false} ExpandedHas(hash: Hasher, p: Params, b: Buckets, data: Data)
    requires p.size > 0 && |b| == p.size
    ensures Has(hash, p.(size := 2 * p.size), Expanded(b), data) <==>
            forall i | 0 <= i < p.hashCount :: Survives(hash, p, b, data, i)
  {
    hide Index, Print, Halved;
    var q := p.(size := 2 * p.size);
    forall i | 0 <= i < p.hashCount
      ensures Print(hash, q, data, i) in Expanded(b)[Index(hash, q, data, i)] <==> Survives(hash, p, b, data, i)
    {
      var j := Index(hash, q, data, i);
      HalvedHas(b[j / 2], j % 2, Print(hash, q, data, i));
    }
  }

  /** The i-th probe of the doubled filter looks for what the split makes of the m-th
      fingerprint of the element, in the place where the split puts it. */
  predicate Meets(hash: Hasher, p: Params, data: Data, i: nat, m: nat)
    requires p.size > 0
  {
    var q := p.(size := 2 * p.size);
    var f := Print(hash, p, data, m);
    Index(hash, q, data, i) == 2 * Index(hash, p, data, m) + f % 2 && Print(hash, q, data, i) == HalfPrint(f)
  }

  predicate MeetsAny(hash: Hasher, p: Params, data: Data, i: nat)
    requires p.size > 0
  {
    exists m | 0 <= m < p.hashCount :: Meets(hash, p, data, i, m)
  }

  function Blank(n: nat): (b: Buckets)
    ensures |b| == n && forall j | 0 <= j < n :: b[j] == []
  {
    seq(n, _ => [])
  }

  /** A resize of a filter with one element keeps it if and only if every new probe
      meets a fingerprint of the element. */
  lemma {:induction false} ExpandExact(hash: Hasher, p: Params, data: Data)
    requires p.size > 0
    ensures Has(hash, p.(size := 2 * p.size), Expanded(Added(hash, p, Blank(p.size), data, p.hashCount)), data) <==>
            forall i | 0 <= i < p.hashCount :: MeetsAny(hash, p, data, i)
  {
    hide Index, Print, Added, Expanded, Has;
    var b := Added(hash, p, Blank(p.size), data, p.hashCount);
    ExpandedHas(hash, p, b, data);
    forall i | 0 <= i < p.hashCount
      ensures Survives(hash, p, b, data, i) <==> MeetsAny(hash, p, data, i)
    {
      AloneSurvives(hash, p, data, i);
    }
  }

  lemma {:induction false} AloneSurvives(hash: Hasher, p: Params, data: Data, i: nat)
    requires p.size > 0
    ensures Survives(hash, p, Added(hash, p, Blank(p.size), data, p.hashCount), data, i) <==>
            MeetsAny(hash, p, data, i)
  {
    hide Index, Print, Added;
    var b := Added(hash, p, Blank(p.size), data, p.hashCount);
    var q := p.(size := 2 * p.size);
    var j := Index(hash, q, data, i);
    if Survives(hash, p, b, data, i) {
      var f :| f in b[j / 2] && f % 2 == j % 2 && HalfPrint(f) == Print(hash, q, data, i);
      AddedOnly(hash, p, Blank(p.size), data, p.hashCount);
      var m :| 0 <= m < p.hashCount && j / 2 == Index(hash, p, data, m) && f == Print(hash, p, data, m);
      assert Meets(hash, p, data, i, m);
    }
    if m :| 0 <= m < p.hashCount && Meets(hash, p, data, i, m) {
      AddIsFound(hash, p, Blank(p.size), data);
      var f := Print(hash, p, data, m);
      assert f in b[Index(hash, p, data, m)];
      assert j / 2 == Index(hash, p, data, m) && j % 2 == f % 2;
    }
  }

  /** A hash value whose fingerprint the split leaves where the doubled filter looks:
      only in the first bucket for an even quotient, only in the last for an odd one. */
  predicate Settles(x: nat, size: nat, fpBits: nat)
    requires size > 0
  {
    Pow2Positive(fpBits);
    var q := x / size;
    var f := NonZero(q % Pow2(fpBits));
    f % 2 == q % 2 && x % size == (if q % 2 == 0 then 0 else size - 1) && NonZero(q / 2 % Pow2(fpBits)) == HalfPrint(f)
  }

  function NonZero(f: nat): nat
  {
    if f == 0 then 1 else f
  }

  lemma Doubling(n: nat, k: nat, bit: nat)
    requires bit <= 1
    ensures n * (2 * k + bit) == 2 * n * k + if bit == 0 then 0 else n
  {
    Distribute(n, k, k);
    Distribute(n, k + k, bit);
    Distribute(k, n, n);
  }

  lemma {:induction false} DoubledQuotient(x: nat, n: nat, q: nat, r: nat)
    requires n > 0 && x == n * q + r && r < n
    ensures x / (2 * n) == q / 2
    ensures x % (2 * n) == r + if q % 2 == 0 then 0 else n
  {
    var k, bit := q / 2, q % 2;
    Doubling(n, k, bit);
    assert q == 2 * k + bit;
    DivIs(x, 2 * n, k, r + if bit == 0 then 0 else n);
  }

  lemma {:induction false} DoubledDivision(x: nat, n: nat)
    requires n > 0
    ensures x / (2 * n) == x / n / 2
    ensures x % (2 * n) == x % n + if x / n % 2 == 0 then 0 else n
  {
    Division(x, n);
    DoubledQuotient(x, n, x / n, x % n);
  }

  /** When a fingerprint is found again is decided by its hash value alone. */
  lemma {:induction false} MeetsItself(hash: Hasher, p: Params, data: Data, i: nat)
    requires p.size > 0
    ensures Meets(hash, p, data, i, i) <==> Settles(hash(data, Seed(p, i)), p.size, p.fpBits)
  {
    hide Seed, Pow2;
    var x := hash(data, Seed(p, i));
    var q := p.(size := 2 * p.size);
    SameSeed(p, q, i);
    DoubledDivision(x, p.size);
    assert x % p.size < p.size;
  }

  lemma SameSeed(p: Params, q: Params, i: nat)
    requires p.seedA == q.seedA && p.seedB == q.seedB
    ensures Seed(p, i) == Seed(q, i)
  {
  }

  /** Resizing forgets: with one probe, an element on its own is lost for every hash
      value that does not settle. */
  lemma {:induction false} ExpandForgets(hash: Hasher, p: Params, data: Data)
    requires p.size > 0 && p.hashCount == 1
    ensures var b := Added(hash, p, Blank(p.size), data, 1);
            && Has(hash, p, b, data)
            && (Has(hash, p.(size := 2 * p.size), Expanded(b), data) <==>
                Settles(hash(data, Seed(p, 0)), p.size, p.fpBits))
  {
    hide Has, Added, Expanded, Meets, Settles;
    AddIsFound(hash, p, Blank(p.size), data);
    assert MeetsAny(hash, p, data, 0) <==> Meets(hash, p, data, 0, 0);
    ExpandExact(hash, p, data);
    MeetsItself(hash, p, data, 0);
  }

  /** With eight-bit fingerprints in two buckets, the hash value 1 does not settle. */
  lemma OneDoesNotSettle()
    ensures !Settles(1, 2, 8)
  {
  }

  class Filter {
    const hash: Hasher
    var params: Params
    var buckets: array<seq<nat>>
    var bits: array<bool>
    var count: nat
    const omega: real

    /** A bit is set exactly when its bucket holds something. */
    ghost predicate Valid()
      reads this, buckets, bits
    {
      && params.size > 0 && buckets.Length == params.size && bits.Length == params.size
      && forall j | 0 <= j < params.size :: bits[j] <==> buckets[j] != []
    }

    constructor (hash: Hasher, size: nat, hashCount: nat, omega: real, fpBits: nat)
      ensures Valid() && fresh(buckets) && fresh(bits) && count == 0
      ensures this.hash == hash && this.omega == if omega <= 0.0 then 0.75 else omega
      ensures params == Params(if size == 0 then 256 else size, if hashCount == 0 then 3 else hashCount,
                               if fpBits == 0 then 8 else fpBits, 1, 2)
      ensures forall j | 0 <= j < params.size :: buckets[j] == []
    {
      var n := if size == 0 then 256 else size;
      this.hash := hash;
      params := Params(n, if hashCount == 0 then 3 else hashCount, if fpBits == 0 then 8 else fpBits, 1, 2);
      this.omega := if omega <= 0.0 then 0.75 else omega;
      count := 0;
      buckets := new seq<nat>[n](_ => []);
      bits := new bool[n](_ => false);
    }

    method Contains(data: Data) returns (found: bool)
      requires Valid()
      ensures found <==> Has(hash, params, buckets[..], data)
    {
      var i := 0;
      while i < params.hashCount
        invariant 0 <= i <= params.hashCount
        invariant forall k | 0 <= k < i :: Print(hash, params, data, k) in buckets[Index(hash, params, data, k)]
      {
        var j := Index(hash, params, data, i);
        var f := Print(hash, params, data, i);
        if !bits[j] || f !in buckets[j] {
          return false;
        }
        i := i + 1;
      }
      found := true;
    }

    /** Insert the fingerprints of all probes; the filter then grows exactly if one was
        new and the share of occupied buckets exceeds the threshold. */
    method Add(data: Data) returns (wasNew: bool, grew: bool)
      requires Valid()
      modifies this, buckets, bits
      ensures Valid()
      ensures wasNew <==> !Has(hash, old(params), old(buckets[..]), data)
      ensures count == old(count) + if wasNew then 1 else 0
      ensures var b := Added(hash, old(params), old(buckets[..]), data, old(params).hashCount);
              && (grew <==> wasNew && Overfull(Occupied(b), old(params).size, omega))
              && buckets[..] == (if grew then Expanded(b) else b)
              && params == (if grew then old(params).(size := 2 * old(params).size) else old(params))
      ensures !grew ==> buckets == old(buckets) && bits == old(bits)
      ensures omega >= 1.0 ==> !grew
      ensures grew ==> fresh(buckets) && fresh(bits)
    {
      hide Added, Has, Occupied, Overfull, Expanded;
      wasNew := Probe(data);
      grew := false;
      if wasNew {
        count := count + 1;
        var n := CountOccupied();
        if omega >= 1.0 {
          NeverOverfull(n, params.size, omega);
        }
        if Overfull(n, params.size, omega) {
          Expand();
          grew := true;
        }
      }
    }

    method Probe(data: Data) returns (wasNew: bool)
      requires Valid()
      modifies buckets, bits
      ensures Valid() && buckets[..] == Added(hash, params, old(buckets[..]), data, params.hashCount)
      ensures wasNew <==> !Has(hash, params, old(buckets[..]), data)
    {
      hide Index, Print;
      wasNew := false;
      ghost var start := buckets[..];
      var i := 0;
      while i < params.hashCount
        invariant 0 <= i <= params.hashCount && Valid()
        invariant buckets[..] == Added(hash, params, start, data, i)
        invariant !wasNew ==> buckets[..] == start
        invariant wasNew <==>
                  exists k | 0 <= k < i :: Print(hash, params, data, k) !in start[Index(hash, params, data, k)]
      {
        var j := Index(hash, params, data, i);
        var f := Print(hash, params, data, i);
        AddedOnly(hash, params, start, data, i);
        ghost var before := buckets[..];
        if f !in buckets[j] {
          buckets[j] := [f] + buckets[j];
          bits[j] := true;
          wasNew := true;
        }
        assert buckets[..] == Inserted(before, j, f);
        i := i + 1;
      }
    }

    method CountOccupied() returns (n: nat)
      requires Valid()
      ensures n == Occupied(buckets[..]) <= params.size
    {
      n := 0;
      var i := 0;
      while i < buckets.Length
        invariant 0 <= i <= buckets.Length && n == Occupied(buckets[..i])
      {
        assert buckets[..i + 1][..i] == buckets[..i];
        if buckets[i] != [] {
          n := n + 1;
        }
        i := i + 1;
      }
      assert buckets[..i] == buckets[..];
    }

    /** Double the buckets; each entry goes by the low bit of its fingerprint. */
    method Expand()
      requires Valid()
      modifies this`params, this`buckets, this`bits
      ensures Valid() && fresh(buckets) && fresh(bits)
      ensures params == old(params).(size := 2 * old(params).size)
      ensures buckets[..] == Expanded(old(buckets[..]))
    {
      hide Halved, Expanded;
      var n := params.size;
      var more := new seq<nat>[2 * n](_ => []);
      var marks := new bool[2 * n](_ => false);
      var i := 0;
      while i < n
        modifies more, marks
        invariant 0 <= i <= n
        invariant forall j | 0 <= j < 2 * n :: marks[j] <==> more[j] != []
        invariant forall k | 0 <= k < i :: SplitInto(more[..], buckets[k], k)
        invariant forall j | 2 * i <= j < 2 * n :: more[j] == []
      {
        SplitBucket(buckets[i], i, more, marks);
        i := i + 1;
      }
      SplitIsExpanded(buckets[..], more[..]);
      buckets := more;
      bits := marks;
      params := params.(size := 2 * n);
    }

    /** Move the entries of a bucket into the two that replace it. */
    static method SplitBucket(entries: seq<nat>, i: nat, more: array<seq<nat>>, marks: array<bool>)
      requires more.Length == marks.Length && 2 * i + 1 < more.Length
      requires more[2 * i] == [] && more[2 * i + 1] == [] && !marks[2 * i] && !marks[2 * i + 1]
      modifies more, marks
      ensures more[2 * i] == Halved(entries, 0) && more[2 * i + 1] == Halved(entries, 1)
      ensures marks[2 * i] == (more[2 * i] != []) && marks[2 * i + 1] == (more[2 * i + 1] != [])
      ensures forall j | 0 <= j < more.Length && j != 2 * i && j != 2 * i + 1 ::
                more[j] == old(more[j]) && marks[j] == old(marks[j])
    {
      var k := 0;
      while k < |entries|
        invariant 0 <= k <= |entries|
        invariant more[2 * i] == Halved(entries[..k], 0) && more[2 * i + 1] == Halved(entries[..k], 1)
        invariant marks[2 * i] == (more[2 * i] != []) && marks[2 * i + 1] == (more[2 * i + 1] != [])
        invariant forall j | 0 <= j < more.Length && j != 2 * i && j != 2 * i + 1 ::
                    more[j] == old(more[j]) && marks[j] == old(marks[j])
      {
        assert entries[..k + 1][..k] == entries[..k];
        var f := entries[k];
        var to := 2 * i + f % 2;
        more[to] := [HalfPrint(f)] + more[to];
        marks[to] := true;
        k := k + 1;
      }
      assert entries[..k] == entries;
    }

    /** Take in every fingerprint of another filter of the same size. */
    method Merge(src: Filter) returns (ok: bool)
      requires Valid() && src.Valid()
      requires {buckets as object, bits as object} !! {src.buckets as object, src.bits as object}
      modifies buckets, bits
      ensures Valid() && (ok <==> params.size == src.params.size)
      ensures ok ==> buckets[..] == Merged(old(buckets[..]), src.buckets[..])
      ensures !ok ==> buckets[..] == old(buckets[..])
    {
      if params.size != src.params.size {
        return false;
      }
      var i := 0;
      while i < bits.Length
        invariant 0 <= i <= bits.Length
        invariant forall j | 0 <= j < bits.Length :: bits[j] == (old(bits[j]) || (j < i && src.bits[j]))
        invariant buckets[..] == old(buckets[..])
      {
        bits[i] := bits[i] || src.bits[i];
        i := i + 1;
      }
      i := 0;
      while i < params.size
        modifies buckets
        invariant 0 <= i <= params.size
        invariant forall j | 0 <= j < i :: buckets[j] == UnionOf(old(buckets[j]), src.buckets[j])
        invariant forall j | i <= j < params.size :: buckets[j] == old(buckets[j])
      {
        var entries := src.buckets[i];
        var k := 0;
        while k < |entries|
          modifies buckets
          invariant 0 <= k <= |entries|
          invariant buckets[i] == UnionOf(old(buckets[i]), entries[..k])
          invariant forall j | 0 <= j < i :: buckets[j] == UnionOf(old(buckets[j]), src.buckets[j])
          invariant forall j | i < j < params.size :: buckets[j] == old(buckets[j])
        {
          assert entries[..k + 1][..k] == entries[..k];
          if entries[k] !in buckets[i] {
            buckets[i] := [entries[k]] + buckets[i];
          }
          k := k + 1;
        }
        assert entries[..k] == entries;
        i := i + 1;
      }
      forall j | 0 <= j < params.size
        ensures bits[j] <==> buckets[j] != []
      {
        UnionEmpty(old(buckets[j]), src.buckets[j]);
      }
      assert buckets[..] == Merged(old(buckets[..]), src.buckets[..]);
      ok := true;
    }
  }

  lemma {:induction false} UnionEmpty(a: seq<nat>, b: seq<nat>)
    ensures UnionOf(a, b) == [] <==> a == [] && b == []
  {
    if b != [] {
      UnionHas(a, b, b[0]);
    }
  }

  /** An add inserts nothing but the fingerprints of its probes. */
  lemma {:induction false} AddedOnly(hash: Hasher, p: Params, b: Buckets, data: Data, n: nat)
    requires p.size > 0 && |b| == p.size
    ensures forall j, f | 0 <= j < |b| && f in Added(hash, p, b, data, n)[j] :: f in b[j] ||
              exists k | 0 <= k < n :: j == Index(hash, p, data, k) && f == Print(hash, p, data, k)
  {
    hide Index, Print;
    if n > 0 {
      AddedOnly(hash, p, b, data, n - 1);
    }
  }

  // ---- encoding ----

  const MAX_BUCKETS: nat := 0x800_0000
  const MAX_HASHES: nat := 64
  const MAX_FP_BITS: nat := 32

  /** The parameters a decoder accepts. */
  predicate Acceptable(p: Params)
  {
    0 < p.size <= MAX_BUCKETS && 0 < p.hashCount <= MAX_HASHES && 0 < p.fpBits <= MAX_FP_BITS
  }

  function BitByte(b: Buckets, k: nat): Byte
    requires 8 * k < |b|
  {
    var bit := (i: nat) => if 8 * k + i < |b| && b[8 * k + i] != [] then 1 else 0;
    bit(0) + 2 * bit(1) + 4 * bit(2) + 8 * bit(3) + 16 * bit(4) + 32 * bit(5) + 64 * bit(6) + 128 * bit(7)
  }

  function BitBytes(b: Buckets): (r: seq<Byte>)
    ensures |r| == (|b| + 7) / 8
  {
    seq((|b| + 7) / 8, k requires 0 <= k < (|b| + 7) / 8 => BitByte(b, k))
  }

  function Prints(fs: seq<nat>): (r: seq<C.Item>)
    ensures |r| == |fs|
  {
    if fs == [] then [] else Prints(fs[..|fs| - 1]) + [C.Uint(4, fs[|fs| - 1])]
  }

  function BucketItem(j: nat, fs: seq<nat>): C.Item
  {
    C.Array([C.Uint(8, j), C.Uint(4, |fs|)] + Prints(fs))
  }

  /** The occupied ones among the first n buckets. */
  function BucketItems(b: Buckets, n: nat): seq<C.Item>
    requires n <= |b|
  {
    if n == 0 then []
    else BucketItems(b, n - 1) + if b[n - 1] == [] then [] else [BucketItem(n - 1, b[n - 1])]
  }

  function Encode(p: Params, b: Buckets): C.Item
  {
    C.Array([C.Uint(8, p.size), C.Uint(4, p.hashCount), C.Uint(4, p.fpBits), C.Uint(8, p.seedA), C.Uint(8, p.seedB),
             C.Bytes(BitBytes(b)), C.Uint(8, Occupied(b))] + BucketItems(b, |b|))
  }

  /** Insert the first n fingerprints of a bucket item in front of each other. */
  function Pushed(entries: seq<nat>, items: seq<C.Item>, n: nat): seq<nat>
    requires n <= |items|
  {
    if n == 0 then entries
    else
      var rest := Pushed(entries, items, n - 1);
      if items[n - 1].Uint? then [items[n - 1].value] + rest else rest
  }

  /** One bucket item; malformed or out-of-range ones are skipped. */
  function ReadBucket(b: Buckets, item: C.Item): (r: Buckets)
    ensures |r| == |b|
  {
    if !item.Array? || |item.items| < 2 || !item.items[0].Uint? || !item.items[1].Uint? then b
    else
      var j, n := item.items[0].value, item.items[1].value;
      if j >= |b| then b
      else
        var rest := item.items[2..];
        b[j := Pushed(b[j], rest, if n <= |rest| then n else |rest|)]
  }

  function ReadBuckets(b: Buckets, items: seq<C.Item>): (r: Buckets)
    ensures |r| == |b|
  {
    if items == [] then b else ReadBucket(ReadBuckets(b, items[..|items| - 1]), items[|items| - 1])
  }

  function Decode(item: C.Item): Option<(Params, Buckets)>
  {
    if !item.Array? || |item.items| < 7 then None
    else
      var x := item.items;
      if !(x[0].Uint? && x[1].Uint? && x[2].Uint? && x[3].Uint? && x[4].Uint? && x[5].Bytes?) then None
      else
        var p := Params(x[0].value, x[1].value, x[2].value, x[3].value, x[4].value);
        if !Acceptable(p) || |x[5].bytes| != (p.size + 7) / 8 then None
        else Some((p, ReadBuckets(seq(p.size, _ => []), x[7..])))
  }

  function Reversed(fs: seq<nat>): (r: seq<nat>)
    ensures forall f :: f in r <==> f in fs
  {
    if fs == [] then []
    else
      assert fs == fs[..|fs| - 1] + [fs[|fs| - 1]];
      [fs[|fs| - 1]] + Reversed(fs[..|fs| - 1])
  }

  lemma {:induction false} PushedPrints(fs: seq<nat>, n: nat)
    requires n <= |fs|
    ensures Pushed([], Prints(fs), n) == Reversed(fs[..n])
  {
    if n > 0 {
      PushedPrints(fs, n - 1);
      PrintsAt(fs, n - 1);
      assert fs[..n][..n - 1] == fs[..n - 1];
    }
  }

  lemma {:induction false} PrintsAt(fs: seq<nat>, i: nat)
    requires i < |fs|
    ensures Prints(fs)[i] == C.Uint(4, fs[i])
  {
    if i < |fs| - 1 {
      PrintsAt(fs[..|fs| - 1], i);
    }
  }

  /** The first n buckets as the decoder rebuilds them. */
  function Rebuilt(b: Buckets, n: nat): (r: Buckets)
    requires n <= |b|
    ensures |r| == |b|
  {
    seq(|b|, j requires 0 <= j < |b| => if j < n then Reversed(b[j]) else [])
  }

  lemma {:induction false} ReadOne(b: Buckets, n: nat)
    requires n < |b|
    ensures Rebuilt(b, n + 1) == if b[n] == [] then Rebuilt(b, n) else ReadBucket(Rebuilt(b, n), BucketItem(n, b[n]))
  {
    hide Prints, Pushed, Reversed;
    if b[n] == [] {
      ReversedNone();
    } else {
      var item := BucketItem(n, b[n]);
      assert item.items[2..] == Prints(b[n]);
      PushedPrints(b[n], |b[n]|);
      assert b[n][..|b[n]|] == b[n];
    }
  }

  lemma ReversedNone()
    ensures Reversed([]) == []
  {
  }

  lemma {:induction false} ReadBack(b: Buckets, n: nat)
    requires n <= |b|
    ensures ReadBuckets(seq(|b|, _ => []), BucketItems(b, n)) == Rebuilt(b, n)
  {
    hide BucketItem, ReadBucket, Rebuilt;
    if n == 0 {
      RebuiltNone(b);
    } else {
      ReadBack(b, n - 1);
      ReadOne(b, n - 1);
      var init, items := BucketItems(b, n - 1), BucketItems(b, n);
      if b[n - 1] != [] {
        assert items[..|items| - 1] == init && items[|items| - 1] == BucketItem(n - 1, b[n - 1]);
      } else {
        assert items == init;
      }
    }
  }

  lemma RebuiltNone(b: Buckets)
    ensures Rebuilt(b, 0) == seq(|b|, _ => [])
  {
  }

  /** An encoded filter is decoded exactly if its parameters are acceptable, and then
      it has the same parameters and the same fingerprints in every bucket. */
  lemma {:induction false} CodecKeepsPrints(p: Params, b: Buckets)
    requires |b| == p.size
    ensures Decode(Encode(p, b)).Some? <==> Acceptable(p)
    ensures Acceptable(p) ==>
              var (q, r) := Decode(Encode(p, b)).value;
              q == p && |r| == p.size && Same(b, r)
  {
    hide BitBytes, Occupied;
    var item := Encode(p, b);
    assert item.items[7..] == BucketItems(b, |b|);
    if Acceptable(p) {
      ReadBack(b, |b|);
    }
  }
}
