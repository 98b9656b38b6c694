/**
 The attenuated Bloom filter that spreads topic subscriptions: one filter per hop
 distance, shifted by one level at every merge.
 */
module Gossip {
  import opened Entries
  import opened Bloom
  import opened BloomEffects
  import C = Cbor

  const MAX_LEVELS: nat := 256

  datatype Level = Level(p: Params, b: Buckets)

  /** One filter per level, level 0 for the local topics. */
  datatype Layered = Layered(levels: seq<Level>)

  predicate Sized(l: Level)
  {
    l.p.size > 0 && |l.b| == l.p.size
  }

  predicate Shaped(f: Layered)
  {
    0 < |f.levels| && forall l | 0 <= l < |f.levels| :: Sized(f.levels[l])
  }

  predicate Carries(hash: Hasher, l: Level, topic: Data)
    requires Sized(l)
  {
    Has(hash, l.p, l.b, topic)
  }

  predicate At(hash: Hasher, f: Layered, topic: Data, level: nat)
    requires Shaped(f) && level < |f.levels|
  {
    Carries(hash, f.levels[level], topic)
  }

  /** An add of a topic to a level, growing the level when it is over its threshold. */
  function Topped(hash: Hasher, l: Level, topic: Data, omega: real): (r: Level)
    requires Sized(l)
    ensures Sized(r)
  {
    var b := Added(hash, l.p, l.b, topic, l.p.hashCount);
    if !Has(hash, l.p, l.b, topic) && Overfull(Occupied(b), l.p.size, omega)
    then Level(l.p.(size := 2 * l.p.size), Expanded(b))
    else Level(l.p, b)
  }

  function Subscribed(hash: Hasher, f: Layered, topic: Data, omega: real): (r: Layered)
    requires Shaped(f)
    ensures Shaped(r) && |r.levels| == |f.levels|
  {
    f.(levels := f.levels[0 := Topped(hash, f.levels[0], topic, omega)])
  }

  /** The lowest level that has the topic, from the given one up. */
  function Hops(hash: Hasher, f: Layered, topic: Data, from: nat): (r: Option<nat>)
    requires Shaped(f) && from <= |f.levels|
    ensures r.Some? ==> from <= r.value < |f.levels| && At(hash, f, topic, r.value)
    ensures r.Some? ==> forall l | from <= l < r.value :: !At(hash, f, topic, l)
    ensures r.None? ==> forall l | from <= l < |f.levels| :: !At(hash, f, topic, l)
    decreases |f.levels| - from
  {
    if from == |f.levels| then None
    else if At(hash, f, topic, from) then Some(from)
    else Hops(hash, f, topic, from + 1)
  }

  method Check(hash: Hasher, f: Layered, topic: Data) returns (hops: Option<nat>)
    requires Shaped(f)
    ensures hops == Hops(hash, f, topic, 0)
  {
    var level := 0;
    while level < |f.levels|
      invariant 0 <= level <= |f.levels|
      invariant Hops(hash, f, topic, 0) == Hops(hash, f, topic, level)
    {
      if At(hash, f, topic, level) {
        return Some(level);
      }
      level := level + 1;
    }
    hops := None;
  }

  /** A level of another size is left alone. */
  function MergedLevel(dest: Level, src: Level): (r: Level)
    requires Sized(dest) && Sized(src)
    ensures Sized(r) && r.p == dest.p
  {
    if dest.p.size != src.p.size then dest else Level(dest.p, Merged(dest.b, src.b))
  }

  /** Level i of the source goes into level i + 1; everything is left alone when the
      numbers of levels differ. */
  function MergedInto(dest: Layered, src: Layered): (r: Layered)
    requires Shaped(dest) && Shaped(src)
    ensures Shaped(r) && |r.levels| == |dest.levels|
  {
    if |dest.levels| != |src.levels| then dest
    else dest.(levels := seq(|dest.levels|, l requires 0 <= l < |dest.levels| =>
                 if l == 0 then dest.levels[l] else MergedLevel(dest.levels[l], src.levels[l - 1])))
  }

  lemma {:induction false} MergedCarries(hash: Hasher, dest: Level, src: Level, topic: Data)
    requires Sized(dest) && Sized(src)
    ensures Carries(hash, dest, topic) ==> Carries(hash, MergedLevel(dest, src), topic)
    ensures dest.p == src.p && Carries(hash, src, topic) ==> Carries(hash, MergedLevel(dest, src), topic)
  {
    hide Has, Merged, Below;
    if dest.p.size == src.p.size {
      MergeIsUnion(dest.b, src.b);
      if Carries(hash, dest, topic) {
        HasMonotone(hash, dest.p, dest.b, Merged(dest.b, src.b), topic);
      }
      if dest.p == src.p && Carries(hash, src, topic) {
        HasMonotone(hash, src.p, src.b, Merged(dest.b, src.b), topic);
      }
    }
  }

  /** A merge never changes the local level and never makes a topic look further. */
  lemma {:induction false} MergeNeverWorsens(hash: Hasher, dest: Layered, src: Layered, topic: Data)
    requires Shaped(dest) && Shaped(src)
    ensures MergedInto(dest, src).levels[0] == dest.levels[0]
    ensures Hops(hash, dest, topic, 0).Some? ==>
              && Hops(hash, MergedInto(dest, src), topic, 0).Some?
              && Hops(hash, MergedInto(dest, src), topic, 0).value <= Hops(hash, dest, topic, 0).value
  {
    hide Hops, Carries, MergedLevel;
    var r := MergedInto(dest, src);
    var h := Hops(hash, dest, topic, 0);
    if h.Some? {
      var l := h.value;
      if |dest.levels| == |src.levels| && l > 0 {
        MergedCarries(hash, dest.levels[l], src.levels[l - 1], topic);
      }
      assert At(hash, r, topic, l);
    }
  }

  /** A topic of the source is found one level further on, if the two levels have the
      same parameters. */
  lemma {:induction false} MergeShifts(hash: Hasher, dest: Layered, src: Layered, topic: Data, l: nat)
    requires Shaped(dest) && Shaped(src) && |dest.levels| == |src.levels|
    requires l + 1 < |src.levels| && dest.levels[l + 1].p == src.levels[l].p && At(hash, src, topic, l)
    ensures At(hash, MergedInto(dest, src), topic, l + 1)
  {
    hide Carries, MergedLevel;
    MergedCarries(hash, dest.levels[l + 1], src.levels[l], topic);
  }

  /** A merge, fingerprint by fingerprint: level l takes in level l - 1 of the source, unless
      their sizes or the numbers of levels differ, and nothing else changes. */
  lemma {:induction false} MergeExact(dest: Layered, src: Layered, l: nat, j: nat, f: nat)
    requires Shaped(dest) && Shaped(src) && l < |dest.levels| && j < |dest.levels[l].b|
    ensures var r := MergedInto(dest, src);
            && r.levels[l].p == dest.levels[l].p && |r.levels[l].b| == |dest.levels[l].b|
            && (f in r.levels[l].b[j] <==>
                f in dest.levels[l].b[j] ||
                (&& |src.levels| == |dest.levels| && 0 < l && src.levels[l - 1].p.size == dest.levels[l].p.size
                 && f in src.levels[l - 1].b[j]))
  {
    hide Merged;
    if |src.levels| == |dest.levels| && 0 < l && src.levels[l - 1].p.size == dest.levels[l].p.size {
      MergeIsUnion(dest.levels[l].b, src.levels[l - 1].b);
    }
  }

  /** A subscription touches level 0 alone.  It grows that level if and only if the topic was not
      there and its buckets are then filled past the threshold; otherwise the level gains
      the fingerprints of the topic's probes and no others, so every topic stays. */
  lemma {:induction false} SubscribedExact(hash: Hasher, f: Layered, topic: Data, omega: real)
    requires Shaped(f)
    ensures var r, l := Subscribed(hash, f, topic, omega), f.levels[0];
            && r.levels[1..] == f.levels[1..]
            && (r.levels[0].p != l.p <==>
                && !At(hash, f, topic, 0)
                && Occupied(Added(hash, l.p, l.b, topic, l.p.hashCount)) as real > omega * l.p.size as real)
            && (r.levels[0].p != l.p ==> r.levels[0].p == l.p.(size := 2 * l.p.size))
            && (r.levels[0].p == l.p ==>
                  && At(hash, r, topic, 0) && Below(l.b, r.levels[0].b)
                  && forall j, x | 0 <= j < |l.b| && x in r.levels[0].b[j] ::
                       x in l.b[j] || Probed(hash, l.p, topic, j, x))
  {
    hide Has, Added, Expanded, Occupied, Overfull;
    var l := f.levels[0];
    var b := Added(hash, l.p, l.b, topic, l.p.hashCount);
    OverfullExact(Occupied(b), l.p.size, omega);
    AddIsFound(hash, l.p, l.b, topic);
    AddedOnly(hash, l.p, l.b, topic, l.p.hashCount);
  }

  /** A probe of the topic puts this fingerprint into this bucket. */
  predicate Probed(hash: Hasher, p: Params, topic: Data, j: nat, x: nat)
    requires p.size > 0
  {
    exists k | 0 <= k < p.hashCount :: j == Index(hash, p, topic, k) && x == Print(hash, p, topic, k)
  }

  // ---- between nodes ----

  function LevelItems(levels: seq<Level>): (r: seq<C.Item>)
    ensures |r| == |levels|
  {
    if levels == [] then []
    else
      var n := |levels| - 1;
      LevelItems(levels[..n]) + [Bloom.Encode(levels[n].p, levels[n].b)]
  }

  function Encode(f: Layered): C.Item
  {
    C.Array([C.Uint(4, |f.levels|), C.Array(LevelItems(f.levels))])
  }

  /** Decode the first n levels; all must be decodable. */
  function ReadLevels(items: seq<C.Item>, n: nat): Option<seq<Level>>
    requires n <= |items|
  {
    if n == 0 then Some([])
    else
      var rest :- ReadLevels(items, n - 1);
      var (p, b) :- Bloom.Decode(items[n - 1]);
      Some(rest + [Level(p, b)])
  }

  /** The number of levels is clamped to the filters that are there. */
  function Decode(item: C.Item): Option<Layered>
  {
    if !item.Array? || |item.items| < 2 || !item.items[0].Uint? || !item.items[1].Array? then None
    else
      var said, items := item.items[0].value, item.items[1].items;
      var n := if |items| < said then |items| else said;
      if n == 0 || n > MAX_LEVELS then None
      else
        var levels :- ReadLevels(items, n);
        Some(Layered(levels))
  }

  predicate AllAcceptable(levels: seq<Level>)
  {
    forall l | 0 <= l < |levels| :: Acceptable(levels[l].p)
  }

  /** The same filter, with the entries of its buckets in any order. */
  predicate Alike(l: Level, r: Level)
  {
    l.p == r.p && Same(l.b, r.b)
  }

  lemma {:induction false} LevelsReadBack(levels: seq<Level>, n: nat)
    requires n <= |levels| && forall l | 0 <= l < |levels| :: Sized(levels[l])
    ensures ReadLevels(LevelItems(levels), n).Some? <==> AllAcceptable(levels[..n])
    ensures AllAcceptable(levels[..n]) ==>
              var r := ReadLevels(LevelItems(levels), n).value;
              |r| == n && forall l | 0 <= l < n :: Sized(r[l]) && Alike(levels[l], r[l])
  {
    hide Bloom.Encode, Bloom.Decode, Same, Acceptable;
    if n > 0 {
      LevelsReadBack(levels, n - 1);
      LevelItemAt(levels, n - 1);
      CodecKeepsPrints(levels[n - 1].p, levels[n - 1].b);
      assert levels[..n] == levels[..n - 1] + [levels[n - 1]];
    }
  }

  lemma {:induction false} LevelItemAt(levels: seq<Level>, l: nat)
    requires l < |levels|
    ensures LevelItems(levels)[l] == Bloom.Encode(levels[l].p, levels[l].b)
  {
    if l < |levels| - 1 {
      LevelItemAt(levels[..|levels| - 1], l);
    }
  }

  /** A filter that is sent arrives if and only if it has at most 256 levels and each
      has acceptable parameters, and then it has every topic at the levels it had it,
      and no other. */
  lemma {:induction false} SentKeepsTopics(hash: Hasher, f: Layered, topic: Data)
    requires Shaped(f)
    ensures var r := Decode(Encode(f));
            && (r.Some? <==> |f.levels| <= MAX_LEVELS && AllAcceptable(f.levels))
            && (r.Some? ==>
                  && Shaped(r.value) && |r.value.levels| == |f.levels|
                  && forall l | 0 <= l < |f.levels| ::
                       r.value.levels[l].p == f.levels[l].p && At(hash, r.value, topic, l) == At(hash, f, topic, l))
  {
    hide LevelItems, ReadLevels, Has, Below;
    LevelsReadBack(f.levels, |f.levels|);
    assert f.levels[..|f.levels|] == f.levels;
    if Decode(Encode(f)).Some? {
      var r := Decode(Encode(f)).value;
      forall l | 0 <= l < |f.levels|
        ensures At(hash, r, topic, l) == At(hash, f, topic, l)
      {
        var p := f.levels[l].p;
        if At(hash, f, topic, l) {
          HasMonotone(hash, p, f.levels[l].b, r.levels[l].b, topic);
        }
        if At(hash, r, topic, l) {
          HasMonotone(hash, p, r.levels[l].b, f.levels[l].b, topic);
        }
      }
    }
  }

  /** Nodes that can talk to each other: same number of levels, same parameters. */
  predicate Network(nodes: seq<Layered>, p: Params, levels: nat)
  {
    && Acceptable(p) && 0 < levels <= MAX_LEVELS
    && forall i | 0 <= i < |nodes| :: Uniform(nodes[i], p, levels)
  }

  predicate Uniform(f: Layered, p: Params, levels: nat)
  {
    Shaped(f) && |f.levels| == levels && forall l | 0 <= l < levels :: f.levels[l].p == p
  }

  lemma {:induction false} ToldUniform(hash: Hasher, told: Layered, p: Params, levels: nat)
    requires Acceptable(p) && 0 < levels <= MAX_LEVELS && Uniform(told, p, levels)
    ensures Decode(Encode(told)).Some? && Uniform(Decode(Encode(told)).value, p, levels)
  {
    hide Decode, Encode, At;
    SentKeepsTopics(hash, told, 0);
  }

  lemma {:induction false} MergedUniform(dest: Layered, src: Layered, p: Params, levels: nat)
    requires 0 < levels && Uniform(dest, p, levels) && Uniform(src, p, levels)
    ensures Uniform(MergedInto(dest, src), p, levels)
  {
    hide MergedLevel;
  }

  /** The filter of node n after node 0 told node 1, which told node 2, and so on. */
  function Carried(hash: Hasher, nodes: seq<Layered>, p: Params, levels: nat, n: nat): (r: Layered)
    requires Network(nodes, p, levels) && n < |nodes|
    ensures Uniform(r, p, levels)
  {
    if n == 0 then nodes[0]
    else
      var told := Carried(hash, nodes, p, levels, n - 1);
      ToldUniform(hash, told, p, levels);
      MergedUniform(nodes[n], Decode(Encode(told)).value, p, levels);
      MergedInto(nodes[n], Decode(Encode(told)).value)
  }

  /** A topic subscribed at the first node, without a resize there, is found at the
      n-th node, within n hops. */
  lemma {:induction false} HopBound(hash: Hasher, f: Layered, omega: real, nodes: seq<Layered>, p: Params, levels: nat,
                                    n: nat, topic: Data)
    requires Network(nodes, p, levels) && n < |nodes| && n < levels
    requires Uniform(f, p, levels) && nodes[0] == Subscribed(hash, f, topic, omega)
    ensures var hops := Hops(hash, Carried(hash, nodes, p, levels, n), topic, 0);
            hops.Some? && hops.value <= n
  {
    hide Hops, Has, Added, Expanded, Occupied, Overfull, Carried;
    assert Uniform(nodes[0], p, levels);
    AddIsFound(hash, p, f.levels[0].b, topic);
    assert At(hash, nodes[0], topic, 0);
    CarriedAt(hash, nodes, p, levels, n, topic);
  }

  lemma {:induction false} CarriedAt(hash: Hasher, nodes: seq<Layered>, p: Params, levels: nat, n: nat, topic: Data)
    requires Network(nodes, p, levels) && n < |nodes| && n < levels && At(hash, nodes[0], topic, 0)
    ensures At(hash, Carried(hash, nodes, p, levels, n), topic, n)
  {
    hide Carries, Decode, Encode, MergedInto;
    if n > 0 {
      CarriedAt(hash, nodes, p, levels, n - 1, topic);
      var told := Carried(hash, nodes, p, levels, n - 1);
      SentKeepsTopics(hash, told, topic);
      assert Uniform(nodes[n], p, levels);
      MergeShifts(hash, nodes[n], Decode(Encode(told)).value, topic, n - 1);
    }
  }
}
