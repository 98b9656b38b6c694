/**
 What holds of every run of the block cache: where its blocks are, when its counters and
 its limit are right, what an abort deletes and what a claim protects.
 */
module BlockRuns {
  import opened Entries
  import opened Section
  import opened Shelf
  import opened BlockStore
  import S = Shelf
  import F = FreeMap
  import L = Lru

  // ---- placement ----

  /** In every run no two indexed blocks share a slot, each one's slot is in use, and
      reading it gives the bytes stored last under its hash. */
  lemma {:induction false} RunExclusive(c: Settings, s: Store, msgs: seq<Msg>)
    requires Orderly(c, s, msgs)
    ensures var r := Run(c, s, msgs);
            && Exclusive(r.index)
            && forall h | h in r.index ::
                 && r.index[h].slot < |At(c.pool, r.shelf, r.index[h].id).used|
                 && At(c.pool, r.shelf, r.index[h].id).used[r.index[h].slot]
                 && h in r.blocks && ReadAt(c.pool, r.shelf, Spot(r.index[h].id, r.index[h].slot)) == Some(r.blocks[h])
  {
    hide Run, Orderly, Ready, Counted, Receipted, Tidy, At;
    var r := Run(c, s, msgs);
    forall h | h in r.index
      ensures h in r.blocks && Backed(c.pool, r.shelf, r.index[h], r.blocks[h])
    {
    }
  }

  /** Nothing frees a slot: no message lowers the number of slots a section uses. */
  lemma {:induction false} SlotsNeverFreed(c: Settings, s: Store, m: Msg, x: Id)
    requires StoreInv(c, s) && (m.Defragment? ==> Distinct(m.ids))
    ensures F.Count(At(c.pool, Step(c, s, m).shelf, x).used) >= F.Count(At(c.pool, s.shelf, x).used)
  {
    hide Placed, Counted, Receipted, Tidy, F.Count, F.FirstFree, Defragmented, AllMoves, SoundAll, RoomyBut;
    match m
    case Put(h, data, group, claim) => PutFreesNothing(c.pool, s.shelf, data, x);
    case Defragment(ids, threshold) => SqueezeFreesNothing(c.pool, s.shelf, ids, threshold, x);
    case _ =>
      hide Step;
      StepQuiet(c, s, m);
  }

  lemma {:induction false} SqueezeFreesNothing(c: Config, s: Shelf, ids: seq<Id>, threshold: real, x: Id)
    requires SoundAll(c, s) && Distinct(ids)
    ensures F.Count(At(c, Defragmented(c, s, ids, threshold), x).used) == F.Count(At(c, s, x).used)
  {
    hide F.Count, F.FirstFree, Defragmented, Sparse, Compacted;
    DefragmentedAt(c, s, ids, threshold, x);
    CompactKeepsReads(At(c, s, x));
  }

  lemma {:induction false} PutFreesNothing(c: Config, s: Shelf, data: Block, x: Id)
    requires S.Inv(c, s) && c.size > 0 && c.floor > 0
    ensures F.Count(At(c, S.Store(c, s, data).0, x).used) >= F.Count(At(c, s, x).used)
  {
    hide Retired, F.FirstFree, F.Count, Written;
    AtSound(c, s, s.robin[0]);
    WriteKeepsOthers(At(c, s, s.robin[0]), data);
  }

  // ---- the counters ----

  /** How many messages, since the last resize to a positive limit, deleted a hash of
      which only the cache had a record, and what the counters had missed before. */
  function Missed(c: Settings, s: Store, msgs: seq<Msg>): nat
    requires Orderly(c, s, msgs)
  {
    if msgs == [] then s.lag
    else
      var before, m := msgs[..|msgs| - 1], msgs[|msgs| - 1];
      if m.Resize? && m.limit > 0 then 0
      else Missed(c, s, before) + if Phantom(Run(c, s, before), m) then 1 else 0
  }

  lemma {:induction false} MissedIsLag(c: Settings, s: Store, msgs: seq<Msg>)
    requires Orderly(c, s, msgs)
    ensures Run(c, s, msgs).lag == Missed(c, s, msgs)
  {
    hide Step, Kept, Counted, Receipted, Phantom, Allowed;
    if msgs != [] {
      var before, m := msgs[..|msgs| - 1], msgs[|msgs| - 1];
      MissedIsLag(c, s, before);
      CountedStep(c, Run(c, s, before), m);
    }
  }

  lemma CountedStep(c: Settings, s: Store, m: Msg)
    requires StoreInv(c, s)
    ensures Ready(c, s)
    ensures Step(c, s, m).lag ==
            if m.Resize? && m.limit > 0 then 0 else s.lag + if Phantom(s, m) then 1 else 0
  {
    hide Step, Counted, Receipted, Phantom, Placed, Tidy, S.Inv;
    StepCounted(c, s, m);
  }

  /** In every run the 64-bit counters are those of the index less the deletions they
      counted for nothing since the last resize to a positive limit.  So they are right if
      and only if that number is a multiple of 2^64, and the index fits a word. */
  lemma {:induction false} CountersExact(c: Settings, s: Store, msgs: seq<Msg>)
    requires Orderly(c, s, msgs)
    ensures var r, missed := Run(c, s, msgs), Missed(c, s, msgs);
            && r.count == Wrap(|r.index| - missed) && r.bytes == Wrap(Bytes(|r.index| - missed, c.pool.blockSize))
            && (r.count == |r.index| <==> |r.index| < TWO_TO_64 && missed % TWO_TO_64 == 0)
  {
    hide Run, Missed, Orderly, Kept, Receipted, Bytes;
    MissedIsLag(c, s, msgs);
  }

  /** The limit: of a new block that fits, a put is refused for lack of room if and only
      if the bytes missed exceed those needed and what is left of 2^64 exceeds the limit;
      one that does not fit is let in if and only if the bytes missed, and the wrapping,
      hide enough of those needed. */
  lemma {:induction false} LimitExact(c: Settings, s: Store, h: Digest, data: Block, group: nat, claim: bool)
    requires StoreInv(c, s) && s.limit > 0 && h !in s.index && |data| == c.pool.blockSize
    requires group == 0 || group !in s.ended
    ensures var needed, missed := Bytes(|s.index| + 1, c.pool.blockSize), Bytes(s.lag, c.pool.blockSize) % TWO_TO_64;
            var over := needed % TWO_TO_64;
            var stored := h in Step(c, s, Put(h, data, group, claim)).index;
            if needed <= s.limit then
              !stored <==> missed > needed && needed + TWO_TO_64 - missed > s.limit
            else
              stored <==> (if missed <= over then over - missed else over + TWO_TO_64 - missed) <= s.limit
  {
    hide Placed, Tidy, Receipted, SoundAll, RoomyBut, L.Admitted, S.Store, Recorded, Bytes, Wrap;
    CountBy(|s.index| - s.lag, 1, c.pool.blockSize);
    BytesMinus(|s.index| + 1, s.lag, c.pool.blockSize);
    PositiveBytes(|s.index| + 1, c.pool.blockSize);
    PositiveBytes(s.lag, c.pool.blockSize);
    WrapMinus(Bytes(|s.index| + 1, c.pool.blockSize), Bytes(s.lag, c.pool.blockSize));
    WrapSmall(Bytes(|s.index| + 1, c.pool.blockSize));
  }

  lemma WrapMinus(x: nat, y: nat)
    ensures var a, b := x % TWO_TO_64, y % TWO_TO_64;
            Wrap(x - y) == if b <= a then a - b else a + TWO_TO_64 - b
  {
    var a, b, q := x % TWO_TO_64, y % TWO_TO_64, x / TWO_TO_64 - y / TWO_TO_64;
    WrapIs(x - y, if b <= a then q else q - 1, if b <= a then a - b else a + TWO_TO_64 - b);
  }

  lemma WrapIs(n: int, q: int, r: nat)
    requires n == q * TWO_TO_64 + r && r < TWO_TO_64
    ensures Wrap(n) == r
  {
  }

  lemma WrapSmall(x: nat)
    ensures x < TWO_TO_64 ==> x % TWO_TO_64 == x
  {
  }

  lemma PositiveBytes(n: nat, size: nat)
    ensures Bytes(n, size) >= 0
  {
  }

  lemma BytesMinus(a: int, b: int, size: nat)
    ensures Bytes(a - b, size) == Bytes(a, size) - Bytes(b, size)
  {
  }

  /** A store that is opened over blocks without a limit counts them from zero: removing
      one of them takes the count below it. */
  lemma {:induction false} OpenedUncounted(c: Settings, saved: Shelf, index: map<Digest, Rec>,
                                           blocks: map<Digest, Block>, h: Digest)
    requires StoreInv(c, Opened(c, 0, saved, index, blocks))
    requires h in index && index[h].claims == 0 && index[h].pins == 0
    ensures var s := Opened(c, 0, saved, index, blocks);
            && Orderly(c, s, []) && Missed(c, s, []) == |index| && s.count == 0
            && var r := Step(c, s, Remove(h, false));
               |r.index| == |index| - 1 && r.count == TWO_TO_64 - 1
  {
    hide Placed, Tidy, Receipted, S.Inv, Started, TargetFor, L.Without, Bytes;
    var s := Opened(c, 0, saved, index, blocks);
    RunNone(c, s);
    RemoveKeys(index, {h});
  }

  // ---- a block that is removed while it is read ----

  /** A get starts to wait for the pool. */
  lemma {:induction false} WaitStarts(c: Settings, s: Store, h: Digest)
    requires StoreInv(c, s) && h in s.index && L.Find(s.cached, h).None? && s.pending == [] && s.asked == []
    ensures Step(c, s, GetLater(h)) == s.(pending := [Wait(h, Live)], asked := [Spot(s.index[h].id, s.index[h].slot)])
  {
    hide Kept, Counted, Receipted, L.Find;
  }

  /** The hash is removed while the get waits; the get keeps the record. */
  lemma {:induction false} RemovedWhileWaiting(c: Settings, s: Store, h: Digest)
    requires StoreInv(c, s) && h in s.index && L.Find(s.cached, h).None? && s.pending == [Wait(h, Live)]
    requires s.index[h].claims == 0 && s.index[h].pins == 0
    ensures Step(c, s, Remove(h, false)) ==
            s.(index := s.index - {h}, count := Wrap(s.count - 1), bytes := Wrap(s.bytes - c.pool.blockSize),
               pending := [Wait(h, Detached(s.index[h]))])
  {
    hide Placed, Tidy, Counted, Receipted, S.Inv, L.Find, Wrap, Detach, L.Without, Bytes;
    L.WithoutNone(s.cached, {h});
    OneDetached(h, s.index);
    CountBy(0, 1, c.pool.blockSize);
    assert |{h}| == 1;
  }

  lemma OneDetached(h: Digest, index: map<Digest, Rec>)
    requires h in index
    ensures Detach([Wait(h, Live)], index, {h}) == [Wait(h, Detached(index[h]))]
  {
  }

  /** What a read by the pool and its arrival leave alone. */
  predicate Beside(s: Store, t: Store)
  {
    && t.index == s.index && t.count == s.count && t.bytes == s.bytes && t.lag == s.lag && t.limit == s.limit
    && t.blocks == s.blocks && t.receipts == s.receipts && t.ended == s.ended
  }

  /** The pool performs the one read it was asked for. */
  lemma {:induction false} PoolReads(c: Settings, s: Store, spot: Spot, loaded: bool)
    requires StoreInv(c, s) && s.asked == [spot] && s.answers == []
    ensures var t := Step(c, s, Fetch(loaded));
            && Beside(s, t) && t.cached == s.cached && t.replies == s.replies
            && t.pending == s.pending && t.asked == [] && t.answers == [Result(spot, ReadAt(c.pool, s.shelf, spot))]
  {
    hide Placed, Counted, Receipted, S.Inv, Touched, ReadAt;
  }

  lemma OneWaiting(w: Wait, index: map<Digest, Rec>, spot: Spot)
    ensures var here := Where(index, w.h, w.held) == Some(spot);
            && WaitingAt([w], index, spot) == (if here then [w] else [])
            && WaitingElsewhere([w], index, spot) == (if here then [] else [w])
  {
    assert [w][..0] == [];
    assert WaitingAt([], index, spot) == [] && WaitingElsewhere([], index, spot) == [];
  }

  /** The read arrives and puts the block, with the record the get holds, into the cache. */
  lemma {:induction false} ReadArrives(c: Settings, s: Store, w: Wait, spot: Spot, b: Block)
    requires StoreInv(c, s) && s.pending == [w] && s.answers == [Result(spot, Some(b))]
    requires Where(s.index, w.h, w.held) == Some(spot) && c.hash(b) == w.h
    ensures Dangles(c, s, ReadResult) <==> L.Reused(s.cached, w.h, c.lruSize)
    ensures var t := Step(c, s, ReadResult);
            && Beside(s, t) && t.pending == [] && t.asked == s.asked && t.answers == []
            && t.cached == L.Admitted(s.cached, w.h, Cell(b, w.held), c.lruSize)
  {
    hide Placed, Counted, Receipted, S.Inv, L.Find, L.Admitted, WaitingAt, WaitingElsewhere, L.Unique, L.Reused, Where;
    OneWaiting(w, s.index, spot);
  }

  /** The cache holds the block of a hash that was not there, with a detached record. */
  lemma {:induction false} OrphanCached(cached: seq<(Digest, Cell)>, h: Digest, b: Block, r: Rec, size: nat)
    requires L.Unique(cached) && |cached| <= size && size > 0 && L.Find(cached, h).None?
    ensures var t := L.Admitted(cached, h, Cell(b, Detached(r)), size);
            Orphaned(t, h) && Orphan(t, h) == r
  {
    hide L.Find, L.Admitted, L.Unique;
    L.AdmittedKeeps(cached, h, Cell(b, Detached(r)), size);
  }

  /** Removing the hash once more counts it out again. */
  lemma {:induction false} OrphanRemoved(c: Settings, s: Store, h: Digest)
    requires StoreInv(c, s) && h !in s.index && Orphaned(s.cached, h)
    requires Orphan(s.cached, h).claims == 0 && Orphan(s.cached, h).pins == 0
    ensures Step(c, s, Remove(h, false)) ==
            s.(count := Wrap(s.count - 1), bytes := Wrap(s.bytes - c.pool.blockSize), lag := s.lag + 1,
               cached := L.Without(s.cached, {h}))
  {
    hide Placed, Counted, Receipted, S.Inv, L.Find, L.Without, Wrap;
  }

  /** No get is waiting and no read is on its way. */
  predicate Idle(s: Store)
  {
    s.pending == [] && s.asked == [] && s.answers == []
  }

  function Orphaning(h: Digest, loaded: bool): seq<Msg>
  {
    [GetLater(h), Remove(h, false), Fetch(loaded), ReadResult]
  }

  /** A block whose hash is removed while a get waits for it stays in the cache, with a
      record of its own. */
  lemma {:induction false} OrphanMade(c: Settings, s: Store, h: Digest, loaded: bool)
    requires StoreInv(c, s) && h in s.index && L.Find(s.cached, h).None? && Idle(s)
    requires s.index[h].claims == 0 && s.index[h].pins == 0 && h in s.blocks && c.hash(s.blocks[h]) == h
    ensures Orderly(c, s, Orphaning(h, loaded))
    ensures var r := Run(c, s, Orphaning(h, loaded));
            && r.index == s.index - {h} && r.lag == s.lag && r.limit == s.limit && r.blocks == s.blocks && Idle(r)
            && Orphaned(r.cached, h) && Orphan(r.cached, h) == s.index[h]
            && r.cached == L.Admitted(s.cached, h, Cell(s.blocks[h], Detached(s.index[h])), c.lruSize)
  {
    hide Step, Run, Orderly, Placed, Counted, Receipted, S.Inv, L.Find, Orphaned, Orphan, ReadAt, L.Admitted, L.Unique;
    var spot, rec := Spot(s.index[h].id, s.index[h].slot), s.index[h];
    assert ReadAt(c.pool, s.shelf, spot) == Some(s.blocks[h]) by {
      StoredReads(c, s, h);
    }
    var m1: seq<Msg> := [] + [GetLater(h)];
    RunNone(c, s);
    RunMore(c, s, [], GetLater(h));
    WaitStarts(c, s, h);
    var m2 := m1 + [Remove(h, false)];
    RunMore(c, s, m1, Remove(h, false));
    RemovedWhileWaiting(c, Run(c, s, m1), h);
    var m3 := m2 + [Fetch(loaded)];
    RunMore(c, s, m2, Fetch(loaded));
    PoolReads(c, Run(c, s, m2), spot, loaded);
    var s3, w := Run(c, s, m3), Wait(h, Detached(rec));
    ReadArrives(c, s3, w, spot, s.blocks[h]);
    NotReused(s.cached, h, c.lruSize);
    RunMore(c, s, m3, ReadResult);
    OrphanCached(s.cached, h, s.blocks[h], rec, c.lruSize);
    assert m3 + [ReadResult] == Orphaning(h, loaded);
  }

  lemma NotReused(cached: seq<(Digest, Cell)>, h: Digest, size: nat)
    requires L.Find(cached, h).None?
    ensures !L.Reused(cached, h, size)
  {
  }

  lemma StoredReads(c: Settings, s: Store, h: Digest)
    requires Placed(c.pool, s.shelf, s.index, s.blocks) && h in s.index
    ensures h in s.blocks && ReadAt(c.pool, s.shelf, Spot(s.index[h].id, s.index[h].slot)) == Some(s.blocks[h])
  {
    assert Backed(c.pool, s.shelf, s.index[h], s.blocks[h]);
  }

  /** A put of a new block without a group. */
  lemma {:induction false} PutEnters(c: Settings, s: Store, h: Digest, data: Block)
    requires StoreInv(c, s) && h !in s.index && !Refused(c, s, 0) && |data| == c.pool.blockSize
    ensures L.Find(s.cached, h).None? ==> Allowed(c, s, Put(h, data, 0, false))
    ensures var r := Step(c, s, Put(h, data, 0, false));
            && r.index.Keys == s.index.Keys + {h} && r.index[h].claims == 0 && r.index[h].pins == 0
            && (forall k | k in s.index :: r.index[k] == s.index[k])
            && r.cached == L.Admitted(s.cached, h, Cell(data, Live), c.lruSize)
            && r.blocks == s.blocks[h := data] && r.limit == s.limit && r.lag == s.lag
            && r.pending == s.pending && r.asked == s.asked && r.answers == s.answers
  {
    hide Placed, Counted, Receipted, SoundAll, RoomyBut, L.Admitted, S.Store, Recorded;
  }

  /** Two puts into a new store that caches one block. */
  lemma {:induction false} TwoPuts(c: Settings, limit: U64, h: Digest, k: Digest, a: Block, b: Block)
    requires Workable(c) && c.lruSize == 1 && h != k && |a| == |b| == c.pool.blockSize
    requires limit == 0 || Bytes(2, c.pool.blockSize) <= limit
    ensures var msgs := [Put(h, a, 0, false), Put(k, b, 0, false)];
            && Orderly(c, Empty(c, limit), msgs)
            && var s := Run(c, Empty(c, limit), msgs);
               && s.index.Keys == {h, k} && s.index[h].claims == 0 && s.index[h].pins == 0
               && s.index[k].claims == 0 && s.index[k].pins == 0 && Idle(s)
               && s.cached == [(k, Cell(b, Live))] && s.lag == 0 && s.limit == limit
               && s.blocks == map[h := a, k := b]
  {
    hide Step, Run, Orderly, StoreInv, Allowed, Bytes, Wrap;
    EmptyInv(c, limit);
    var s := Empty(c, limit);
    var one: seq<Msg> := [] + [Put(h, a, 0, false)];
    RunNone(c, s);
    HasRoom(c, s);
    PutEnters(c, s, h, a);
    RunMore(c, s, [], Put(h, a, 0, false));
    var s1 := Run(c, s, one);
    assert L.Find(s1.cached, k).None?;
    HasRoom(c, s1);
    PutEnters(c, s1, k, b);
    RunMore(c, s, one, Put(k, b, 0, false));
    assert one + [Put(k, b, 0, false)] == [Put(h, a, 0, false), Put(k, b, 0, false)];
    var s2 := Run(c, s, one + [Put(k, b, 0, false)]);
    assert s2.index.Keys == {h, k} && s2.blocks == map[h := a, k := b];
  }

  /** The first two blocks are not refused. */
  lemma HasRoom(c: Settings, s: Store)
    requires StoreInv(c, s) && |s.index| <= 1 && s.lag == 0
    requires s.limit == 0 || Bytes(2, c.pool.blockSize) <= s.limit
    ensures !Refused(c, s, 0)
  {
    hide Kept, Receipted, Bytes, Wrap;
    CountBy(|s.index|, 1, c.pool.blockSize);
    assert |s.index| + 1 == 1 || |s.index| + 1 == 2;
    SmallBytes(c.pool.blockSize, s.limit);
  }

  lemma SmallBytes(size: nat, limit: U64)
    requires limit == 0 || Bytes(2, size) <= limit
    ensures limit > 0 ==> Wrap(Bytes(1, size)) <= limit && Wrap(Bytes(2, size)) <= limit
  {
  }

  /** A new store that caches one block: two puts, and two removals of the first, the
      one while a get waits for it and the other when it was read, end with one block in
      the index and a count of none. */
  lemma {:induction false} CountedOutTwice(c: Settings, h: Digest, k: Digest, a: Block, b: Block, loaded: bool)
    requires Workable(c) && c.lruSize == 1 && h != k && |a| == |b| == c.pool.blockSize && c.hash(a) == h
    ensures var msgs := [Put(h, a, 0, false), Put(k, b, 0, false)] + Orphaning(h, loaded) + [Remove(h, false)];
            && Orderly(c, Empty(c, 0), msgs)
            && var r := Run(c, Empty(c, 0), msgs);
               r.index.Keys == {k} && r.count == 0 && r.lag == 1
  {
    hide Step, Run, Orderly, StoreInv, Allowed, Orphaned, Orphan, Idle, Orphaning, L.Without, Wrap;
    var s, puts := Empty(c, 0), [Put(h, a, 0, false), Put(k, b, 0, false)];
    TwoPuts(c, 0, h, k, a, b);
    CountedOut(c, s, puts, h, loaded);
    var r := Run(c, s, puts + Orphaning(h, loaded) + [Remove(h, false)]);
    assert r.index.Keys == {k};
    OneLeft(c, r, k);
  }

  lemma OneLeft(c: Settings, r: Store, k: Digest)
    requires StoreInv(c, r) && r.index.Keys == {k} && r.lag == 1
    ensures r.count == 0
  {
    hide Kept, Receipted, Bytes;
    assert |r.index| == |r.index.Keys| == 1;
  }

  /** From anywhere: a hash that is not cached is removed while a get waits for it, and
      once more when it was read.  The index loses one block and the counters two. */
  lemma {:induction false} CountedOut(c: Settings, s: Store, puts: seq<Msg>, h: Digest, loaded: bool)
    requires Orderly(c, s, puts)
    requires var t := Run(c, s, puts);
             && h in t.index && L.Find(t.cached, h).None? && Idle(t) && |t.cached| <= 1 == c.lruSize
             && t.index[h].claims == 0 && t.index[h].pins == 0 && h in t.blocks && c.hash(t.blocks[h]) == h
    ensures Orderly(c, s, puts + Orphaning(h, loaded) + [Remove(h, false)])
    ensures var t, r := Run(c, s, puts), Run(c, s, puts + Orphaning(h, loaded) + [Remove(h, false)]);
            && r.index == t.index - {h} && r.lag == t.lag + 1 && r.limit == t.limit && r.blocks == t.blocks
            && Idle(r) && r.cached == []
  {
    hide Step, Run, Orderly, StoreInv, Orphaned, Orphan, Orphaning, L.Without, Wrap;
    var t := Run(c, s, puts);
    OrphanMade(c, t, h, loaded);
    RunConcat(c, s, puts, Orphaning(h, loaded));
    var u := Run(c, s, puts + Orphaning(h, loaded));
    OrphanRemoved(c, u, h);
    RunMore(c, s, puts + Orphaning(h, loaded), Remove(h, false));
    AloneGone(t.cached, h, Cell(t.blocks[h], Detached(t.index[h])));
  }

  lemma AloneGone(cached: seq<(Digest, Cell)>, h: Digest, cell: Cell)
    requires |cached| <= 1 && L.Find(cached, h).None?
    ensures L.Without(L.Admitted(cached, h, cell, 1), {h}) == []
  {
    assert L.Admitted(cached, h, cell, 1) == [(h, cell)];
    assert [(h, cell)][..0] == [] && L.Without([(h, cell)][..0], {h}) == [];
  }

  /** There is nothing in the store, and yet no room. */
  predicate Locked(c: Settings, s: Store)
  {
    s.index == map[] && s.cached == [] && s.pending == [] && s.limit > 0 && Wrap(s.bytes + c.pool.blockSize) > s.limit
  }

  /** Two blocks that are counted out twice each lock a store with a limit: there is
      nothing in it and every put of a block is refused. */
  lemma {:induction false} StoreLocks(c: Settings, limit: U64, h: Digest, k: Digest, a: Block, b: Block, loaded: bool)
    requires Workable(c) && c.lruSize == 1 && h != k && |a| == |b| == c.pool.blockSize > 0
    requires c.hash(a) == h && c.hash(b) == k && 2 * c.pool.blockSize <= limit < TWO_TO_64 - c.pool.blockSize
    ensures var msgs := [Put(h, a, 0, false), Put(k, b, 0, false)] + Orphaning(h, loaded) + [Remove(h, false)]
                        + Orphaning(k, loaded) + [Remove(k, false)];
            Orderly(c, Empty(c, limit), msgs) && Locked(c, Run(c, Empty(c, limit), msgs))
  {
    hide Step, Run, Orderly, StoreInv, Allowed, Orphaned, Orphan, Orphaning, L.Without, Wrap;
    var s, puts := Empty(c, limit), [Put(h, a, 0, false), Put(k, b, 0, false)];
    TwoPuts(c, limit, h, k, a, b);
    CountedOut(c, s, puts, h, loaded);
    var more := puts + Orphaning(h, loaded) + [Remove(h, false)];
    CountedOut(c, s, more, k, loaded);
    var r := Run(c, s, more + Orphaning(k, loaded) + [Remove(k, false)]);
    assert r.index.Keys == {};
    assert r.index == map[];
    TwoBehind(c, r);
  }

  lemma TwoBehind(c: Settings, r: Store)
    requires StoreInv(c, r) && r.index == map[] && r.lag == 2
    requires 0 < 2 * c.pool.blockSize <= r.limit < TWO_TO_64 - c.pool.blockSize
    ensures Wrap(r.bytes + c.pool.blockSize) > r.limit
  {
    hide Kept, Receipted;
    assert |r.index| == 0;
  }

  /** It stays so until the limit is set again. */
  lemma {:induction false} LockedRun(c: Settings, s: Store, msgs: seq<Msg>)
    requires Orderly(c, s, msgs) && Locked(c, s)
    requires forall i | 0 <= i < |msgs| :: !msgs[i].Resize?
    ensures Locked(c, Run(c, s, msgs))
  {
    hide Step, StoreInv, Allowed, Locked;
    if msgs != [] {
      var before := msgs[..|msgs| - 1];
      LockedRun(c, s, before);
      LockedStays(c, Run(c, s, before), msgs[|msgs| - 1]);
    }
  }

  lemma {:induction false} LockedStays(c: Settings, s: Store, m: Msg)
    requires StoreInv(c, s) && Locked(c, s) && !m.Resize?
    ensures Ready(c, s) && Locked(c, Step(c, s, m))
  {
    hide Placed, Tidy, Counted, Receipted, S.Inv, Record, Updated, Deleted, AfterReadResult, AfterFetch, Ended, Swept;
    hide Wrap, Defragmented, AllMoves;
    match m
    case GroupEnd(g, abort) => LockedEnd(c, s, g, abort);
    case Gc(keep, force) => LockedSweep(c, s, keep, force);
    case Fetch(loaded) => LockedRead(c, s, loaded);
    case ReadResult => LockedRead(c, s, false);
    case Defragment(_, _) =>
      assert Rewritten(map[], AllMoves(c.pool, s.shelf, m.ids, m.threshold)) == map[];
    case Remove(h, _) => NoRecord(s, h);
    case Acquire(h) => NoRecord(s, h);
    case Release(h) => NoRecord(s, h);
    case Clear(h) => NoRecord(s, h);
    case Pin(h) => NoRecord(s, h);
    case Unpin(h) => NoRecord(s, h);
    case _ =>
  }

  lemma NoRecord(s: Store, h: Digest)
    requires s.index == map[] && s.cached == []
    ensures Record(s, h).None?
  {
  }

  lemma LockedEnd(c: Settings, s: Store, g: nat, abort: bool)
    requires Locked(c, s)
    ensures Locked(c, Ended(c, s, g, abort))
  {
    hide FindGroup, Dropped, Wrap;
    var gone := Indexed(s.index, Listed(s.receipts, g));
    assert Unpinned(s.index, gone) == map[];
    NothingDropped(c, s, gone);
  }

  lemma LockedSweep(c: Settings, s: Store, keep: set<Digest>, force: bool)
    requires Locked(c, s)
    ensures Locked(c, Swept(c, s, keep, force))
  {
    hide Dropped, Wrap;
    NothingDropped(c, s, Doomed(s.index, keep, force));
  }

  lemma LockedRead(c: Settings, s: Store, loaded: bool)
    requires Locked(c, s)
    ensures Locked(c, AfterFetch(c, s, loaded)) && Locked(c, AfterReadResult(c, s))
  {
    hide ReadAt, Touched, Wrap;
    if s.answers != [] {
      var spot := s.answers[0].spot;
      assert WaitingAt([], s.index, spot) == [] == WaitingElsewhere([], s.index, spot);
    }
  }

  lemma NothingDropped(c: Settings, s: Store, gone: set<Digest>)
    requires s.index == map[] && gone <= s.index.Keys && s.cached == [] && s.pending == []
    ensures gone == {} && Dropped(c, s, gone) == s
  {
    assert Bytes(0, c.pool.blockSize) == 0;
    assert Detach([], map[], {}) == [];
  }

  // ---- aborted puts ----

  /** Aborting a put: of the indexed blocks exactly those on its receipt go, the others
      keep their records, and at its first end no block the put stored is left. */
  lemma {:induction false} AbortExact(c: Settings, s: Store, g: nat)
    requires StoreInv(c, s) && c.deleteOnAbort
    ensures var s' := Step(c, s, GroupEnd(g, true));
            && s'.index == (map h | h in s.index && h !in Listed(s.receipts, g) :: s.index[h])
            && (forall h | h in s'.index :: h in s'.creator)
            && (g != 0 && g !in s.ends ==> forall h | h in s'.index :: s'.creator[h] != g)
  {
    hide Ring, Open, DroppedAll, S.Inv, FindGroup, Listed, Placed, Tidy, Counted;
    DroppedAllIndex(c, s, Listed(s.receipts, g));
    DroppedAllRest(c, s, Listed(s.receipts, g));
    ListedAt(s.receipts, g);
  }

  /** The message stores a new block under a group. */
  predicate Stores(c: Settings, s: Store, m: Msg, h: Digest, g: nat)
    requires StoreInv(c, s)
  {
    m.Put? && m.h == h && m.group == g && h !in s.index && !Refused(c, s, g) && |m.data| == c.pool.blockSize
  }

  /** The hash was stored under the group, which has not ended since. */
  predicate Owed(c: Settings, s: Store, msgs: seq<Msg>, g: nat, h: Digest)
    requires Orderly(c, s, msgs)
  {
    if msgs == [] then false
    else
      var before, m := msgs[..|msgs| - 1], msgs[|msgs| - 1];
      if m.GroupEnd? && m.group == g then false
      else Stores(c, Run(c, s, before), m, h, g) || Owed(c, s, before, g, h)
  }

  /** It was, and then, after it was removed, stored by another, and not by the group
      again. */
  predicate TakenOver(c: Settings, s: Store, msgs: seq<Msg>, g: nat, h: Digest)
    requires Orderly(c, s, msgs)
  {
    if msgs == [] then false
    else
      var before, m := msgs[..|msgs| - 1], msgs[|msgs| - 1];
      if m.GroupEnd? && m.group == g then false
      else if m.Put? && Stores(c, Run(c, s, before), m, h, m.group) then m.group != g && Owed(c, s, before, g, h)
      else TakenOver(c, s, before, g, h)
  }

  /** What a message does to the receipt of a group and to who stored a hash last. */
  lemma {:induction false} StepOwed(c: Settings, s: Store, m: Msg, g: nat, h: Digest)
    requires StoreInv(c, s) && g != 0
    ensures var s' := Step(c, s, m);
            && (h in Listed(s'.receipts, g) <==>
                !(m.GroupEnd? && m.group == g) && (h in Listed(s.receipts, g) || Stores(c, s, m, h, g)))
            && (if m.Put? && Stores(c, s, m, h, m.group) then h in s'.creator && s'.creator[h] == m.group
                else (h in s'.creator <==> h in s.creator) && (h in s.creator ==> s'.creator[h] == s.creator[h]))
  {
    hide S.Inv, Placed, Tidy, Counted, Removed, Released, Ended, Updated, Record, AfterGet, AfterGetLater, AfterFetch;
    hide AfterReadResult, Resized, Swept, AfterPut, AllMoves, Defragmented, Unreceipted, Receipted, Listed;
    match m
    case Put(k, data, group, claim) => PutOwed(c, s, k, data, group, claim, g, h);
    case GroupEnd(group, abort) => EndOwed(c, s, group, abort, g, h);
    case _ => StillOwed(c, s, m);
  }

  lemma {:induction false} PutOwed(c: Settings, s: Store, k: Digest, data: Block, group: nat, claim: bool, g: nat,
                                   h: Digest)
    requires StoreInv(c, s) && g != 0
    ensures var s', m := AfterPut(c, s, k, data, group, claim), Put(k, data, group, claim);
            && (h in Listed(s'.receipts, g) <==> h in Listed(s.receipts, g) || Stores(c, s, m, h, g))
            && (if Stores(c, s, m, h, m.group) then h in s'.creator && s'.creator[h] == m.group
                else (h in s'.creator <==> h in s.creator) && (h in s.creator ==> s'.creator[h] == s.creator[h]))
  {
    hide S.Inv, S.Store, L.Admitted, Recorded, Ring, Complete, Listed, Placed, Tidy, Counted;
    if Stores(c, s, Put(k, data, group, claim), k, group) {
      RecordedListed(s.receipts, s.ended, group, k, g);
    }
  }

  lemma {:induction false} EndOwed(c: Settings, s: Store, group: nat, abort: bool, g: nat, h: Digest)
    requires StoreInv(c, s)
    ensures var s' := Ended(c, s, group, abort);
            && s'.creator == s.creator
            && Listed(s'.receipts, g) == if group == g then [] else Listed(s.receipts, g)
  {
    hide Ring, DroppedAll, FindGroup, Open, L.Drop, Complete, Kept, Counted;
    match FindGroup(s.receipts, group) {
      case Some(i) =>
        ListedAt(s.receipts, group);
        DroppedAllRest(c, s, s.receipts[i].hashes);
        DroppedListed(s.receipts, s.ended, i, g);
        if group == g {
          NoGroup(L.Drop(s.receipts, i), g);
        }
      case None =>
        Listless(s.receipts, group);
    }
  }

  lemma NoGroup(receipts: seq<Receipt>, g: nat)
    requires forall k | 0 <= k < |receipts| :: receipts[k].group != g
    ensures FindGroup(receipts, g).None?
  {
  }

  lemma {:induction false} StillOwed(c: Settings, s: Store, m: Msg)
    requires StoreInv(c, s) && !m.Put? && !m.GroupEnd?
    ensures Step(c, s, m).receipts == s.receipts && Step(c, s, m).creator == s.creator
  {
    hide S.Inv, Placed, Tidy, Counted, Removed, Released, Ended, Updated, Record, AfterGet, AfterGetLater, AfterFetch;
    hide AfterReadResult, Resized, Swept, AfterPut, AllMoves, Defragmented, Receipted;
    match m
    case Remove(h, force) => RecordUnreceipted(c, s, h, force);
    case Release(h) => RecordUnreceipted(c, s, h, false);
    case Get(h, loaded) => GetUnreceipted(c, s, h, loaded);
    case GetLater(h) => GetUnreceipted(c, s, h, false);
    case Fetch(loaded) => FetchUnreceipted(c, s, loaded);
    case ReadResult => ResultUnreceipted(c, s);
    case Resize(limit) => SweptUnreceipted(c, s, {}, false, limit);
    case Gc(keep, force) => SweptUnreceipted(c, s, keep, force, 0);
    case Defragment(ids, threshold) => RewrittenUnreceipted(c, s, ids, threshold);
    case Acquire(h) => UpdatedOwed(s, h);
    case Clear(h) => UpdatedOwed(s, h);
    case Pin(h) => UpdatedOwed(s, h);
    case Unpin(h) => UpdatedOwed(s, h);
  }

  lemma UpdatedOwed(s: Store, h: Digest)
    ensures forall r :: Updated(s, h, r).receipts == s.receipts && Updated(s, h, r).creator == s.creator
  {
    hide L.Find;
  }

  lemma {:induction false} RunOwed(c: Settings, s: Store, msgs: seq<Msg>, g: nat, h: Digest)
    requires Orderly(c, s, msgs) && s.receipts == [] && g != 0
    ensures var r := Run(c, s, msgs);
            && (h in Listed(r.receipts, g) <==> Owed(c, s, msgs, g, h))
            && (Owed(c, s, msgs, g, h) ==> h in r.creator && (TakenOver(c, s, msgs, g, h) <==> r.creator[h] != g))
  {
    hide Step, StoreInv, Stores, Allowed, Listed;
    if msgs == [] {
      Unlisted(g);
    } else {
      var before, m := msgs[..|msgs| - 1], msgs[|msgs| - 1];
      RunOwed(c, s, before, g, h);
      StepOwed(c, Run(c, s, before), m, g, h);
      if Stores(c, Run(c, s, before), m, h, g) {
        OneGroup(c, Run(c, s, before), m, h, g);
      }
    }
  }

  lemma Unlisted(g: nat)
    ensures Listed([], g) == []
  {
  }

  lemma OneGroup(c: Settings, s: Store, m: Msg, h: Digest, g: nat)
    requires StoreInv(c, s) && Stores(c, s, m, h, g)
    ensures m.Put? && m.group == g
  {
  }

  /** After any run the abort of a put deletes its own blocks only, if and only if no block
      of another is in the index under a hash that the put had stored before. */
  lemma {:induction false} AbortOwn(c: Settings, s: Store, msgs: seq<Msg>, g: nat)
    requires Orderly(c, s, msgs) && s.receipts == [] && c.deleteOnAbort && g != 0
    ensures var r := Run(c, s, msgs);
            && (forall h | h in r.index :: h in r.creator)
            && var r' := Step(c, r, GroupEnd(g, true));
               (forall h | h in r.index && h !in r'.index :: r.creator[h] == g) <==>
               (forall h | h in r.index :: !TakenOver(c, s, msgs, g, h))
  {
    hide Step, Run, Listed, Kept, Counted, Ring, Open, Orderly, Owed, TakenOver;
    var r := Run(c, s, msgs);
    AbortExact(c, r, g);
    forall h | h in r.index
      ensures h in Listed(r.receipts, g) && r.creator[h] != g <==> TakenOver(c, s, msgs, g, h)
    {
      RunOwed(c, s, msgs, g, h);
      if TakenOver(c, s, msgs, g, h) {
        TakenIsOwed(c, s, msgs, g, h);
      }
    }
  }

  lemma {:induction false} TakenIsOwed(c: Settings, s: Store, msgs: seq<Msg>, g: nat, h: Digest)
    requires Orderly(c, s, msgs) && TakenOver(c, s, msgs, g, h)
    ensures Owed(c, s, msgs, g, h)
  {
    hide Step, StoreInv, Stores, Allowed;
    var before := msgs[..|msgs| - 1];
    if TakenOver(c, s, before, g, h) {
      TakenIsOwed(c, s, before, g, h);
    }
  }

  /** A put under a group by a new store, or of a hash that was removed. */
  lemma {:induction false} GroupPut(c: Settings, s: Store, h: Digest, data: Block, group: nat)
    requires StoreInv(c, s) && h !in s.index && !Refused(c, s, group) && |data| == c.pool.blockSize
    ensures var r := Step(c, s, Put(h, data, group, false));
            && h in r.index && r.index[h].claims == 0 && r.index[h].pins == 0
            && r.receipts == Recorded(s.receipts, group, h) && r.creator == s.creator[h := group]
            && r.limit == s.limit && r.ended == s.ended && r.ends == s.ends
            && (L.Find(s.cached, h).None? ==> Allowed(c, s, Put(h, data, group, false)) && !Orphaned(r.cached, h))
  {
    hide Placed, Counted, Receipted, SoundAll, RoomyBut, L.Admitted, S.Store, Recorded, L.Find;
    if L.Find(s.cached, h).None? {
      L.AdmittedKeeps(s.cached, h, Cell(data, Live), c.lruSize);
    }
  }

  lemma {:induction false} PlainRemove(c: Settings, s: Store, h: Digest)
    requires StoreInv(c, s) && h in s.index && s.index[h].claims == 0 && s.index[h].pins == 0 && !Orphaned(s.cached, h)
    ensures Allowed(c, s, Remove(h, false))
    ensures var r := Step(c, s, Remove(h, false));
            && h !in r.index && r.receipts == s.receipts && r.creator == s.creator && r.limit == s.limit
            && r.ended == s.ended && r.ends == s.ends && L.Find(r.cached, h).None?
  {
    hide Placed, Counted, Receipted, S.Inv, L.Find, L.Without, L.Unique, L.Deleted, L.Put;
    L.WithoutOne(s.cached, h);
    L.KeepsUnique(s.cached, h, Cell([], Live), c.lruSize);
  }

  /** A block that one put stored, that was removed and that another put stored again is
      deleted by the abort of the first. */
  lemma {:induction false} AbortDeletesOthers(c: Settings, h: Digest, data: Block, g: nat, k: nat)
    requires Workable(c) && c.deleteOnAbort && |data| == c.pool.blockSize && g != 0 && k != 0 && g != k
    ensures var msgs := [Put(h, data, g, false), Remove(h, false), Put(h, data, k, false)];
            && Orderly(c, Empty(c, 0), msgs)
            && var s := Run(c, Empty(c, 0), msgs);
               && h in s.index && h in s.creator && s.creator[h] == k && k !in s.ends
               && h !in Step(c, s, GroupEnd(g, true)).index
  {
    hide Run, Orderly, Step, StoreInv, Recorded, Orphaned, Allowed;
    EmptyInv(c, 0);
    var s := Empty(c, 0);
    var m1: seq<Msg> := [] + [Put(h, data, g, false)];
    RunNone(c, s);
    GroupPut(c, s, h, data, g);
    RunMore(c, s, [], Put(h, data, g, false));
    var m2 := m1 + [Remove(h, false)];
    PlainRemove(c, Run(c, s, m1), h);
    RunMore(c, s, m1, Remove(h, false));
    var m3 := m2 + [Put(h, data, k, false)];
    GroupPut(c, Run(c, s, m2), h, data, k);
    RunMore(c, s, m2, Put(h, data, k, false));
    assert m3 == [Put(h, data, g, false), Remove(h, false), Put(h, data, k, false)];
    AbortExact(c, Run(c, s, m3), g);
    RecordedListed([], [], g, h, g);
    assert Open([], []) && Open(Recorded([], g, h), []);
    RecordedListed(Recorded([], g, h), [], k, h, g);
  }

  /** A group that was ended is refused new blocks until 1024 further groups end. */
  lemma {:induction false} StragglersRefused(c: Settings, s: Store, before: seq<nat>, g: nat, after: seq<nat>,
                                             h: Digest, data: Block, claim: bool)
    requires StoreInv(c, s) && s.ends == before + [g] + after && |after| < TOMBSTONES
    requires g != 0 && h !in s.index
    ensures Step(c, s, Put(h, data, g, claim)) == s
  {
    hide S.Inv, Ring, Open, Complete, Placed, Tidy, Counted;
    RingIsRecent(s.ended, s.next, s.ends, g);
    var recent := Recent(s.ends);
    assert recent[|recent| - 1 - |after|] == g;
  }

  // ---- claims, pins and removal ----

  /** A put leaves the block in the index if and only if it was there or the put was not
      refused and had the size of a block; no other entry changes. */
  lemma {:induction false} PutExact(c: Settings, s: Store, h: Digest, data: Block, group: nat, claim: bool)
    requires StoreInv(c, s)
    ensures var r := Step(c, s, Put(h, data, group, claim));
            && (h in r.index <==> h in s.index || (!Refused(c, s, group) && |data| == c.pool.blockSize))
            && (forall k | k != h :: k in r.index <==> k in s.index)
            && (forall k | k != h && k in r.index :: r.index[k] == s.index[k])
            && (h in r.index && h !in s.index ==> h in r.blocks && r.blocks[h] == data)
  {
    hide Placed, Tidy, Counted, Receipted, SoundAll, RoomyBut, L.Admitted, S.Store, Recorded;
  }

  /** Releasing undoes an acquire, except that giving up the only claim deletes the
      block, whatever its pins. */
  lemma {:induction false} ReleaseUndoesAcquire(c: Settings, s: Store, h: Digest)
    requires StoreInv(c, s) && Record(s, h).Some? && Record(s, h).value.claims < MAX_CLAIMS
    ensures StoreInv(c, Step(c, s, Acquire(h)))
    ensures var r := Step(c, Step(c, s, Acquire(h)), Release(h));
            if Record(s, h).value.claims > 0 then r == s else r.index == s.index - {h}
  {
    hide Step, StoreInv, Released;
    StepKeepsInv(c, s, Acquire(h));
    AcquireStep(c, s, h);
    var q := Record(s, h).value;
    var s1 := Updated(s, h, q.(claims := q.claims + 1));
    UpdatedTwice(s, h, q.(claims := q.claims + 1), q);
    ReleaseStep(c, s1, h);
  }

  lemma AcquireStep(c: Settings, s: Store, h: Digest)
    requires StoreInv(c, s) && Record(s, h).Some? && Record(s, h).value.claims < MAX_CLAIMS
    ensures Ready(c, s)
    ensures var q := Record(s, h).value; Step(c, s, Acquire(h)) == Updated(s, h, q.(claims := q.claims + 1))
  {
    hide Placed, Tidy, Counted, Receipted, S.Inv, Updated, Record;
  }

  lemma ReleaseStep(c: Settings, s: Store, h: Digest)
    requires StoreInv(c, s) && Record(s, h).Some? && Record(s, h).value.claims > 0
    ensures Ready(c, s)
    ensures var q := Record(s, h).value;
            var t := Updated(s, h, q.(claims := q.claims - 1));
            if q.claims > 1 then Step(c, s, Release(h)) == t else Step(c, s, Release(h)).index == t.index - {h}
  {
    hide Placed, Tidy, Counted, Receipted, S.Inv, Updated, Record, L.Without;
  }

  /** A record that is changed is found changed, and can be changed back. */
  lemma {:induction false} UpdatedTwice(s: Store, h: Digest, r: Rec, q: Rec)
    requires Record(s, h) == Some(q)
    ensures Record(Updated(s, h, r), h) == Some(r)
    ensures Updated(Updated(s, h, r), h, q) == s
  {
    hide L.Find;
    if Orphaned(s.cached, h) {
      var i, cached := L.Find(s.cached, h).value, Reheld(s.cached, h, r);
      SameFind(s.cached, cached, h);
      assert cached[i := s.cached[i]] == s.cached;
    } else {
      assert s.index[h := r][h := q] == s.index;
    }
  }

  lemma {:induction false} SameFind(a: seq<(Digest, Cell)>, b: seq<(Digest, Cell)>, h: Digest)
    requires |a| == |b| && forall i | 0 <= i < |a| :: a[i].0 == b[i].0
    ensures L.Find(a, h) == L.Find(b, h)
  {
    if a != [] {
      SameFind(a[..|a| - 1], b[..|b| - 1], h);
    }
  }

  /** A removal takes out that one block, unless the record it finds, that of the cache
      before that of the index, is claimed or pinned and the removal is not forced;
      everything else stays as it was. */
  lemma {:induction false} RemoveExact(c: Settings, s: Store, h: Digest, force: bool)
    requires StoreInv(c, s)
    ensures h in s.index ==> Record(s, h).Some?
    ensures var r := Step(c, s, Remove(h, force));
            && (h in r.index <==> h in s.index && Spared(Record(s, h).value, force))
            && (forall k | k != h :: k in r.index <==> k in s.index)
            && (forall k | k in r.index :: r.index[k] == s.index[k])
            && r.shelf == s.shelf && r.receipts == s.receipts
            && (h in s.index && h !in r.index ==> forall i | 0 <= i < |r.cached| :: r.cached[i].0 != h)
            && (forall i | 0 <= i < |s.cached| && s.cached[i].0 != h :: s.cached[i] in r.cached)
  {
    hide Placed, Tidy, Counted, Receipted, S.Inv, L.Find, L.Without;
    RemoveCached(c, s, h, force);
  }

  lemma {:induction false} RemoveCached(c: Settings, s: Store, h: Digest, force: bool)
    ensures var r := Removed(c, s, h, force);
            && (h in s.index && h !in r.index ==> forall i | 0 <= i < |r.cached| :: r.cached[i].0 != h)
            && (forall i | 0 <= i < |s.cached| && s.cached[i].0 != h :: s.cached[i] in r.cached)
  {
    hide Orphan, L.Find, L.Without;
    match Record(s, h)
    case None =>
    case Some(q) =>
      if !Spared(q, force) {
        var t := if q.pins > 0 then Updated(s, h, q.(pins := 0)) else s;
        L.WithoutIs(t.cached, {h});
        var r := Removed(c, s, h, force);
        assert r.cached == L.Without(t.cached, {h});
        forall i | 0 <= i < |s.cached| && s.cached[i].0 != h
          ensures s.cached[i] in r.cached
        {
          assert t.cached[i] == s.cached[i];
        }
        forall i | 0 <= i < |r.cached|
          ensures r.cached[i].0 != h
        {
          assert r.cached[i] in r.cached;
        }
      }
  }

  /** A claimed or pinned block survives a removal that is not forced, if and only if
      the cache has no detached record of it or that one is claimed or pinned too. */
  lemma {:induction false} ClaimProtects(c: Settings, s: Store, h: Digest)
    requires StoreInv(c, s) && h in s.index && Spared(s.index[h], false)
    ensures h in Step(c, s, Remove(h, false)).index <==>
            !Orphaned(s.cached, h) || Spared(Orphan(s.cached, h), false)
  {
    hide Step, StoreInv, Orphaned, Orphan;
    RemoveExact(c, s, h, false);
  }

  /** A put of a hash whose block was left in the cache makes a new entry, but the cache
      keeps the detached record, and messages about the hash go on finding that one. */
  lemma {:induction false} OrphanShadows(c: Settings, s: Store, h: Digest, data: Block)
    requires StoreInv(c, s) && h !in s.index && s.limit == 0 && |data| == c.pool.blockSize && Orphaned(s.cached, h)
    requires !L.Reused(s.cached, h, c.lruSize)
    ensures Allowed(c, s, Put(h, data, 0, true))
    ensures var r := Step(c, s, Put(h, data, 0, true));
            && h in r.index && r.index[h].claims == 1
            && Orphaned(r.cached, h) && Orphan(r.cached, h) == Orphan(s.cached, h)
  {
    hide Placed, Counted, Receipted, SoundAll, RoomyBut, L.Admitted, S.Store, Recorded, L.Find, L.Unique;
    L.AdmittedKeeps(s.cached, h, Cell(data, Live), c.lruSize);
  }

  /** A new store that caches two blocks: three puts, the removal of the first block
      while a get waits for it, and a put of it again with a claim.  Then the claimed
      block is removed without force. */
  lemma {:induction false} ClaimedBlockRemoved(c: Settings, h: Digest, k: Digest, j: Digest, a: Block, loaded: bool)
    requires Workable(c) && c.lruSize == 2 && h != k && k != j && h != j && |a| == c.pool.blockSize && c.hash(a) == h
    ensures var msgs := [Put(h, a, 0, false), Put(k, a, 0, false), Put(j, a, 0, false)]
                        + Orphaning(h, loaded) + [Put(h, a, 0, true)];
            && Orderly(c, Empty(c, 0), msgs)
            && var s := Run(c, Empty(c, 0), msgs);
               h in s.index && s.index[h].claims == 1 && h !in Step(c, s, Remove(h, false)).index
  {
    hide Step, Run, Orderly, StoreInv, Allowed, Orphaned, Orphan, Orphaning;
    var s := Empty(c, 0);
    var puts := ThreePuts(c, h, k, j, a);
    OrphanMade(c, Run(c, s, puts), h, loaded);
    RunConcat(c, s, puts, Orphaning(h, loaded));
    var t := Run(c, s, puts + Orphaning(h, loaded));
    ThreeCached(h, k, j, Cell(a, Live), Cell(a, Detached(Run(c, s, puts).index[h])));
    OrphanShadows(c, t, h, a);
    RunMore(c, s, puts + Orphaning(h, loaded), Put(h, a, 0, true));
    ClaimProtects(c, Run(c, s, puts + Orphaning(h, loaded) + [Put(h, a, 0, true)]), h);
  }

  lemma {:induction false} ThreePuts(c: Settings, h: Digest, k: Digest, j: Digest, a: Block) returns (puts: seq<Msg>)
    requires Workable(c) && c.lruSize == 2 && h != k && k != j && h != j && |a| == c.pool.blockSize
    ensures puts == [Put(h, a, 0, false), Put(k, a, 0, false), Put(j, a, 0, false)]
    ensures Orderly(c, Empty(c, 0), puts)
    ensures var s := Run(c, Empty(c, 0), puts);
            && h in s.index && s.index[h].claims == 0 && s.index[h].pins == 0 && Idle(s) && s.limit == 0
            && s.cached == [(j, Cell(a, Live)), (k, Cell(a, Live))] && h in s.blocks && s.blocks[h] == a
            && L.Find(s.cached, h).None?
  {
    hide Step, Run, Orderly, StoreInv, Allowed;
    EmptyInv(c, 0);
    var s := Empty(c, 0);
    ThreeCached(h, k, j, Cell(a, Live), Cell(a, Live));
    var one: seq<Msg> := [] + [Put(h, a, 0, false)];
    var two := one + [Put(k, a, 0, false)];
    RunNone(c, s);
    PutEnters(c, s, h, a);
    RunMore(c, s, [], Put(h, a, 0, false));
    PutEnters(c, Run(c, s, one), k, a);
    RunMore(c, s, one, Put(k, a, 0, false));
    PutEnters(c, Run(c, s, two), j, a);
    RunMore(c, s, two, Put(j, a, 0, false));
    puts := two + [Put(j, a, 0, false)];
  }

  lemma ThreeCached(h: Digest, k: Digest, j: Digest, cell: Cell, d: Cell)
    requires h != k && k != j && h != j
    ensures L.Admitted([], h, cell, 2) == [(h, cell)]
    ensures L.Admitted([(h, cell)], k, cell, 2) == [(k, cell), (h, cell)]
    ensures L.Admitted([(k, cell), (h, cell)], j, cell, 2) == [(j, cell), (k, cell)]
    ensures L.Find([(h, cell)], k).None? && L.Find([(k, cell), (h, cell)], j).None?
    ensures L.Find([(j, cell), (k, cell)], h).None?
    ensures var t := L.Admitted([(j, cell), (k, cell)], h, d, 2); L.Find(t, h) == Some(0) && |t| == 2
  {
    assert L.Admitted([(j, cell), (k, cell)], h, d, 2) == [(h, d), (j, cell)];
  }
}
