/**
 What a get is answered, at once or after a read of the pool.  A deletion never frees
 its slot, so no defragmentation ever moves a block, and a read that is on its way finds
 what it was asked for.
 */
module BlockGets {
  import opened Entries
  import opened Section
  import opened Shelf
  import opened BlockStore
  import S = Shelf
  import F = FreeMap
  import L = Lru
  import R = Robin
  import B = BlockRuns

  // ---- no section has a gap ----

  predicate Packed(used: seq<bool>)
  {
    used == F.Front(F.Count(used), |used|)
  }

  predicate AllPacked(s: Shelf)
  {
    forall id | id in s.sections :: Packed(s.sections[id].used)
  }

  lemma {:induction false} PackedStays(used: seq<bool>)
    requires Packed(used)
    ensures !Compactable(used)
  {
    hide F.Count, F.Front, F.Extent;
    F.NoGap(used);
  }

  /** A write fills the first gap, so there is none before it. */
  lemma {:induction false} WrittenPacked(slots: Slots, data: Block)
    requires Sound(slots) && Packed(slots.used) && !Full(slots)
    ensures Packed(Written(slots, data).used)
  {
    hide F.Count;
    var n, used := F.Count(slots.used), slots.used;
    assert F.Front(n, |used|)[F.FirstFree(used).value] == (F.FirstFree(used).value < n);
    F.FirstFreeIs(used, n);
    assert used[n := true] == F.Front(n + 1, |used|);
    F.CountFront(n + 1, |used|);
  }

  lemma {:induction false} FreshPacked(size: nat)
    ensures Packed(F.Front(0, size))
  {
    F.CountFront(0, size);
  }

  lemma {:induction false} StoredPacked(c: Config, s: Shelf, data: Block)
    requires S.Inv(c, s) && c.size > 0 && c.floor > 0 && AllPacked(s)
    ensures AllPacked(S.Store(c, s, data).0)
  {
    hide Packed, Written, Retired, F.Front, SoundAll;
    var id := s.robin[0];
    AtSound(c, s, id);
    FreshPacked(c.size);
    WrittenPacked(At(c, s, id), data);
  }

  /** So a defragmentation moves nothing. */
  lemma {:induction false} PackedUnmoved(c: Config, s: Shelf, ids: seq<Id>, threshold: real)
    requires SoundAll(c, s) && AllPacked(s)
    ensures Defragmented(c, s, ids, threshold) == s && AllMoves(c, s, ids, threshold) == []
  {
    hide Sparse, Packed, Compactable, SoundAll, F.Relocation, MovesOf;
    if ids != [] {
      var id := ids[|ids| - 1];
      PackedUnmoved(c, s, ids[..|ids| - 1], threshold);
      if id in s.sections {
        PackedStays(s.sections[id].used);
        AtSound(c, s, id);
        assert s.sections[id := s.sections[id]] == s.sections;
      }
    }
  }

  lemma RewrittenNothing(index: map<Digest, Rec>)
    ensures Rewritten(index, []) == index
  {
  }

  // ---- reads on their way ----

  /** The spot is in use, so that nothing writes over it, and holds a block. */
  predicate Solid(c: Config, shelf: Shelf, spot: Spot)
  {
    var used := At(c, shelf, spot.id).used;
    spot.slot < |used| && used[spot.slot] && ReadAt(c, shelf, spot).Some?
  }

  predicate Holds(c: Settings, shelf: Shelf, spot: Spot, h: Digest)
  {
    Solid(c.pool, shelf, spot) && c.hash(ReadAt(c.pool, shelf, spot).value) == h
  }

  predicate InFlight(asked: seq<Spot>, answers: seq<Result>, spot: Spot)
  {
    spot in asked || exists i | 0 <= i < |answers| :: answers[i].spot == spot
  }

  /** The get waits for a spot that holds its block and that is being read. */
  predicate Expected(c: Settings, shelf: Shelf, index: map<Digest, Rec>, asked: seq<Spot>, answers: seq<Result>,
                     w: Wait)
  {
    var at := Where(index, w.h, w.held);
    at.Some? && Holds(c, shelf, at.value, w.h) && InFlight(asked, answers, at.value)
  }

  predicate Awaited(c: Settings, shelf: Shelf, index: map<Digest, Rec>, pending: seq<Wait>, asked: seq<Spot>,
                    answers: seq<Result>)
  {
    && (forall w | w in pending :: Expected(c, shelf, index, asked, answers, w))
    && (forall p | p in asked :: Solid(c.pool, shelf, p))
    && (forall r | r in answers :: Solid(c.pool, shelf, r.spot) && r.data == ReadAt(c.pool, shelf, r.spot))
  }

  /** Every indexed and every cached block has the hash it goes by. */
  predicate Hashed(c: Settings, index: map<Digest, Rec>, blocks: map<Digest, Block>, cached: seq<(Digest, Cell)>)
  {
    && (forall h | h in index :: h in blocks && c.hash(blocks[h]) == h)
    && (forall e | e in cached :: c.hash(e.1.block) == e.0)
  }

  /** A get of an indexed hash was answered with a block of that hash, and no other. */
  predicate Truthful(c: Settings, replies: seq<Reply>)
  {
    forall r | r in replies :: (r.existed <==> r.block.Some?) && (r.block.Some? ==> c.hash(r.block.value) == r.h)
  }

  predicate Faithful(c: Settings, s: Store)
  {
    && AllPacked(s.shelf)
    && Hashed(c, s.index, s.blocks, s.cached)
    && Awaited(c, s.shelf, s.index, s.pending, s.asked, s.answers)
    && Truthful(c, s.replies)
  }

  /** Blocks are put under their hashes. */
  predicate Honest(c: Settings, m: Msg)
  {
    m.Put? ==> m.h == c.hash(m.data)
  }

  // ---- what keeps the reads ----

  lemma SameSections(c: Settings, s: Shelf, t: Shelf, spot: Spot)
    requires s.sections == t.sections
    ensures ReadAt(c.pool, s, spot) == ReadAt(c.pool, t, spot)
    ensures Solid(c.pool, s, spot) == Solid(c.pool, t, spot)
  {
  }

  /** Other waits in the same order, each for the hash and the spot of the old one. */
  predicate SameWaits(index: map<Digest, Rec>, pending: seq<Wait>, index': map<Digest, Rec>, pending': seq<Wait>)
  {
    && |pending'| == |pending|
    && forall i | 0 <= i < |pending| ::
         pending'[i].h == pending[i].h &&
         Where(index', pending'[i].h, pending'[i].held) == Where(index, pending[i].h, pending[i].held)
  }

  lemma {:induction false} AwaitedSame(c: Settings, s: Store, s': Store)
    requires Awaited(c, s.shelf, s.index, s.pending, s.asked, s.answers)
    requires s'.shelf.sections == s.shelf.sections && s'.asked == s.asked && s'.answers == s.answers
    requires SameWaits(s.index, s.pending, s'.index, s'.pending)
    ensures Awaited(c, s'.shelf, s'.index, s'.pending, s'.asked, s'.answers)
  {
    hide Where, Solid, ReadAt, InFlight;
    forall spot
      ensures ReadAt(c.pool, s'.shelf, spot) == ReadAt(c.pool, s.shelf, spot)
      ensures Solid(c.pool, s'.shelf, spot) == Solid(c.pool, s.shelf, spot)
    {
      SameSections(c, s.shelf, s'.shelf, spot);
    }
    forall w | w in s'.pending
      ensures Expected(c, s'.shelf, s'.index, s'.asked, s'.answers, w)
    {
      var i :| 0 <= i < |s'.pending| && s'.pending[i] == w;
      assert s.pending[i] in s.pending;
      assert Expected(c, s.shelf, s.index, s.asked, s.answers, s.pending[i]);
    }
  }

  lemma {:induction false} DroppedWaits(index: map<Digest, Rec>, pending: seq<Wait>, gone: set<Digest>)
    requires forall w | w in pending :: w.held.Live? ==> w.h in index
    ensures SameWaits(index, pending, index - gone, Detach(pending, index, gone))
  {
    forall i | 0 <= i < |pending|
      ensures var w := Detach(pending, index, gone)[i];
              w.h == pending[i].h &&
              Where(index - gone, w.h, w.held) == Where(index, pending[i].h, pending[i].held)
    {
      assert pending[i] in pending;
    }
  }

  /** Records that stay at their places. */
  lemma {:induction false} SamePlaces(index: map<Digest, Rec>, index': map<Digest, Rec>, pending: seq<Wait>)
    requires Within(index', index) && index.Keys == index'.Keys
    ensures SameWaits(index, pending, index', pending)
  {
  }

  // ---- every message keeps the promise ----

  lemma {:induction false} DroppedFaithful(c: Settings, s: Store, gone: set<Digest>)
    requires Faithful(c, s) && Tidy(c, s) && gone <= s.index.Keys
    ensures Faithful(c, Dropped(c, s, gone))
  {
    hide L.Without, Awaited, Packed, SameWaits, Detach, L.Unique;
    L.WithoutIs(s.cached, gone);
    DroppedWaits(s.index, s.pending, gone);
    AwaitedSame(c, s, Dropped(c, s, gone));
  }

  lemma {:induction false} DeletedFaithful(c: Settings, s: Store, h: Digest)
    requires Faithful(c, s) && Tidy(c, s)
    ensures Faithful(c, Deleted(c, s, h))
  {
    hide L.Without, Awaited, Packed, Dropped, Tidy;
    if h in s.index {
      DroppedFaithful(c, s, {h});
    } else {
      L.WithoutIs(s.cached, {h});
    }
  }

  lemma {:induction false} UpdatedFaithful(c: Settings, s: Store, h: Digest, r: Rec)
    requires Faithful(c, s) && Record(s, h).Some?
    requires r.id == Record(s, h).value.id && r.slot == Record(s, h).value.slot
    ensures Faithful(c, Updated(s, h, r))
  {
    hide L.Find, Awaited, Packed, SameWaits;
    var s' := Updated(s, h, r);
    RecordPlace(s, h, r);
    SamePlaces(s.index, s'.index, s.pending);
    AwaitedSame(c, s, s');
    forall e | e in s'.cached
      ensures c.hash(e.1.block) == e.0
    {
      var j :| 0 <= j < |s'.cached| && s'.cached[j] == e;
      assert s.cached[j] in s.cached;
    }
  }

  lemma {:induction false} RecordFaithful(c: Settings, s: Store, h: Digest, force: bool)
    requires Faithful(c, s) && Tidy(c, s)
    ensures Faithful(c, Removed(c, s, h, force)) && Faithful(c, Released(c, s, h))
  {
    hide Faithful, Tidy, Updated, Deleted, Record;
    match Record(s, h) {
      case None =>
      case Some(r) =>
        UpdatedFaithful(c, s, h, r.(pins := 0));
        UpdatedTidy(c, s, h, r.(pins := 0));
        DeletedFaithful(c, Updated(s, h, r.(pins := 0)), h);
        DeletedFaithful(c, s, h);
        if r.claims > 0 {
          UpdatedFaithful(c, s, h, r.(claims := r.claims - 1));
          UpdatedTidy(c, s, h, r.(claims := r.claims - 1));
          DeletedFaithful(c, Updated(s, h, r.(claims := r.claims - 1)), h);
        }
    }
  }

  lemma {:induction false} EndFaithful(c: Settings, s: Store, g: nat, abort: bool)
    requires Faithful(c, s) && Tidy(c, s)
    ensures Faithful(c, Ended(c, s, g, abort))
  {
    hide FindGroup, Dropped, Awaited, Packed, SameWaits, L.Unique;
    var gone := Indexed(s.index, Listed(s.receipts, g));
    var s1 := s.(index := Unpinned(s.index, gone));
    assert s1.index.Keys == s.index.Keys;
    SamePlaces(s.index, s1.index, s.pending);
    AwaitedSame(c, s, s1);
    DroppedFaithful(c, s1, gone);
  }

  lemma {:induction false} SweptFaithful(c: Settings, s: Store, keep: set<Digest>, force: bool)
    requires Faithful(c, s) && Tidy(c, s)
    ensures Faithful(c, Swept(c, s, keep, force))
  {
    hide Faithful, Tidy, Dropped, Doomed;
    DroppedFaithful(c, s, Doomed(s.index, keep, force));
  }

  /** A used slot keeps its block when another one is written. */
  lemma {:induction false} StoredSolid(c: Settings, s: Shelf, data: Block, spot: Spot)
    requires S.Inv(c.pool, s) && c.pool.size > 0 && c.pool.floor > 0 && Solid(c.pool, s, spot)
    ensures var s' := S.Store(c.pool, s, data).0;
            Solid(c.pool, s', spot) && ReadAt(c.pool, s', spot) == ReadAt(c.pool, s, spot)
  {
    hide S.Store, S.Inv, At;
    WriteSucceeds(c.pool, s, data);
    StoreKnown(c.pool, s, data, spot.id);
  }

  lemma {:induction false} StoredFaithful(c: Settings, s: Store, h: Digest, data: Block, group: nat, claim: bool)
    requires Ready(c, s) && Tidy(c, s) && Faithful(c, s) && h !in s.index && h == c.hash(data)
    requires !L.Reused(s.cached, h, c.lruSize)
    ensures Faithful(c, Stored(c, s, h, data, group, claim))
  {
    hide S.Store, S.Inv, L.Admitted, Recorded, Solid, ReadAt, InFlight, Packed, L.Find, L.Unique;
    var s' := Stored(c, s, h, data, group, claim);
    StoredPacked(c.pool, s.shelf, data);
    L.AdmittedKeeps(s.cached, h, Cell(data, Live), c.lruSize);
    forall spot | Solid(c.pool, s.shelf, spot)
      ensures Solid(c.pool, s'.shelf, spot) && ReadAt(c.pool, s'.shelf, spot) == ReadAt(c.pool, s.shelf, spot)
    {
      StoredSolid(c, s.shelf, data, spot);
    }
    forall w | w in s.pending
      ensures Expected(c, s'.shelf, s'.index, s.asked, s.answers, w)
    {
      assert Where(s'.index, w.h, w.held) == Where(s.index, w.h, w.held);
      assert Expected(c, s.shelf, s.index, s.asked, s.answers, w);
    }
  }

  lemma {:induction false} PutFaithful(c: Settings, s: Store, h: Digest, data: Block, group: nat, claim: bool)
    requires Ready(c, s) && Tidy(c, s) && Faithful(c, s) && h == c.hash(data)
    requires !Dangles(c, s, Put(h, data, group, claim))
    ensures Faithful(c, AfterPut(c, s, h, data, group, claim))
  {
    hide S.Inv, Stored, Awaited, Packed, Tidy, SameWaits, L.Reused;
    var s' := AfterPut(c, s, h, data, group, claim);
    if h in s.index {
      SamePlaces(s.index, s'.index, s.pending);
      AwaitedSame(c, s, s');
    } else {
      if !L.Reused(s.cached, h, c.lruSize) {
        StoredFaithful(c, s, h, data, group, claim);
      }
      var r := s.(shelf := s.shelf.(robin := R.Rotated(s.shelf.robin)));
      SamePlaces(s.index, s.index, s.pending);
      AwaitedSame(c, s, r);
    }
  }

  /** Touching a section and caching a block of the right hash. */
  lemma {:induction false} CachedFaithful(c: Settings, s: Store, h: Digest, cell: Cell, shelf: Shelf)
    requires Faithful(c, s) && Tidy(c, s) && c.lruSize > 0 && c.hash(cell.block) == h
    requires shelf.sections == s.shelf.sections && !L.Reused(s.cached, h, c.lruSize)
    ensures Faithful(c, s.(shelf := shelf, cached := L.Admitted(s.cached, h, cell, c.lruSize)))
  {
    hide L.Admitted, L.Find, Awaited, Packed, L.Unique, L.Reused, Faithful;
    TouchedFaithful(c, s, shelf);
    hide SameWaits;
    L.AdmittedKeeps(s.cached, h, cell, c.lruSize);
    CacheFaithful(c, s.(shelf := shelf), L.Admitted(s.cached, h, cell, c.lruSize));
  }

  lemma CacheFaithful(c: Settings, s: Store, cached: seq<(Digest, Cell)>)
    requires Faithful(c, s) && forall e | e in cached :: c.hash(e.1.block) == e.0 || e in s.cached
    ensures Faithful(c, s.(cached := cached))
  {
    hide Awaited, Packed;
  }

  lemma {:induction false} TouchedFaithful(c: Settings, s: Store, shelf: Shelf)
    requires Faithful(c, s) && shelf.sections == s.shelf.sections
    ensures Faithful(c, s.(shelf := shelf))
  {
    hide Awaited, Packed, SameWaits;
    SamePlaces(s.index, s.index, s.pending);
    AwaitedSame(c, s, s.(shelf := shelf));
  }

  lemma {:induction false} RaisedFaithful(c: Settings, s: Store, h: Digest)
    requires Faithful(c, s) && Tidy(c, s)
    ensures Faithful(c, s.(cached := L.Got(s.cached, h)))
  {
    hide L.Got, L.Find, Faithful, L.Unique, L.Put, L.Deleted;
    L.OpsFrom(s.cached, h, Cell([], Live), c.lruSize);
    CacheFaithful(c, s, L.Got(s.cached, h));
  }

  lemma {:induction false} GetFaithful(c: Settings, s: Store, h: Digest, loaded: bool)
    requires Kept(c, s) && Faithful(c, s)
    ensures Faithful(c, AfterGet(c, s, h, loaded))
  {
    hide S.Inv, L.Admitted, L.Got, L.Find, Faithful, Tidy, Touched, Fetched, Placed, L.Reused;
    if h in s.index {
      var shelf := if loaded then s.shelf else Touched(c.pool, s.shelf, s.index[h].id);
      TouchedSections(c.pool, s.shelf, s.index[h].id);
      TouchedFaithful(c, s, shelf);
      RaisedFaithful(c, s, h);
      FetchedHash(c, s, h);
      if L.Find(s.cached, h).None? && Fetched(c, s, h).Some? {
        B.NotReused(s.cached, h, c.lruSize);
        CachedFaithful(c, s, h, Cell(Fetched(c, s, h).value, Live), shelf);
      }
    }
  }

  lemma TouchedSections(c: Config, s: Shelf, id: Id)
    ensures Touched(c, s, id).sections == s.sections && Touched(c, s, id).nextId == s.nextId
  {
  }

  lemma StoredHash(c: Settings, s: Store, h: Digest)
    requires Faithful(c, s) && h in s.index
    ensures h in s.blocks && c.hash(s.blocks[h]) == h
  {
  }

  lemma FetchedHash(c: Settings, s: Store, h: Digest)
    requires h in s.index
    ensures Fetched(c, s, h).Some? ==> c.hash(Fetched(c, s, h).value) == h
  {
  }

  lemma {:induction false} LaterFaithful(c: Settings, s: Store, h: Digest)
    requires Kept(c, s) && Faithful(c, s)
    ensures Faithful(c, AfterGetLater(s, h))
  {
    hide S.Inv, L.Got, L.Find, L.Admitted, Awaited, Packed, L.Unique, Placed;
    if h in s.index {
      match L.Find(s.cached, h) {
        case Some(i) =>
          assert s.cached[i] in s.cached;
          RaisedFaithful(c, s, h);
        case None =>
          StoredHash(c, s, h);
          B.StoredReads(c, s, h);
          AskedAwaited(c, s, h);
      }
    }
  }

  lemma {:induction false} AskedAwaited(c: Settings, s: Store, h: Digest)
    requires Awaited(c, s.shelf, s.index, s.pending, s.asked, s.answers)
    requires Placed(c.pool, s.shelf, s.index, s.blocks) && h in s.index && h in s.blocks && c.hash(s.blocks[h]) == h
    ensures var spot := Spot(s.index[h].id, s.index[h].slot);
            Awaited(c, s.shelf, s.index, [Wait(h, Live)] + s.pending, s.asked + [spot], s.answers)
  {
    var spot := Spot(s.index[h].id, s.index[h].slot);
    assert Backed(c.pool, s.shelf, s.index[h], s.blocks[h]);
    assert Solid(c.pool, s.shelf, spot) && ReadAt(c.pool, s.shelf, spot) == Some(s.blocks[h]);
    hide Solid, ReadAt, At;
    var asked := s.asked + [spot];
    forall w | w in [Wait(h, Live)] + s.pending
      ensures Expected(c, s.shelf, s.index, asked, s.answers, w)
    {
      if w in s.pending {
        assert Expected(c, s.shelf, s.index, s.asked, s.answers, w);
      }
    }
  }

  lemma {:induction false} FetchFaithful(c: Settings, s: Store, loaded: bool)
    requires Faithful(c, s)
    ensures Faithful(c, AfterFetch(c, s, loaded))
  {
    hide Packed, Touched, SameWaits;
    if s.asked != [] {
      var spot := s.asked[0];
      var shelf := if loaded then s.shelf else Touched(c.pool, s.shelf, spot.id);
      TouchedSections(c.pool, s.shelf, spot.id);
      FetchedAwaited(c, s);
      var r := s.(asked := s.asked[1..], answers := s.answers + [Result(spot, ReadAt(c.pool, s.shelf, spot))]);
      hide Awaited, At;
      SamePlaces(r.index, r.index, r.pending);
      AwaitedSame(c, r, r.(shelf := shelf));
    }
  }

  lemma {:induction false} FetchedAwaited(c: Settings, s: Store)
    requires Awaited(c, s.shelf, s.index, s.pending, s.asked, s.answers) && s.asked != []
    ensures var spot := s.asked[0];
            Awaited(c, s.shelf, s.index, s.pending, s.asked[1..],
                    s.answers + [Result(spot, ReadAt(c.pool, s.shelf, spot))])
  {
    hide Solid, Where;
    var spot := s.asked[0];
    assert spot in s.asked;
    var asked, answers := s.asked[1..], s.answers + [Result(spot, ReadAt(c.pool, s.shelf, spot))];
    forall w | w in s.pending
      ensures Expected(c, s.shelf, s.index, asked, answers, w)
    {
      assert Expected(c, s.shelf, s.index, s.asked, s.answers, w);
      StillInFlight(s.asked, s.answers, answers[|s.answers|], Where(s.index, w.h, w.held).value);
    }
  }

  lemma StillInFlight(asked: seq<Spot>, answers: seq<Result>, r: Result, spot: Spot)
    requires asked != [] && r.spot == asked[0] && InFlight(asked, answers, spot)
    ensures InFlight(asked[1..], answers + [r], spot)
  {
    var more := answers + [r];
    assert more[|answers|] == r;
    if exists i | 0 <= i < |answers| :: answers[i].spot == spot {
      var i :| 0 <= i < |answers| && answers[i].spot == spot;
      assert more[i].spot == spot;
    }
  }

  /** Every get that waits for the spot of a result is answered with a block of its hash. */
  lemma {:induction false} ResultTruthful(c: Settings, s: Store)
    requires Awaited(c, s.shelf, s.index, s.pending, s.asked, s.answers) && s.answers != []
    ensures var waits := WaitingAt(s.pending, s.index, s.answers[0].spot);
            waits != [] ==>
              && Verified(c, waits[0].h, s.answers[0].data).Some?
              && forall w | w in waits :: w.h == waits[0].h
  {
    hide WaitingAt, Where, ReadAt;
    var spot := s.answers[0].spot;
    var waits := WaitingAt(s.pending, s.index, spot);
    WaitingFrom(s.pending, s.index, spot);
    assert s.answers[0] in s.answers;
    var data := s.answers[0].data;
    assert data.Some?;
    forall w | w in waits
      ensures w.h == c.hash(data.value)
    {
      assert Expected(c, s.shelf, s.index, s.asked, s.answers, w);
    }
    if waits != [] {
      assert waits[0] in waits;
    }
  }

  lemma {:induction false} ResultAwaited(c: Settings, s: Store)
    requires Awaited(c, s.shelf, s.index, s.pending, s.asked, s.answers) && s.answers != []
    ensures var rest := WaitingElsewhere(s.pending, s.index, s.answers[0].spot);
            Awaited(c, s.shelf, s.index, rest, s.asked, s.answers[1..])
  {
    hide Where, Holds, Solid, ReadAt, WaitingElsewhere;
    var spot, later := s.answers[0].spot, s.answers[1..];
    var rest := WaitingElsewhere(s.pending, s.index, spot);
    WaitingFrom(s.pending, s.index, spot);
    forall w | w in rest
      ensures Expected(c, s.shelf, s.index, s.asked, later, w)
    {
      assert Expected(c, s.shelf, s.index, s.asked, s.answers, w);
      var at := Where(s.index, w.h, w.held).value;
      if at !in s.asked {
        var i :| 0 <= i < |s.answers| && s.answers[i].spot == at;
        assert later[i - 1].spot == at;
      }
    }
  }

  lemma {:induction false} ResultFaithful(c: Settings, s: Store)
    requires Kept(c, s) && Faithful(c, s) && !Dangles(c, s, ReadResult)
    ensures Faithful(c, AfterReadResult(c, s))
  {
    hide S.Inv, L.Admitted, L.Find, Awaited, Packed, WaitingAt, WaitingElsewhere, L.Unique, Placed;
    if s.answers != [] {
      var waits := WaitingAt(s.pending, s.index, s.answers[0].spot);
      ResultAwaited(c, s);
      ResultTruthful(c, s);
      if waits != [] {
        var block := Verified(c, waits[0].h, s.answers[0].data);
        L.AdmittedKeeps(s.cached, waits[0].h, Cell(block.value, waits[0].held), c.lruSize);
        forall r | r in RepliesTo(waits, block)
          ensures r.existed && c.hash(block.value) == r.h
        {
          var i :| 0 <= i < |waits| && r == RepliesTo(waits, block)[i];
          assert waits[i] in waits;
        }
      }
    }
  }

  lemma {:induction false} ResizeFaithful(c: Settings, s: Store, limit: U64)
    requires Faithful(c, s)
    ensures Faithful(c, Resized(c, s, limit))
  {
    hide Awaited, Packed, SameWaits, TargetFor;
    SamePlaces(s.index, s.index, s.pending);
    AwaitedSame(c, s, Resized(c, s, limit));
  }

  lemma {:induction false} MarkFaithful(c: Settings, s: Store, m: Msg)
    requires Ready(c, s) && Faithful(c, s) && (m.Acquire? || m.Clear? || m.Pin? || m.Unpin?)
    ensures Faithful(c, Step(c, s, m))
  {
    hide Faithful, Updated, Record, S.Inv;
    if Record(s, m.h).Some? {
      var r := Record(s, m.h).value;
      UpdatedFaithful(c, s, m.h, r.(claims := r.claims + 1));
      UpdatedFaithful(c, s, m.h, r.(claims := 0));
      UpdatedFaithful(c, s, m.h, r.(pins := r.pins + 1));
      if r.pins > 0 {
        UpdatedFaithful(c, s, m.h, r.(pins := r.pins - 1));
      }
    }
  }

  /** Every message keeps the promise, if blocks are put under their hashes. */
  lemma {:induction false} StepFaithful(c: Settings, s: Store, m: Msg)
    requires Kept(c, s) && Faithful(c, s) && Honest(c, m) && !Dangles(c, s, m)
    ensures Faithful(c, Step(c, s, m))
  {
    hide Faithful, Removed, Released, Ended, AfterGet, AfterGetLater, AfterFetch, AfterReadResult, Resized, Swept;
    hide AfterPut, AllMoves, Defragmented, Rewritten, Tidy, Placed;
    match m
    case Put(h, data, group, claim) => PutFaithful(c, s, h, data, group, claim);
    case GroupEnd(group, abort) => EndFaithful(c, s, group, abort);
    case Resize(limit) => ResizeFaithful(c, s, limit);
    case Gc(keep, force) => SweptFaithful(c, s, keep, force);
    case Get(h, loaded) => GetFaithful(c, s, h, loaded);
    case GetLater(h) => LaterFaithful(c, s, h);
    case Fetch(loaded) => FetchFaithful(c, s, loaded);
    case ReadResult => ResultFaithful(c, s);
    case Remove(h, force) => RecordFaithful(c, s, h, force);
    case Release(h) => RecordFaithful(c, s, h, false);
    case Defragment(ids, threshold) =>
      NothingMoves(c, s, ids, threshold);
    case _ => MarkFaithful(c, s, m);
  }

  /** A defragmentation of sections without gaps changes nothing at all. */
  lemma {:induction false} NothingMoves(c: Settings, s: Store, ids: seq<Id>, threshold: real)
    requires Ready(c, s) && Faithful(c, s)
    ensures Step(c, s, Defragment(ids, threshold)) == s
  {
    hide AllMoves, Defragmented, Hashed, Awaited, Truthful, AllPacked;
    PackedUnmoved(c.pool, s.shelf, ids, threshold);
    RewrittenNothing(s.index);
  }

  // ---- whole runs ----

  predicate AllHonest(c: Settings, msgs: seq<Msg>)
  {
    forall i | 0 <= i < |msgs| :: Honest(c, msgs[i])
  }

  lemma {:induction false} RunFaithful(c: Settings, s: Store, msgs: seq<Msg>)
    requires Orderly(c, s, msgs) && AllHonest(c, msgs) && Faithful(c, s)
    ensures Faithful(c, Run(c, s, msgs))
  {
    hide Step, Faithful, Kept, Counted, Receipted, Dangles;
    if msgs != [] {
      RunFaithful(c, s, msgs[..|msgs| - 1]);
      StepFaithful(c, Run(c, s, msgs[..|msgs| - 1]), msgs[|msgs| - 1]);
    }
  }

  lemma EmptyFaithful(c: Settings, limit: U64)
    ensures Faithful(c, Empty(c, limit))
  {
    hide Started, TargetFor;
  }

  lemma {:induction false} AnswerHashed(c: Settings, s: Store, h: Digest)
    requires Kept(c, s) && Faithful(c, s)
    ensures Answer(c, s, h).Some? <==> h in s.index
    ensures Answer(c, s, h).Some? ==> c.hash(Answer(c, s, h).value) == h
  {
    hide L.Find, S.Inv, Placed, Awaited, Packed, ReadAt;
    if h in s.index {
      StoredHash(c, s, h);
      B.StoredReads(c, s, h);
      match L.Find(s.cached, h)
      case Some(i) => assert s.cached[i] in s.cached;
      case None =>
    }
  }

  /** In every run of a new store, with removals, sweeps, evictions and defragmentations
      at any time and reads on their way as long as they like: a get has an answer
      exactly for the indexed hashes, every answer ever given has the hash asked for,
      and every get that waits does so for a spot that holds its block and that is being
      read.  Once nothing is on its way, nothing waits. */
  lemma {:induction false} GetsAnswered(c: Settings, limit: U64, msgs: seq<Msg>)
    requires Orderly(c, Empty(c, limit), msgs) && AllHonest(c, msgs)
    ensures var s := Run(c, Empty(c, limit), msgs);
            && (forall h :: Answer(c, s, h).Some? <==> h in s.index)
            && (forall h | h in s.index :: c.hash(Answer(c, s, h).value) == h)
            && Truthful(c, s.replies)
            && (forall w | w in s.pending :: Expected(c, s.shelf, s.index, s.asked, s.answers, w))
            && (s.asked == [] && s.answers == [] ==> s.pending == [])
            && (forall ids, threshold :: Step(c, s, Defragment(ids, threshold)) == s)
  {
    hide Run, Orderly, Step, Empty, Answer, Counted, Receipted, Ready, Placed, Tidy, AllPacked, Hashed, Truthful;
    hide Expected;
    EmptyFaithful(c, limit);
    RunFaithful(c, Empty(c, limit), msgs);
    var s := Run(c, Empty(c, limit), msgs);
    forall h
      ensures Answer(c, s, h).Some? <==> h in s.index
      ensures h in s.index ==> c.hash(Answer(c, s, h).value) == h
    {
      AnswerHashed(c, s, h);
    }
    forall ids, threshold
      ensures Step(c, s, Defragment(ids, threshold)) == s
    {
      NothingMoves(c, s, ids, threshold);
    }
    if s.pending != [] {
      WaitNeedsRead(c, s, s.pending[0]);
    }
  }

  lemma WaitNeedsRead(c: Settings, s: Store, w: Wait)
    requires Faithful(c, s) && w in s.pending
    ensures s.asked != [] || s.answers != []
  {
    hide AllPacked, Hashed, Truthful, Holds;
    assert Expected(c, s.shelf, s.index, s.asked, s.answers, w);
  }

  // ---- each asynchronous get is answered once ----

  /** How many gets of a hash a run asks for, how many of them were answered, and how
      many still wait. */
  function Asked(msgs: seq<Msg>, h: Digest): nat
  {
    if msgs == [] then 0
    else Asked(msgs[..|msgs| - 1], h) + if msgs[|msgs| - 1] == GetLater(h) then 1 else 0
  }

  function Replied(replies: seq<Reply>, h: Digest): nat
  {
    if replies == [] then 0
    else Replied(replies[..|replies| - 1], h) + if replies[|replies| - 1].h == h then 1 else 0
  }

  function Waited(pending: seq<Wait>, h: Digest): nat
  {
    if pending == [] then 0
    else Waited(pending[..|pending| - 1], h) + if pending[|pending| - 1].h == h then 1 else 0
  }

  lemma {:induction false} RepliedConcat(a: seq<Reply>, b: seq<Reply>, h: Digest)
    ensures Replied(a + b, h) == Replied(a, h) + Replied(b, h)
  {
    if b == [] {
      assert a + b == a;
    } else {
      assert (a + b)[..|a + b| - 1] == a + b[..|b| - 1];
      RepliedConcat(a, b[..|b| - 1], h);
    }
  }

  lemma {:induction false} WaitedConcat(a: seq<Wait>, b: seq<Wait>, h: Digest)
    ensures Waited(a + b, h) == Waited(a, h) + Waited(b, h)
  {
    if b == [] {
      assert a + b == a;
    } else {
      assert (a + b)[..|a + b| - 1] == a + b[..|b| - 1];
      WaitedConcat(a, b[..|b| - 1], h);
    }
  }

  lemma {:induction false} RepliesToAll(waits: seq<Wait>, block: Option<Block>, h: Digest)
    ensures Replied(RepliesTo(waits, block), h) == Waited(waits, h)
  {
    if waits != [] {
      var n := |waits| - 1;
      RepliesToAll(waits[..n], block, h);
      assert RepliesTo(waits, block)[..n] == RepliesTo(waits[..n], block);
    }
  }

  lemma WaitedPush(a: seq<Wait>, w: Wait, h: Digest)
    ensures Waited(a + [w], h) == Waited(a, h) + if w.h == h then 1 else 0
  {
    assert (a + [w])[..|a|] == a;
  }

  lemma RepliedPush(a: seq<Reply>, r: Reply, h: Digest)
    ensures Replied(a + [r], h) == Replied(a, h) + if r.h == h then 1 else 0
  {
    assert (a + [r])[..|a|] == a;
  }

  lemma WaitingPush(a: seq<Wait>, w: Wait, index: map<Digest, Rec>, spot: Spot)
    ensures var here := Where(index, w.h, w.held) == Some(spot);
            && WaitingAt(a + [w], index, spot) == WaitingAt(a, index, spot) + (if here then [w] else [])
            && WaitingElsewhere(a + [w], index, spot) == WaitingElsewhere(a, index, spot) + (if here then [] else [w])
  {
    assert (a + [w])[..|a|] == a;
  }

  lemma {:induction false} WaitingSplits(pending: seq<Wait>, index: map<Digest, Rec>, spot: Spot, h: Digest)
    ensures Waited(pending, h) ==
            Waited(WaitingAt(pending, index, spot), h) + Waited(WaitingElsewhere(pending, index, spot), h)
  {
    if pending != [] {
      hide Where, Waited, WaitingAt, WaitingElsewhere;
      var init, w := pending[..|pending| - 1], pending[|pending| - 1];
      assert pending == init + [w];
      WaitingSplits(init, index, spot, h);
      WaitingPush(init, w, index, spot);
      WaitedPush(init, w, h);
      WaitedPush(WaitingAt(init, index, spot), w, h);
      WaitedPush(WaitingElsewhere(init, index, spot), w, h);
      assert WaitingAt(init, index, spot) + [] == WaitingAt(init, index, spot);
      assert WaitingElsewhere(init, index, spot) + [] == WaitingElsewhere(init, index, spot);
    }
  }

  lemma WaitedFront(w: Wait, a: seq<Wait>, h: Digest)
    ensures Waited([w] + a, h) == Waited(a, h) + if w.h == h then 1 else 0
  {
    hide Waited;
    WaitedConcat([w], a, h);
    WaitedPush([], w, h);
    assert [] + [w] == [w];
    assert Waited([], h) == 0 by {
      NoneWaited(h);
    }
  }

  lemma NoneWaited(h: Digest)
    ensures Waited([], h) == 0
  {
  }

  lemma {:induction false} WaitedSame(a: seq<Wait>, b: seq<Wait>, h: Digest)
    requires |a| == |b| && forall i | 0 <= i < |a| :: a[i].h == b[i].h
    ensures Waited(a, h) == Waited(b, h)
  {
    if a != [] {
      WaitedSame(a[..|a| - 1], b[..|b| - 1], h);
    }
  }

  /** The same gets wait, and nothing was replied. */
  predicate Silent(s: Store, s': Store)
  {
    s'.replies == s.replies && |s'.pending| == |s.pending| &&
    forall i | 0 <= i < |s.pending| :: s'.pending[i].h == s.pending[i].h
  }

  lemma {:induction false} StepSilent(c: Settings, s: Store, m: Msg)
    requires Ready(c, s) && !m.GetLater? && !m.ReadResult?
    ensures Silent(s, Step(c, s, m))
  {
    hide S.Inv, Removed, Released, Ended, Updated, Record, AfterGet, AfterFetch, Resized, Swept, AfterPut;
    hide AllMoves, Defragmented;
    match m
    case Put(h, data, group, claim) => PutSilent(c, s, h, data, group, claim);
    case GroupEnd(group, abort) => EndSilent(c, s, group, abort);
    case Get(h, loaded) => ReadSilent(c, s, h, loaded);
    case Fetch(loaded) => ReadSilent(c, s, 0, loaded);
    case Resize(limit) => SweptSilent(c, s, {}, false, limit);
    case Gc(keep, force) => SweptSilent(c, s, keep, force, 0);
    case Remove(h, force) => RemovedSilent(c, s, h, force);
    case Release(h) => RemovedSilent(c, s, h, false);
    case Defragment(_, _) =>
    case Acquire(h) => UpdatedSilent(s, h);
    case Clear(h) => UpdatedSilent(s, h);
    case Pin(h) => UpdatedSilent(s, h);
    case Unpin(h) => UpdatedSilent(s, h);
  }

  lemma PutSilent(c: Settings, s: Store, h: Digest, data: Block, group: nat, claim: bool)
    requires Ready(c, s)
    ensures Silent(s, AfterPut(c, s, h, data, group, claim))
  {
    hide SoundAll, RoomyBut, S.Store, L.Admitted, Recorded;
  }

  lemma EndSilent(c: Settings, s: Store, g: nat, abort: bool)
    ensures Silent(s, Ended(c, s, g, abort))
  {
    hide FindGroup, L.Without;
  }

  lemma ReadSilent(c: Settings, s: Store, h: Digest, loaded: bool)
    ensures Silent(s, AfterGet(c, s, h, loaded)) && Silent(s, AfterFetch(c, s, loaded))
  {
    hide L.Find, L.Admitted, L.Got, Fetched, ReadAt;
  }

  lemma SweptSilent(c: Settings, s: Store, keep: set<Digest>, force: bool, limit: U64)
    ensures Silent(s, Swept(c, s, keep, force)) && Silent(s, Resized(c, s, limit))
  {
    hide L.Without, TargetFor;
  }

  lemma UpdatedSilent(s: Store, h: Digest)
    ensures forall r :: Silent(s, Updated(s, h, r))
  {
    hide L.Find;
  }

  lemma {:induction false} RemovedSilent(c: Settings, s: Store, h: Digest, force: bool)
    ensures Silent(s, Removed(c, s, h, force)) && Silent(s, Released(c, s, h))
  {
    UpdatedSilent(s, h);
    hide Updated, Record, L.Without;
  }

  lemma {:induction false} ResultConserves(c: Settings, s: Store, h: Digest)
    ensures var s' := AfterReadResult(c, s);
            Replied(s'.replies, h) + Waited(s'.pending, h) == Replied(s.replies, h) + Waited(s.pending, h)
  {
    hide L.Admitted, WaitingAt, WaitingElsewhere, Verified, Replied, Waited, RepliesTo;
    if s.answers != [] {
      var spot := s.answers[0].spot;
      var waits := WaitingAt(s.pending, s.index, spot);
      var block := if waits == [] then None else Verified(c, waits[0].h, s.answers[0].data);
      WaitingSplits(s.pending, s.index, spot, h);
      RepliesToAll(waits, block, h);
      RepliedConcat(s.replies, RepliesTo(waits, block), h);
    }
  }

  lemma {:induction false} LaterConserves(s: Store, k: Digest, h: Digest)
    ensures var s' := AfterGetLater(s, k);
            Replied(s'.replies, h) + Waited(s'.pending, h) ==
            Replied(s.replies, h) + Waited(s.pending, h) + if k == h then 1 else 0
  {
    hide L.Find, L.Got, Waited, Replied;
    WaitedFront(Wait(k, Live), s.pending, h);
    RepliedPush(s.replies, Reply(k, None, false), h);
    var at := L.Find(s.cached, k);
    if at.Some? {
      RepliedPush(s.replies, Reply(k, Some(s.cached[at.value].1.block), true), h);
    }
  }

  lemma {:induction false} StepConserves(c: Settings, s: Store, m: Msg, h: Digest)
    requires Ready(c, s)
    ensures var s' := Step(c, s, m);
            Replied(s'.replies, h) + Waited(s'.pending, h) ==
            Replied(s.replies, h) + Waited(s.pending, h) + if m == GetLater(h) then 1 else 0
  {
    hide S.Inv, AfterGetLater, AfterReadResult, Replied, Waited;
    if m.GetLater? {
      LaterConserves(s, m.h, h);
    } else if m.ReadResult? {
      ResultConserves(c, s, h);
    } else {
      hide Step;
      StepSilent(c, s, m);
      WaitedSame(s.pending, Step(c, s, m).pending, h);
    }
  }

  /** In every run, each asynchronous get is either still waiting or was answered, once. */
  lemma {:induction false} GetsConserved(c: Settings, s: Store, msgs: seq<Msg>, h: Digest)
    requires Orderly(c, s, msgs) && s.pending == [] && s.replies == []
    ensures var r := Run(c, s, msgs);
            Replied(r.replies, h) + Waited(r.pending, h) == Asked(msgs, h)
  {
    hide Step, Kept, Counted, Receipted, Allowed;
    if msgs != [] {
      var before := msgs[..|msgs| - 1];
      GetsConserved(c, s, before, h);
      RunKept(c, s, before);
      StepConserves(c, Run(c, s, before), msgs[|msgs| - 1], h);
    }
  }

  lemma RunKept(c: Settings, s: Store, msgs: seq<Msg>)
    requires Orderly(c, s, msgs)
    ensures Ready(c, Run(c, s, msgs))
  {
    hide Run, Orderly, Placed, Tidy, Counted, Receipted;
  }

  // ---- when a block does move ----

  /** A defragmentation while one get waits. */
  lemma {:induction false} MovedWhileWaiting(c: Settings, s: Store, h: Digest, ids: seq<Id>, threshold: real)
    requires StoreInv(c, s) && h in s.index && h in s.blocks && Distinct(ids)
    ensures var r := Step(c, s, Defragment(ids, threshold));
            && h in r.index && r.index[h].id == s.index[h].id
            && r.index[h].slot == Relocated(c.pool, s.shelf, ids, threshold, s.index[h].id, s.index[h].slot)
            && ReadAt(c.pool, r.shelf, Spot(r.index[h].id, r.index[h].slot)) == Some(s.blocks[h])
            && r.pending == s.pending && r.asked == s.asked && r.answers == s.answers && r.replies == s.replies
            && r.cached == s.cached
  {
    hide Placed, Counted, Receipted, Tidy, S.Inv, AllMoves, Defragmented, Follow, Relocated, ReadAt;
    StepKeepsInv(c, s, Defragment(ids, threshold));
    FollowIsRelocated(c.pool, s.shelf, ids, threshold, s.index[h].id, s.index[h].slot);
    B.StoredReads(c, Step(c, s, Defragment(ids, threshold)), h);
  }

  predicate Reading(m: Msg)
  {
    m.Fetch? || m.ReadResult?
  }

  /** One turn of the pool, or the arrival of one result, while a get waits. */
  lemma {:induction false} ReadingStep(c: Settings, s: Store, m: Msg, h: Digest)
    requires StoreInv(c, s) && h in s.index && Wait(h, Live) in s.pending && Reading(m)
    ensures var r, spot := Step(c, s, m), Spot(s.index[h].id, s.index[h].slot);
            && r.index == s.index
            && if Wait(h, Live) in r.pending
               then InFlight(r.asked, r.answers, spot) <==> InFlight(s.asked, s.answers, spot)
               else InFlight(s.asked, s.answers, spot)
  {
    hide Kept, Counted, Receipted, L.Admitted, WaitingAt, WaitingElsewhere, Verified, Touched, ReadAt;
    var spot := Spot(s.index[h].id, s.index[h].slot);
    if m.Fetch? && s.asked != [] {
      var result := Result(s.asked[0], ReadAt(c.pool, s.shelf, s.asked[0]));
      FlightMoves(s.asked, s.answers, result, spot);
    }
    if m.ReadResult? && s.answers != [] {
      WaitingFrom(s.pending, s.index, s.answers[0].spot);
      FlightLands(s.asked, s.answers, spot);
    }
  }

  lemma FlightMoves(asked: seq<Spot>, answers: seq<Result>, r: Result, spot: Spot)
    requires asked != [] && r.spot == asked[0]
    ensures InFlight(asked[1..], answers + [r], spot) <==> InFlight(asked, answers, spot)
  {
    if InFlight(asked, answers, spot) {
      StillInFlight(asked, answers, r, spot);
    }
    assert (answers + [r])[|answers|] == r;
  }

  lemma FlightLands(asked: seq<Spot>, answers: seq<Result>, spot: Spot)
    requires answers != []
    ensures InFlight(asked, answers, spot) <==> answers[0].spot == spot || InFlight(asked, answers[1..], spot)
  {
    var rest := answers[1..];
    if exists i | 0 <= i < |answers| :: answers[i].spot == spot {
      var i :| 0 <= i < |answers| && answers[i].spot == spot;
      assert i > 0 ==> rest[i - 1].spot == spot;
    }
    if i :| 0 <= i < |rest| && rest[i].spot == spot {
      assert answers[i + 1].spot == spot;
    }
  }

  lemma {:induction false} ReadingRun(c: Settings, s: Store, msgs: seq<Msg>, h: Digest)
    requires Orderly(c, s, msgs) && h in s.index && Wait(h, Live) in s.pending
    requires forall i | 0 <= i < |msgs| :: Reading(msgs[i])
    ensures var r, spot := Run(c, s, msgs), Spot(s.index[h].id, s.index[h].slot);
            && r.index == s.index
            && if Wait(h, Live) in r.pending
               then InFlight(r.asked, r.answers, spot) <==> InFlight(s.asked, s.answers, spot)
               else InFlight(s.asked, s.answers, spot)
  {
    hide Step, StoreInv, Allowed, InFlight, Reading;
    if msgs != [] {
      var before, m := msgs[..|msgs| - 1], msgs[|msgs| - 1];
      ReadingRun(c, s, before, h);
      var t := Run(c, s, before);
      if Wait(h, Live) in t.pending {
        ReadingStep(c, t, m, h);
      } else {
        StaysAnswered(c, t, m, h);
      }
    }
  }

  lemma StaysAnswered(c: Settings, s: Store, m: Msg, h: Digest)
    requires StoreInv(c, s) && Wait(h, Live) !in s.pending && Reading(m)
    ensures Ready(c, s) && Wait(h, Live) !in Step(c, s, m).pending && Step(c, s, m).index == s.index
  {
    hide Placed, Tidy, S.Inv, Counted, Receipted, L.Admitted, WaitingAt, WaitingElsewhere, Verified, Touched, ReadAt;
    if s.answers != [] {
      WaitingFrom(s.pending, s.index, s.answers[0].spot);
    }
  }

  /** In any state, with any other gets waiting and any reads on their way: a defragmentation
      overtakes a get, and then every read comes home.  The get is never answered, if and
      only if no read of the slot its block was moved to was on its way. */
  lemma {:induction false} MovedGetIsLost(c: Settings, s: Store, h: Digest, ids: seq<Id>, threshold: real,
                                          turns: seq<Msg>)
    requires StoreInv(c, s) && h in s.index && Wait(h, Live) in s.pending && Distinct(ids)
    requires Orderly(c, Step(c, s, Defragment(ids, threshold)), turns)
    requires forall i | 0 <= i < |turns| :: Reading(turns[i])
    requires var r := Run(c, Step(c, s, Defragment(ids, threshold)), turns); r.asked == [] && r.answers == []
    ensures var id, slot := s.index[h].id, s.index[h].slot;
            Wait(h, Live) in Run(c, Step(c, s, Defragment(ids, threshold)), turns).pending <==>
            !InFlight(s.asked, s.answers, Spot(id, Relocated(c.pool, s.shelf, ids, threshold, id, slot)))
  {
    hide Step, Run, Orderly, Placed, Tidy, S.Inv, Counted, Receipted, Relocated, ReadAt;
    B.StoredReads(c, s, h);
    MovedWhileWaiting(c, s, h, ids, threshold);
    ReadingRun(c, Step(c, s, Defragment(ids, threshold)), turns, h);
  }

  /** The result of a read meets the one get that waits, or misses it. */
  lemma {:induction false} ResultMeets(c: Settings, s: Store, h: Digest, spot: Spot, data: Option<Block>)
    requires StoreInv(c, s) && h in s.index && s.pending == [Wait(h, Live)] && s.answers == [Result(spot, data)]
    requires L.Find(s.cached, h).None?
    ensures Allowed(c, s, ReadResult)
    ensures var r := Step(c, s, ReadResult);
            && r.asked == s.asked && r.answers == []
            && if spot == Spot(s.index[h].id, s.index[h].slot)
               then r.pending == [] && r.replies == s.replies + [Reply(h, Verified(c, h, data), true)]
               else r.pending == s.pending && r.replies == s.replies
  {
    hide Kept, Counted, Receipted, L.Admitted, WaitingAt, WaitingElsewhere, Verified;
    B.OneWaiting(Wait(h, Live), s.index, spot);
    assert s.replies + [] == s.replies;
  }

  /** With nothing else on its way: a get that is overtaken by a defragmentation is
      answered with its block if and only if its slot was not moved. */
  lemma {:induction false} OvertakenGet(c: Settings, s: Store, h: Digest, ids: seq<Id>, threshold: real, loaded: bool)
    requires StoreInv(c, s) && h in s.index && L.Find(s.cached, h).None? && Distinct(ids)
    requires B.Idle(s) && h in s.blocks && c.hash(s.blocks[h]) == h
    ensures var msgs := [GetLater(h), Defragment(ids, threshold), Fetch(loaded), ReadResult];
            && Orderly(c, s, msgs)
            && var r := Run(c, s, msgs);
               && r.asked == [] && r.answers == []
               && if Relocated(c.pool, s.shelf, ids, threshold, s.index[h].id, s.index[h].slot) == s.index[h].slot
                  then r.pending == [] && r.replies == s.replies + [Reply(h, Some(s.blocks[h]), true)]
                  else r.pending == [Wait(h, Live)] && r.replies == s.replies
  {
    hide Step, Run, Orderly, Kept, Counted, Receipted, L.Find, ReadAt, Relocated;
    var spot := Spot(s.index[h].id, s.index[h].slot);
    var m1: seq<Msg> := [] + [GetLater(h)];
    RunNone(c, s);
    RunMore(c, s, [], GetLater(h));
    B.WaitStarts(c, s, h);
    var m2 := m1 + [Defragment(ids, threshold)];
    RunMore(c, s, m1, Defragment(ids, threshold));
    MovedWhileWaiting(c, Run(c, s, m1), h, ids, threshold);
    var s2 := Run(c, s, m2);
    var m3 := m2 + [Fetch(loaded)];
    RunMore(c, s, m2, Fetch(loaded));
    B.PoolReads(c, s2, spot, loaded);
    ResultMeets(c, Run(c, s, m3), h, spot, ReadAt(c.pool, s2.shelf, spot));
    RunMore(c, s, m3, ReadResult);
    assert m3 + [ReadResult] == [GetLater(h), Defragment(ids, threshold), Fetch(loaded), ReadResult];
  }

  /** Two blocks in a section of three slots whose first slot is free, as only a slot
      that was freed by its id leaves it. */
  function GapStore(h: Digest, k: Digest, a: Block, b: Block): Store
  {
    Store(Shelf(map[0 := Slots([false, true, true], [a, a, b])], [0], 1, 0),
          map[h := Rec(0, 1, 0, 0), k := Rec(0, 2, 0, 0)],
          [], [], [], [], [], 2, Wrap(2 * |a|), 0, [], [], 0, map[h := a, k := b], map[h := 0, k := 0], [], 0)
  }

  lemma {:induction false} GapReady(c: Settings, h: Digest, k: Digest, a: Block, b: Block)
    requires Workable(c) && c.pool.size == 3 && c.pool.floor == 1
    ensures Ready(c, GapStore(h, k, a, b))
  {
    var s := GapStore(h, k, a, b).shelf;
    assert !At(c.pool, s, 0).used[0];
    hide F.FirstFree;
  }

  lemma {:induction false} GapPlaced(c: Settings, h: Digest, k: Digest, a: Block, b: Block)
    requires c.pool.size == 3 && h != k
    ensures var s := GapStore(h, k, a, b);
            Placed(c.pool, s.shelf, s.index, s.blocks) && Tidy(c, s)
  {
  }

  lemma {:induction false} GapInv(c: Settings, h: Digest, k: Digest, a: Block, b: Block)
    requires Workable(c) && c.pool.size == 3 && c.pool.floor == 1 && c.pool.blockSize == |a| && h != k
    ensures StoreInv(c, GapStore(h, k, a, b))
  {
    hide Ready, Placed, Tidy;
    var s := GapStore(h, k, a, b);
    GapReady(c, h, k, a, b);
    GapPlaced(c, h, k, a, b);
    assert s.index.Keys == {h, k} && |s.index.Keys| == 2;
  }

  lemma {:induction false} GapMoves(c: Settings, h: Digest, k: Digest, a: Block, b: Block)
    requires c.pool.size == 3
    ensures Relocated(c.pool, GapStore(h, k, a, b).shelf, [0], 1.0, 0, 1) == 0
  {
    var used := [false, true, true];
    assert used[..2] == [false, true] && used[..2][..1] == [false] && used[..2][..1][..0] == [];
    assert F.Count([false]) == 0 && F.Count([false, true]) == 1 && F.Count(used) == 2;
    F.ExtentIs(used, 3);
    assert F.Relocation(used)[1] == Some(0);
  }

  /** In such a store a get that is overtaken by a defragmentation is never answered. */
  lemma {:induction false} GapLosesGet(c: Settings, h: Digest, k: Digest, a: Block, b: Block, loaded: bool)
    requires Workable(c) && c.pool.size == 3 && c.pool.floor == 1 && c.pool.blockSize == |a| && h != k && c.hash(a) == h
    ensures var s := GapStore(h, k, a, b);
            var msgs := [GetLater(h), Defragment([0], 1.0), Fetch(loaded), ReadResult];
            && Orderly(c, s, msgs)
            && var r := Run(c, s, msgs);
               r.pending == [Wait(h, Live)] && r.replies == [] && r.asked == [] && r.answers == []
  {
    hide Run, Orderly, StoreInv, Relocated;
    GapInv(c, h, k, a, b);
    GapMoves(c, h, k, a, b);
    OvertakenGet(c, GapStore(h, k, a, b), h, [0], 1.0, loaded);
  }
}
