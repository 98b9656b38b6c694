/**
 When the block cache goes on with a node it has released: a run in which it does, and
 what its callers can keep to so that it never does.
 */
module CacheReuse {
  import opened Entries
  import opened Section
  import opened Shelf
  import opened BlockStore
  import S = Shelf
  import L = Lru
  import B = BlockRuns

  // ---- a run that ends with a released node in the cache ----

  /** A get that reads its block at once puts it into the cache. */
  lemma {:induction false} ReadAtOnce(c: Settings, s: Store, h: Digest, loaded: bool)
    requires StoreInv(c, s) && h in s.index && L.Find(s.cached, h).None? && h in s.blocks && c.hash(s.blocks[h]) == h
    ensures Allowed(c, s, Get(h, loaded))
    ensures var r := Step(c, s, Get(h, loaded));
            && r.cached == L.Admitted(s.cached, h, Cell(s.blocks[h], Live), c.lruSize) && r.index == s.index
            && r.pending == s.pending && r.asked == s.asked && r.answers == s.answers
            && r.shelf.sections == s.shelf.sections && r.blocks == s.blocks
  {
    hide Placed, Counted, Receipted, S.Inv, L.Find, L.Admitted, ReadAt;
    B.StoredReads(c, s, h);
  }

  lemma AloneReused(h: Digest, k: Digest, cell: Cell, d: Cell)
    requires h != k
    ensures L.Find([(k, d)], h).None? && L.Reused(L.Admitted([(k, d)], h, cell, 1), h, 1)
  {
    assert L.Admitted([(k, d)], h, cell, 1) == [(h, cell)];
  }

  lemma SameReads(c: Config, s: Shelf, t: Shelf, spot: Spot)
    requires s.sections == t.sections
    ensures ReadAt(c, s, spot) == ReadAt(c, t, spot)
  {
  }

  /** A new store that caches one block: two puts, a get of the first block that waits for
      the pool, and one that reads it at once.  When the read for the first get arrives,
      the cache puts a node that it has released back into its map. */
  lemma {:induction false} ReadTwiceDangles(c: Settings, h: Digest, k: Digest, a: Block, b: Block, loaded: bool,
                                            again: bool)
    requires Workable(c) && c.lruSize == 1 && h != k && |a| == |b| == c.pool.blockSize && c.hash(a) == h
    ensures var msgs := [Put(h, a, 0, false), Put(k, b, 0, false)] + [GetLater(h)] + [Get(h, loaded)] + [Fetch(again)];
            Orderly(c, Empty(c, 0), msgs) && Dangles(c, Run(c, Empty(c, 0), msgs), ReadResult)
  {
    hide Step, Run, Orderly, Placed, Counted, Receipted, S.Inv, L.Find, L.Admitted, L.Reused, ReadAt, L.Unique, Empty;
    B.TwoPuts(c, 0, h, k, a, b);
    var s, m0 := Empty(c, 0), [Put(h, a, 0, false), Put(k, b, 0, false)];
    var s0 := Run(c, s, m0);
    var spot := Spot(s0.index[h].id, s0.index[h].slot);
    AloneReused(h, k, Cell(a, Live), Cell(b, Live));
    B.StoredReads(c, s0, h);
    RunMore(c, s, m0, GetLater(h));
    B.WaitStarts(c, s0, h);
    var s1 := Run(c, s, m0 + [GetLater(h)]);
    ReadAtOnce(c, s1, h, loaded);
    RunMore(c, s, m0 + [GetLater(h)], Get(h, loaded));
    var s2 := Run(c, s, m0 + [GetLater(h)] + [Get(h, loaded)]);
    SameReads(c.pool, s0.shelf, s2.shelf, spot);
    RunMore(c, s, m0 + [GetLater(h)] + [Get(h, loaded)], Fetch(again));
    B.PoolReads(c, s2, spot, again);
    B.ReadArrives(c, Run(c, s, m0 + [GetLater(h)] + [Get(h, loaded)] + [Fetch(again)]), Wait(h, Live), spot, a);
  }

  // ---- what callers can keep to ----

  /** The message caches a hash that is in the cache already. */
  predicate Recaches(c: Settings, s: Store, m: Msg)
  {
    match m
    case Put(h, data, group, claim) =>
      && h !in s.index && !Refused(c, s, group) && |data| == c.pool.blockSize
      && L.Find(s.cached, h).Some?
    case ReadResult =>
      && s.answers != []
      && var waits := WaitingAt(s.pending, s.index, s.answers[0].spot);
         && waits != [] && Verified(c, waits[0].h, s.answers[0].data).Some?
         && L.Find(s.cached, waits[0].h).Some?
    case _ => false
  }

  lemma DanglingRecaches(c: Settings, s: Store, m: Msg)
    ensures Dangles(c, s, m) ==> Recaches(c, s, m)
  {
    hide WaitingAt, Verified, L.Find, Refused;
  }

  /** The hashes whose records gets that wait were left with. */
  function Torn(s: Store, s': Store): set<Digest>
  {
    set w | w in s.pending && w.held.Live? && w.h !in s'.index :: w.h
  }

  /** The hashes that were removed while a get for them waited. */
  function AllTorn(c: Settings, s: Store, msgs: seq<Msg>): set<Digest>
    requires Orderly(c, s, msgs)
  {
    if msgs == [] then {}
    else
      var before := msgs[..|msgs| - 1];
      AllTorn(c, s, before) + Torn(Run(c, s, before), Run(c, s, msgs))
  }

  /** No hash is read at once while a get for it waits, and none is put again that was
      removed while a get for it waited. */
  predicate Gentle(s: Store, torn: set<Digest>, m: Msg)
  {
    match m
    case Put(h, _, _, _) => h in s.index || h !in torn
    case Get(h, _) => forall w | w in s.pending :: w.h != h
    case Defragment(ids, _) => Distinct(ids)
    case _ => true
  }

  predicate Careful(c: Settings, s: Store, msgs: seq<Msg>)
  {
    if msgs == [] then true
    else
      var before, m := msgs[..|msgs| - 1], msgs[|msgs| - 1];
      Careful(c, s, before) && (Orderly(c, s, before) ==> Gentle(Run(c, s, before), AllTorn(c, s, before), m))
  }

  /** No get waits for what is cached, gets that wait for one hash hold one record, and a
      detached record is that of a hash that was removed while a get for it waited. */
  predicate Apart(index: map<Digest, Rec>, cached: seq<(Digest, Cell)>, pending: seq<Wait>, torn: set<Digest>)
  {
    && (forall e, w | e in cached && w in pending :: e.0 != w.h)
    && (forall w, v | w in pending && v in pending && w.h == v.h :: w.held == v.held)
    && (forall w | w in pending :: w.held.Detached? ==> w.h in torn)
    && (forall e | e in cached :: e.1.held.Detached? ==> e.0 in torn)
    && (forall h | h in torn :: h !in index)
  }

  predicate Separate(s: Store, torn: set<Digest>)
  {
    Apart(s.index, s.cached, s.pending, torn)
  }

  /** The same gets wait for the same hashes, and the cache has no new key. */
  predicate Calm(s: Store, s': Store)
  {
    && s'.index.Keys == s.index.Keys && s'.pending == s.pending
    && forall e | e in s'.cached ::
         exists d :: d in s.cached && d.0 == e.0 && (e.1.held.Detached? ==> d.1.held.Detached?)
  }

  lemma CalmKeeps(c: Settings, s: Store, s': Store, torn: set<Digest>)
    requires Tidy(c, s) && Separate(s, torn) && Calm(s, s')
    ensures Separate(s', torn) && Torn(s, s') == {}
  {
    hide L.Unique;
  }

  lemma SelfCalm(s: Store, s': Store)
    requires s'.index.Keys == s.index.Keys && s'.pending == s.pending && forall e | e in s'.cached :: e in s.cached
    ensures Calm(s, s')
  {
  }

  lemma {:induction false} UpdatedCalm(s: Store, h: Digest, r: Rec)
    ensures Calm(s, Updated(s, h, r))
  {
    hide L.Find;
    var s' := Updated(s, h, r);
    if Orphaned(s.cached, h) {
      var i := L.Find(s.cached, h).value;
      forall e | e in s'.cached
        ensures exists d :: d in s.cached && d.0 == e.0 && (e.1.held.Detached? ==> d.1.held.Detached?)
      {
        var j :| 0 <= j < |s'.cached| && s'.cached[j] == e;
        assert s.cached[j] in s.cached;
      }
    }
  }

  lemma {:induction false} DroppedApart(c: Settings, s: Store, gone: set<Digest>, torn: set<Digest>)
    requires Tidy(c, s) && Separate(s, torn) && gone <= s.index.Keys
    ensures var s' := Dropped(c, s, gone); Separate(s', torn + Torn(s, s'))
  {
    hide L.Without, L.Unique, Wrap, Bytes;
    var s' := Dropped(c, s, gone);
    L.WithoutIs(s.cached, gone);
    forall w | w in s'.pending
      ensures exists v :: v in s.pending && v.h == w.h &&
                          w.held == if v.held.Live? && v.h in gone then Detached(s.index[v.h]) else v.held
      ensures w.held.Detached? ==> w.h in torn + Torn(s, s')
    {
      var i :| 0 <= i < |s'.pending| && s'.pending[i] == w;
      assert s.pending[i] in s.pending;
    }
  }

  lemma {:induction false} DeletedApart(c: Settings, s: Store, h: Digest, torn: set<Digest>)
    requires Tidy(c, s) && Separate(s, torn)
    ensures var s' := Deleted(c, s, h); Separate(s', torn + Torn(s, s'))
  {
    hide Dropped, L.Without, Separate, Tidy, Calm;
    if h in s.index {
      DroppedApart(c, s, {h}, torn);
    } else {
      var s' := Deleted(c, s, h);
      L.WithoutIs(s.cached, {h});
      SelfCalm(s, s');
      CalmKeeps(c, s, s', torn);
      assert torn + {} == torn;
    }
  }

  /** A change of a record, and then a deletion. */
  lemma {:induction false} UpdatedDeletedApart(c: Settings, s: Store, h: Digest, r: Rec, torn: set<Digest>)
    requires Tidy(c, s) && Separate(s, torn)
    ensures var s' := Updated(s, h, r); Separate(s', torn + Torn(s, s'))
    ensures var s' := Deleted(c, Updated(s, h, r), h); Separate(s', torn + Torn(s, s'))
  {
    hide Updated, Deleted, Separate, Tidy;
    var s1 := Updated(s, h, r);
    UpdatedCalm(s, h, r);
    CalmKeeps(c, s, s1, torn);
    UpdatedTidy(c, s, h, r);
    DeletedApart(c, s1, h, torn);
    assert torn + {} == torn;
    assert Torn(s1, Deleted(c, s1, h)) == Torn(s, Deleted(c, s1, h));
  }

  lemma {:induction false} RecordApart(c: Settings, s: Store, h: Digest, force: bool, torn: set<Digest>)
    requires Tidy(c, s) && Separate(s, torn)
    ensures var s' := Removed(c, s, h, force); Separate(s', torn + Torn(s, s'))
    ensures var s' := Released(c, s, h); Separate(s', torn + Torn(s, s'))
  {
    hide Separate, Tidy, Updated, Deleted, Record;
    Unmoved(c, s, torn);
    match Record(s, h) {
      case None =>
      case Some(r) =>
        UpdatedDeletedApart(c, s, h, r.(pins := 0), torn);
        DeletedApart(c, s, h, torn);
        if r.claims > 0 {
          UpdatedDeletedApart(c, s, h, r.(claims := r.claims - 1), torn);
        }
    }
  }

  lemma Unmoved(c: Settings, s: Store, torn: set<Digest>)
    requires Tidy(c, s) && Separate(s, torn)
    ensures Separate(s, torn + Torn(s, s))
  {
    hide Separate, Tidy;
    SelfCalm(s, s);
    CalmKeeps(c, s, s, torn);
    assert torn + {} == torn;
  }

  lemma {:induction false} CalmApart(c: Settings, s: Store, s': Store, torn: set<Digest>)
    requires Tidy(c, s) && Separate(s, torn) && Calm(s, s')
    ensures Separate(s', torn + Torn(s, s'))
  {
    hide Separate, Tidy, Calm;
    CalmKeeps(c, s, s', torn);
    assert torn + {} == torn;
  }

  lemma {:induction false} EndApart(c: Settings, s: Store, g: nat, abort: bool, torn: set<Digest>)
    requires Tidy(c, s) && Separate(s, torn)
    ensures var s' := Ended(c, s, g, abort); Separate(s', torn + Torn(s, s'))
  {
    hide FindGroup, Dropped, L.Unique;
    var gone := Indexed(s.index, Listed(s.receipts, g));
    var s1 := s.(index := Unpinned(s.index, gone));
    assert s1.index.Keys == s.index.Keys;
    DroppedApart(c, s1, gone, torn);
    assert Torn(s1, Dropped(c, s1, gone)) == Torn(s, Dropped(c, s1, gone));
    Unmoved(c, s, torn);
  }

  lemma {:induction false} SweptApart(c: Settings, s: Store, keep: set<Digest>, force: bool, torn: set<Digest>)
    requires Tidy(c, s) && Separate(s, torn)
    ensures var s' := Swept(c, s, keep, force); Separate(s', torn + Torn(s, s'))
  {
    hide Separate, Tidy, Dropped, Doomed;
    DroppedApart(c, s, Doomed(s.index, keep, force), torn);
  }

  /** A hash that is not waited for goes into the cache. */
  lemma {:induction false} CachedApart(c: Settings, s: Store, s': Store, h: Digest, cell: Cell, torn: set<Digest>)
    requires Tidy(c, s) && Separate(s, torn) && c.lruSize > 0 && L.Find(s.cached, h).None?
    requires s'.cached == L.Admitted(s.cached, h, cell, c.lruSize) && (forall w | w in s'.pending :: w in s.pending)
    requires (forall w | w in s'.pending :: w.h != h) && (cell.held.Detached? ==> h in torn)
    requires s.index.Keys <= s'.index.Keys && forall k | k in s'.index && k !in s.index :: k !in torn
    ensures Separate(s', torn + Torn(s, s'))
  {
    hide L.Find, L.Admitted, L.Unique, L.Reused;
    B.NotReused(s.cached, h, c.lruSize);
    L.AdmittedKeeps(s.cached, h, cell, c.lruSize);
    assert Torn(s, s') == {};
  }

  lemma {:induction false} PutApart(c: Settings, s: Store, h: Digest, data: Block, group: nat, claim: bool,
                                    torn: set<Digest>)
    requires Kept(c, s) && Separate(s, torn) && (h in s.index || h !in torn)
    ensures !Recaches(c, s, Put(h, data, group, claim))
    ensures var s' := AfterPut(c, s, h, data, group, claim); Separate(s', torn + Torn(s, s'))
  {
    hide S.Inv, Placed, S.Store, L.Admitted, Recorded, L.Unique, L.Find, Refused, Torn, Calm;
    var s' := AfterPut(c, s, h, data, group, claim);
    Unmoved(c, s, torn);
    if h in s.index {
      assert s'.index.Keys == s.index.Keys;
      SelfCalm(s, s');
      CalmApart(c, s, s', torn);
    } else {
      NotCached(c, s, h, torn);
      assert L.Find(s.cached, h).None?;
      if !Refused(c, s, group) && |data| == c.pool.blockSize {
        CachedApart(c, s, s', h, Cell(data, Live), torn);
      } else {
        SelfCalm(s, s');
        CalmApart(c, s, s', torn);
      }
    }
  }

  lemma NotCached(c: Settings, s: Store, h: Digest, torn: set<Digest>)
    requires Tidy(c, s) && Separate(s, torn) && h !in s.index && h !in torn
    ensures L.Find(s.cached, h).None? && forall w | w in s.pending :: w.h != h
  {
    hide L.Find, L.Unique;
    forall i | 0 <= i < |s.cached|
      ensures s.cached[i].0 != h
    {
      assert s.cached[i] in s.cached;
    }
  }

  lemma {:induction false} GetApart(c: Settings, s: Store, h: Digest, loaded: bool, torn: set<Digest>)
    requires Kept(c, s) && Separate(s, torn) && forall w | w in s.pending :: w.h != h
    ensures var s' := AfterGet(c, s, h, loaded); Separate(s', torn + Torn(s, s'))
  {
    hide S.Inv, Placed, L.Admitted, L.Got, L.Find, Fetched, Touched, Torn, Tidy, Separate, Calm, L.Unique, L.Put;
    hide L.Deleted;
    var s' := AfterGet(c, s, h, loaded);
    TidyUnique(c, s);
    L.OpsFrom(s.cached, h, Cell([], Live), c.lruSize);
    if h in s.index && L.Find(s.cached, h).None? && Fetched(c, s, h).Some? {
      CachedApart(c, s, s', h, Cell(Fetched(c, s, h).value, Live), torn);
    } else {
      SelfCalm(s, s');
      CalmApart(c, s, s', torn);
    }
  }

  lemma TidyUnique(c: Settings, s: Store)
    requires Tidy(c, s)
    ensures L.Unique(s.cached)
  {
  }

  lemma {:induction false} LaterApart(c: Settings, s: Store, h: Digest, torn: set<Digest>)
    requires Kept(c, s) && Separate(s, torn)
    ensures var s' := AfterGetLater(s, h); Separate(s', torn + Torn(s, s'))
  {
    hide S.Inv, Placed, L.Got, L.Find, L.Unique, L.Put, L.Deleted;
    var s' := AfterGetLater(s, h);
    TidyUnique(c, s);
    L.OpsFrom(s.cached, h, Cell([], Live), c.lruSize);
    assert Torn(s, s') == {};
    forall w | w in s'.pending
      ensures w in s.pending || (w == Wait(h, Live) && h in s.index && L.Find(s.cached, h).None?)
    {
    }
  }

  lemma {:induction false} ResultApart(c: Settings, s: Store, torn: set<Digest>)
    requires Kept(c, s) && Separate(s, torn)
    ensures !Recaches(c, s, ReadResult)
    ensures var s' := AfterReadResult(c, s); Separate(s', torn + Torn(s, s'))
  {
    hide S.Inv, Placed, L.Admitted, L.Find, L.Unique, WaitingAt, WaitingElsewhere, Verified, Torn, Where, RepliesTo;
    var s' := AfterReadResult(c, s);
    if s.answers == [] {
      Unmoved(c, s, torn);
    } else {
      var spot := s.answers[0].spot;
      var waits := WaitingAt(s.pending, s.index, spot);
      WaitingFrom(s.pending, s.index, spot);
      if waits != [] {
        assert waits[0] in waits;
        NotCachedWaiting(s, waits[0], torn);
      }
      if s'.cached == s.cached {
        ShorterApart(c, s, s', torn);
      } else {
        var block := Verified(c, waits[0].h, s.answers[0].data);
        CachedApart(c, s, s', waits[0].h, Cell(block.value, waits[0].held), torn);
      }
    }
  }

  lemma NotCachedWaiting(s: Store, w: Wait, torn: set<Digest>)
    requires Separate(s, torn) && w in s.pending
    ensures L.Find(s.cached, w.h).None?
  {
    hide L.Find;
    forall i | 0 <= i < |s.cached|
      ensures s.cached[i].0 != w.h
    {
      assert s.cached[i] in s.cached;
    }
  }

  lemma ShorterApart(c: Settings, s: Store, s': Store, torn: set<Digest>)
    requires Tidy(c, s) && Separate(s, torn)
    requires s'.cached == s.cached && s'.index == s.index && forall w | w in s'.pending :: w in s.pending
    ensures Separate(s', torn + Torn(s, s'))
  {
    hide L.Unique;
    assert Torn(s, s') == {};
  }

  /** A gentle message finds no key that it caches, and keeps it so. */
  lemma {:induction false} StepApart(c: Settings, s: Store, m: Msg, torn: set<Digest>)
    requires Kept(c, s) && Separate(s, torn) && Gentle(s, torn, m)
    ensures !Recaches(c, s, m)
    ensures var s' := Step(c, s, m); Separate(s', torn + Torn(s, s'))
  {
    hide S.Inv, Placed, Tidy, Removed, Released, Ended, Updated, Record, AfterGet, AfterGetLater, AfterFetch;
    hide AfterReadResult, Resized, Swept, AfterPut, AllMoves, Defragmented, Separate, Torn, Calm, Recaches;
    match m
    case Put(h, data, group, claim) => PutApart(c, s, h, data, group, claim, torn);
    case GroupEnd(group, abort) =>
      EndApart(c, s, group, abort, torn);
      Plain(c, s, m);
    case Gc(keep, force) =>
      SweptApart(c, s, keep, force, torn);
      Plain(c, s, m);
    case Get(h, loaded) =>
      GetApart(c, s, h, loaded, torn);
      Plain(c, s, m);
    case GetLater(h) =>
      LaterApart(c, s, h, torn);
      Plain(c, s, m);
    case ReadResult => ResultApart(c, s, torn);
    case Remove(h, force) =>
      RecordApart(c, s, h, force, torn);
      Plain(c, s, m);
    case Release(h) =>
      RecordApart(c, s, h, false, torn);
      Plain(c, s, m);
    case _ =>
      OtherCalm(c, s, m);
      CalmApart(c, s, Step(c, s, m), torn);
      Plain(c, s, m);
  }

  lemma Plain(c: Settings, s: Store, m: Msg)
    requires !m.Put? && !m.ReadResult?
    ensures !Recaches(c, s, m)
  {
  }

  lemma {:induction false} OtherCalm(c: Settings, s: Store, m: Msg)
    requires Ready(c, s)
    requires m.Resize? || m.Fetch? || m.Defragment? || m.Acquire? || m.Clear? || m.Pin? || m.Unpin?
    ensures Calm(s, Step(c, s, m))
  {
    hide S.Inv, Updated, Record, Calm, AllMoves, Defragmented, TargetFor, Touched, ReadAt;
    SelfCalm(s, s);
    match m
    case Resize(_) => SelfCalm(s, Step(c, s, m));
    case Fetch(_) => SelfCalm(s, Step(c, s, m));
    case Defragment(_, _) => SelfCalm(s, Step(c, s, m));
    case Acquire(h) => AllCalm(s, h);
    case Clear(h) => AllCalm(s, h);
    case Pin(h) => AllCalm(s, h);
    case Unpin(h) => AllCalm(s, h);
  }

  lemma AllCalm(s: Store, h: Digest)
    ensures forall r :: Calm(s, Updated(s, h, r))
  {
    hide Calm, Updated;
    forall r
      ensures Calm(s, Updated(s, h, r))
    {
      UpdatedCalm(s, h, r);
    }
  }

  /** In a store that starts with nothing cached and no get waiting, callers that read no
      hash at once while a get for it waits, and put no hash again that was removed while
      a get for it waited, never meet a released node: no put ever finds its key in the
      cache. */
  lemma {:induction false} CarefulOrderly(c: Settings, s: Store, msgs: seq<Msg>)
    requires StoreInv(c, s) && s.cached == [] && s.pending == [] && Careful(c, s, msgs)
    ensures Orderly(c, s, msgs) && Separate(Run(c, s, msgs), AllTorn(c, s, msgs))
    ensures forall m | Gentle(Run(c, s, msgs), AllTorn(c, s, msgs), m) :: !Recaches(c, Run(c, s, msgs), m)
  {
    hide Step, Kept, Counted, Receipted, Gentle, Recaches, Separate, Allowed, Torn;
    if msgs == [] {
      NothingApart(s);
    } else {
      var before, m := msgs[..|msgs| - 1], msgs[|msgs| - 1];
      CarefulOrderly(c, s, before);
      CarefulStep(c, Run(c, s, before), AllTorn(c, s, before), m);
    }
    var r, torn := Run(c, s, msgs), AllTorn(c, s, msgs);
    forall m | Gentle(r, torn, m)
      ensures !Recaches(c, r, m)
    {
      CarefulStep(c, r, torn, m);
    }
  }

  lemma {:induction false} CarefulStep(c: Settings, s: Store, torn: set<Digest>, m: Msg)
    requires StoreInv(c, s) && Separate(s, torn) && Gentle(s, torn, m)
    ensures Ready(c, s) && Allowed(c, s, m) && !Recaches(c, s, m)
    ensures Separate(Step(c, s, m), torn + Torn(s, Step(c, s, m)))
  {
    hide Step, Placed, Tidy, S.Inv, Counted, Receipted, Recaches, Separate, Dangles, Torn;
    StepApart(c, s, m, torn);
    DanglingRecaches(c, s, m);
  }

  lemma NothingApart(s: Store)
    requires s.cached == [] && s.pending == []
    ensures Separate(s, {})
  {
  }
}
