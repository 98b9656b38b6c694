/**
 Claims and pins: what each message that changes them does to the one record it finds,
 and what a pinned block survives.
 */
module BlockMarks {
  import opened Entries
  import opened Section
  import opened Shelf
  import opened BlockStore
  import S = Shelf
  import L = Lru
  import B = BlockRuns

  /** Nothing but the one record that messages find for the hash differs: that of the
      cache if it has a detached one, and else that of the index. */
  predicate OnlyRecord(s: Store, t: Store, h: Digest)
  {
    && t == s.(index := t.index, cached := t.cached)
    && t.index.Keys == s.index.Keys && |t.cached| == |s.cached|
    && (forall k | k in s.index && k != h :: t.index[k] == s.index[k])
    && (forall i | 0 <= i < |s.cached| && s.cached[i].0 != h :: t.cached[i] == s.cached[i])
    && (forall i | 0 <= i < |s.cached| ::
          t.cached[i].0 == s.cached[i].0 && t.cached[i].1.block == s.cached[i].1.block)
    && (if Orphaned(s.cached, h) then t.index == s.index else t.cached == s.cached)
  }

  /** What a message makes of the record it finds. */
  predicate Marked(m: Msg, r: Rec, r': Rec)
  {
    && r'.id == r.id && r'.slot == r.slot
    && match m
       case Pin(_) => r'.claims == r.claims && r'.pins == if r.pins < MAX_PINS then r.pins + 1 else r.pins
       case Unpin(_) => r'.claims == r.claims && r'.pins == if r.pins > 0 then r.pins - 1 else 0
       case Acquire(_) => r'.pins == r.pins && r'.claims == if r.claims < MAX_CLAIMS then r.claims + 1 else r.claims
       case Clear(_) => r'.pins == r.pins && r'.claims == 0
       case _ => false
  }

  lemma {:induction false} UpdatedOnly(s: Store, h: Digest, r: Rec)
    requires Record(s, h).Some? && L.Unique(s.cached)
    ensures OnlyRecord(s, Updated(s, h, r), h) && Record(Updated(s, h, r), h) == Some(r)
  {
    hide L.Find;
    B.UpdatedTwice(s, h, r, Record(s, h).value);
    var t := Updated(s, h, r);
    if Orphaned(s.cached, h) {
      var i := L.Find(s.cached, h).value;
      forall j | 0 <= j < |s.cached| && s.cached[j].0 != h
        ensures t.cached[j] == s.cached[j]
      {
        assert j != i;
      }
    }
  }

  lemma {:induction false} SameRecord(s: Store, h: Digest)
    ensures OnlyRecord(s, s, h)
  {
  }

  /** A pin, an unpin, a claim or the clearing of the claims changes the counts of the
      record it finds as it should, and nothing else; without a record it does nothing. */
  lemma {:induction false} MarkExact(c: Settings, s: Store, m: Msg)
    requires StoreInv(c, s) && (m.Pin? || m.Unpin? || m.Acquire? || m.Clear?)
    ensures var t := Step(c, s, m);
            && OnlyRecord(s, t, m.h)
            && (Record(s, m.h).None? ==> t == s)
            && (Record(s, m.h).Some? ==> Record(t, m.h).Some? && Marked(m, Record(s, m.h).value, Record(t, m.h).value))
  {
    hide Placed, Counted, Receipted, S.Inv, Updated, Record, OnlyRecord, L.Unique;
    SameRecord(s, m.h);
    if Record(s, m.h).Some? {
      var r := Record(s, m.h).value;
      UpdatedOnly(s, m.h, r.(claims := r.claims + 1));
      UpdatedOnly(s, m.h, r.(claims := 0));
      UpdatedOnly(s, m.h, r.(pins := r.pins + 1));
      if r.pins > 0 {
        UpdatedOnly(s, m.h, r.(pins := r.pins - 1));
      }
    }
  }

  /** An unpin undoes a pin, and a pin an unpin, away from the ends of the counter. */
  lemma {:induction false} UnpinUndoesPin(c: Settings, s: Store, h: Digest)
    requires StoreInv(c, s) && Record(s, h).Some?
    ensures StoreInv(c, Step(c, s, Pin(h))) && StoreInv(c, Step(c, s, Unpin(h)))
    ensures Record(s, h).value.pins < MAX_PINS ==> Step(c, Step(c, s, Pin(h)), Unpin(h)) == s
    ensures 0 < Record(s, h).value.pins <= MAX_PINS ==> Step(c, Step(c, s, Unpin(h)), Pin(h)) == s
  {
    hide Step, StoreInv, Updated, Record;
    StepKeepsInv(c, s, Pin(h));
    StepKeepsInv(c, s, Unpin(h));
    var q := Record(s, h).value;
    PinStep(c, s, h);
    if q.pins < MAX_PINS {
      B.UpdatedTwice(s, h, q.(pins := q.pins + 1), q);
      PinStep(c, Updated(s, h, q.(pins := q.pins + 1)), h);
    }
    if 0 < q.pins {
      B.UpdatedTwice(s, h, q.(pins := q.pins - 1), q);
      PinStep(c, Updated(s, h, q.(pins := q.pins - 1)), h);
    }
  }

  lemma PinStep(c: Settings, s: Store, h: Digest)
    requires StoreInv(c, s) && Record(s, h).Some?
    ensures Ready(c, s)
    ensures var q := Record(s, h).value;
            && (q.pins < MAX_PINS ==> Step(c, s, Pin(h)) == Updated(s, h, q.(pins := q.pins + 1)))
            && (q.pins > 0 ==> Step(c, s, Unpin(h)) == Updated(s, h, q.(pins := q.pins - 1)))
  {
    hide Placed, Tidy, Counted, Receipted, S.Inv, Updated, Record;
  }

  // ---- what a pinned block survives ----

  /** The hash is indexed, and nobody holds another record of it. */
  predicate Own(index: map<Digest, Rec>, cached: seq<(Digest, Cell)>, pending: seq<Wait>, h: Digest)
  {
    && h in index
    && (forall e | e in cached && e.0 == h :: e.1.held.Live?)
    && (forall w | w in pending && w.h == h :: w.held.Live?)
  }

  predicate Whole(s: Store, h: Digest)
  {
    Own(s.index, s.cached, s.pending, h)
  }

  /** The message deletes the block whatever its pins: a forced removal or sweep, the
      release of its last claim, or the abort of a put that stored it. */
  predicate Overrides(c: Settings, s: Store, m: Msg, h: Digest)
  {
    match m
    case Remove(k, force) => k == h && force
    case Gc(keep, force) => force && h !in keep
    case Release(k) => k == h && h in s.index && s.index[h].claims == 1
    case GroupEnd(g, abort) => abort && c.deleteOnAbort && h in Listed(s.receipts, g)
    case _ => false
  }

  /** The message deletes the block if it is neither claimed nor pinned. */
  predicate Threatens(m: Msg, h: Digest)
  {
    match m
    case Remove(k, force) => k == h && !force
    case Gc(keep, force) => !force && h !in keep
    case _ => false
  }

  /** The pins after a message, of which a put leaves 0 at first. */
  function PinsAfter(pins: nat, m: Msg, h: Digest): nat
  {
    if m == Pin(h) then (if pins < MAX_PINS then pins + 1 else pins)
    else if m == Unpin(h) then (if pins > 0 then pins - 1 else 0)
    else pins
  }

  lemma RecordOfWhole(s: Store, h: Digest)
    requires Whole(s, h)
    ensures !Orphaned(s.cached, h) && Record(s, h) == Some(s.index[h])
  {
    hide L.Find;
    var at := L.Find(s.cached, h);
    assert at.Some? ==> s.cached[at.value] in s.cached;
  }

  /** Other hashes go. */
  lemma {:induction false} DroppedWhole(c: Settings, s: Store, gone: set<Digest>, h: Digest)
    requires Whole(s, h) && gone <= s.index.Keys && h !in gone
    ensures var t := Dropped(c, s, gone); Whole(t, h) && t.index[h] == s.index[h]
  {
    hide L.Without, Wrap, Bytes;
    L.WithoutIs(s.cached, gone);
    var t := Dropped(c, s, gone);
    forall w | w in t.pending && w.h == h
      ensures w.held.Live?
    {
      var i :| 0 <= i < |t.pending| && t.pending[i] == w;
      assert s.pending[i] in s.pending;
    }
  }

  lemma {:induction false} DeletedWhole(c: Settings, s: Store, k: Digest, h: Digest)
    requires Whole(s, h) && k != h
    ensures var t := Deleted(c, s, k); Whole(t, h) && t.index[h] == s.index[h]
  {
    hide Dropped, L.Without, Wrap;
    if k in s.index {
      DroppedWhole(c, s, {k}, h);
    } else {
      L.WithoutIs(s.cached, {k});
    }
  }

  lemma {:induction false} UpdatedWhole(s: Store, k: Digest, r: Rec, h: Digest)
    requires Whole(s, h)
    ensures Whole(Updated(s, k, r), h)
    ensures Updated(s, k, r).index[h] == if k == h then r else s.index[h]
  {
    hide L.Find;
    if k == h {
      RecordOfWhole(s, h);
    }
    var t := Updated(s, k, r);
    if Orphaned(s.cached, k) {
      forall e | e in t.cached && e.0 == h
        ensures e.1.held.Live?
      {
        var j :| 0 <= j < |t.cached| && t.cached[j] == e;
        assert s.cached[j] in s.cached;
      }
    }
  }

  lemma {:induction false} RecordWhole(c: Settings, s: Store, k: Digest, force: bool, h: Digest)
    requires Whole(s, h)
    requires k == h ==> !force && s.index[h].pins > 0 && s.index[h].claims != 1
    ensures var t := Removed(c, s, k, force); Whole(t, h) && t.index[h].pins == s.index[h].pins
    ensures var t := Released(c, s, k); Whole(t, h) && t.index[h].pins == s.index[h].pins
  {
    hide Whole, Updated, Deleted, Record;
    RecordOfWhole(s, h);
    WholeIndexed(s, h);
    match Record(s, k) {
      case None =>
      case Some(r) =>
        UpdatedWhole(s, k, r.(pins := 0), h);
        if k != h {
          DeletedWhole(c, Updated(s, k, r.(pins := 0)), k, h);
          DeletedWhole(c, s, k, h);
        }
        if r.claims > 0 {
          UpdatedWhole(s, k, r.(claims := r.claims - 1), h);
          if k != h {
            DeletedWhole(c, Updated(s, k, r.(claims := r.claims - 1)), k, h);
          }
        }
    }
  }

  lemma WholeIndexed(s: Store, h: Digest)
    requires Whole(s, h)
    ensures h in s.index
  {
  }

  lemma {:induction false} ReleasedWhole(c: Settings, s: Store, h: Digest)
    requires Whole(s, h) && s.index[h].claims != 1
    ensures var t := Released(c, s, h); Whole(t, h) && t.index[h].pins == s.index[h].pins
  {
    hide Whole, Updated, Deleted, Record;
    RecordOfWhole(s, h);
    WholeIndexed(s, h);
    var r := s.index[h];
    if r.claims > 0 {
      UpdatedWhole(s, h, r.(claims := r.claims - 1), h);
    }
  }

  lemma {:induction false} EndWhole(c: Settings, s: Store, g: nat, abort: bool, h: Digest)
    requires Whole(s, h) && !Overrides(c, s, GroupEnd(g, abort), h)
    ensures var t := Ended(c, s, g, abort); Whole(t, h) && t.index[h] == s.index[h]
  {
    hide FindGroup, Dropped;
    var gone := Indexed(s.index, Listed(s.receipts, g));
    var s1 := s.(index := Unpinned(s.index, gone));
    assert s1.index.Keys == s.index.Keys;
    if h !in gone {
      DroppedWhole(c, s1, gone, h);
    }
  }

  lemma {:induction false} CachedWhole(c: Settings, s: Store, k: Digest, cell: Cell, h: Digest)
    requires Whole(s, h) && L.Unique(s.cached) && |s.cached| <= c.lruSize && c.lruSize > 0
    requires !L.Reused(s.cached, k, c.lruSize) && (k == h ==> cell.held.Live?)
    ensures Whole(s.(cached := L.Admitted(s.cached, k, cell, c.lruSize)), h)
  {
    hide L.Admitted, L.Find, L.Reused, L.Unique;
    L.AdmittedKeeps(s.cached, k, cell, c.lruSize);
  }

  lemma {:induction false} RaisedWhole(s: Store, k: Digest, h: Digest)
    requires Whole(s, h) && L.Unique(s.cached)
    ensures Whole(s.(cached := L.Got(s.cached, k)), h)
  {
    hide L.Got, L.Find, L.Put, L.Deleted, L.Unique;
    L.OpsFrom(s.cached, k, Cell([], Live), 1);
  }

  lemma {:induction false} PutWhole(c: Settings, s: Store, k: Digest, data: Block, group: nat, claim: bool, h: Digest)
    requires Ready(c, s) && Tidy(c, s) && Whole(s, h) && !Dangles(c, s, Put(k, data, group, claim))
    ensures var t := AfterPut(c, s, k, data, group, claim); Whole(t, h) && t.index[h].pins == s.index[h].pins
  {
    hide S.Inv, S.Store, L.Admitted, Recorded, L.Unique, L.Reused, Refused, Wrap;
    if k !in s.index && !Refused(c, s, group) && |data| == c.pool.blockSize {
      CachedWhole(c, s, k, Cell(data, Live), h);
    }
  }

  lemma {:induction false} GetWhole(c: Settings, s: Store, k: Digest, loaded: bool, h: Digest)
    requires Kept(c, s) && Whole(s, h)
    ensures var t := AfterGet(c, s, k, loaded); Whole(t, h) && t.index == s.index
    ensures var t := AfterGetLater(s, k); Whole(t, h) && t.index == s.index
  {
    hide S.Inv, Placed, L.Admitted, L.Got, L.Find, Fetched, Touched, L.Unique, L.Reused;
    RaisedWhole(s, k, h);
    if k in s.index && L.Find(s.cached, k).None? && Fetched(c, s, k).Some? {
      B.NotReused(s.cached, k, c.lruSize);
      CachedWhole(c, s, k, Cell(Fetched(c, s, k).value, Live), h);
    }
  }

  lemma {:induction false} ResultWhole(c: Settings, s: Store, h: Digest)
    requires Kept(c, s) && Whole(s, h) && !Dangles(c, s, ReadResult)
    ensures var t := AfterReadResult(c, s); Whole(t, h) && t.index == s.index
  {
    hide S.Inv, Placed, L.Admitted, L.Unique, L.Reused, WaitingAt, WaitingElsewhere, Verified, RepliesTo;
    if s.answers != [] {
      var spot := s.answers[0].spot;
      var waits := WaitingAt(s.pending, s.index, spot);
      WaitingFrom(s.pending, s.index, spot);
      if waits != [] {
        assert waits[0] in waits;
        var block := Verified(c, waits[0].h, s.answers[0].data);
        if block.Some? {
          CachedWhole(c, s, waits[0].h, Cell(block.value, waits[0].held), h);
        }
      }
    }
  }

  lemma {:induction false} SweptWhole(c: Settings, s: Store, keep: set<Digest>, force: bool, h: Digest)
    requires Whole(s, h) && !Overrides(c, s, Gc(keep, force), h)
    requires Threatens(Gc(keep, force), h) ==> s.index[h].pins > 0
    ensures var t := Swept(c, s, keep, force); Whole(t, h) && t.index[h] == s.index[h]
  {
    hide Dropped;
    DroppedWhole(c, s, Doomed(s.index, keep, force), h);
  }

  lemma {:induction false} MarkWhole(c: Settings, s: Store, m: Msg, h: Digest)
    requires Ready(c, s) && Whole(s, h) && (m.Pin? || m.Unpin? || m.Acquire? || m.Clear?)
    ensures var t := Step(c, s, m); Whole(t, h) && t.index[h].pins == PinsAfter(s.index[h].pins, m, h)
  {
    hide S.Inv, Whole, Updated, Record;
    WholeIndexed(s, h);
    RecordOfWhole(s, h);
    if Record(s, m.h).Some? {
      var r := Record(s, m.h).value;
      if m.Acquire? {
        UpdatedWhole(s, m.h, r.(claims := r.claims + 1), h);
      } else if m.Clear? {
        UpdatedWhole(s, m.h, r.(claims := 0), h);
      } else if m.Pin? {
        UpdatedWhole(s, m.h, r.(pins := r.pins + 1), h);
      } else if r.pins > 0 {
        UpdatedWhole(s, m.h, r.(pins := r.pins - 1), h);
      }
    }
  }

  lemma OtherWhole(c: Settings, s: Store, m: Msg, h: Digest)
    requires Ready(c, s) && Whole(s, h) && (m.Resize? || m.Fetch? || m.Defragment?)
    ensures var t := Step(c, s, m); Whole(t, h) && t.index[h].pins == s.index[h].pins
  {
    hide S.Inv, AllMoves, Defragmented, TargetFor, Touched, ReadAt, Follow;
  }

  /** One message: the hash keeps its one record, with the pins it should have. */
  lemma {:induction false} StepWhole(c: Settings, s: Store, m: Msg, h: Digest)
    requires StoreInv(c, s) && Whole(s, h) && Allowed(c, s, m) && !Overrides(c, s, m, h)
    requires Threatens(m, h) ==> h in s.index && s.index[h].pins > 0
    ensures Ready(c, s)
    ensures var t := Step(c, s, m);
            Whole(t, h) && h in t.index && h in s.index && t.index[h].pins == PinsAfter(s.index[h].pins, m, h)
  {
    hide Whole, Placed, Tidy, S.Inv, Counted, Receipted, Dangles, Removed, Released, Ended, AfterGet, AfterGetLater;
    hide AfterReadResult, Resized, Swept, AfterPut, AllMoves, Defragmented, Updated, Record, AfterFetch;
    WholeIndexed(s, h);
    match m
    case Put(k, data, group, claim) =>
      PutWhole(c, s, k, data, group, claim, h);
      WholeIndexed(Step(c, s, m), h);
    case GroupEnd(group, abort) =>
      EndWhole(c, s, group, abort, h);
      WholeIndexed(Step(c, s, m), h);
    case Gc(keep, force) =>
      SweptWhole(c, s, keep, force, h);
      WholeIndexed(Step(c, s, m), h);
    case Get(k, loaded) => GetWhole(c, s, k, loaded, h);
    case GetLater(k) => GetWhole(c, s, k, false, h);
    case ReadResult => ResultWhole(c, s, h);
    case Remove(k, force) =>
      RemovedWhole(c, s, k, force, h);
      WholeIndexed(Step(c, s, m), h);
    case Release(k) =>
      if k == h {
        ReleasedWhole(c, s, h);
      } else {
        RecordWhole(c, s, k, false, h);
      }
      WholeIndexed(Step(c, s, m), h);
    case Resize(_) =>
      OtherWhole(c, s, m, h);
      WholeIndexed(Step(c, s, m), h);
    case Fetch(_) =>
      OtherWhole(c, s, m, h);
      WholeIndexed(Step(c, s, m), h);
    case Defragment(_, _) =>
      OtherWhole(c, s, m, h);
      WholeIndexed(Step(c, s, m), h);
    case _ =>
      MarkWhole(c, s, m, h);
      WholeIndexed(Step(c, s, m), h);
  }

  lemma {:induction false} RemovedWhole(c: Settings, s: Store, k: Digest, force: bool, h: Digest)
    requires Whole(s, h) && (k == h ==> !force && s.index[h].pins > 0)
    ensures var t := Removed(c, s, k, force); Whole(t, h) && t.index[h].pins == s.index[h].pins
  {
    hide Whole, Updated, Deleted, Record;
    RecordOfWhole(s, h);
    WholeIndexed(s, h);
    if k != h {
      RecordWhole(c, s, k, force, h);
    }
  }

  /** How often the block is pinned after a run that starts with it pinned so often. */
  function Pins(pins: nat, msgs: seq<Msg>, h: Digest): nat
  {
    if msgs == [] then pins else PinsAfter(Pins(pins, msgs[..|msgs| - 1], h), msgs[|msgs| - 1], h)
  }

  /** No message overrides pins, and every removal and sweep meets a block that was pinned
      more often than it was unpinned. */
  predicate Guarded(c: Settings, s: Store, msgs: seq<Msg>, h: Digest)
    requires Orderly(c, s, msgs) && h in s.index
  {
    if msgs == [] then true
    else
      var before, m := msgs[..|msgs| - 1], msgs[|msgs| - 1];
      && Guarded(c, s, before, h) && !Overrides(c, Run(c, s, before), m, h)
      && (Threatens(m, h) ==> Pins(s.index[h].pins, before, h) > 0)
  }

  /** In every run a block with one record stays in the index, with as many pins as it was
      given and not taken, as long as every unforced removal and sweep finds it pinned. */
  lemma {:induction false} PinnedSurvives(c: Settings, s: Store, msgs: seq<Msg>, h: Digest)
    requires Orderly(c, s, msgs) && Whole(s, h) && Guarded(c, s, msgs, h)
    ensures var r := Run(c, s, msgs);
            Whole(r, h) && r.index[h].pins == Pins(s.index[h].pins, msgs, h)
  {
    hide Step, StoreInv, Whole, Allowed, Overrides;
    WholeIndexed(s, h);
    if msgs != [] {
      var before := msgs[..|msgs| - 1];
      PinnedSurvives(c, s, before, h);
      WholeIndexed(Run(c, s, before), h);
      StepWhole(c, Run(c, s, before), msgs[|msgs| - 1], h);
    }
  }

  /** A block that was neither claimed nor pinned, once pinned, survives every removal that
      is not forced.  It survives a sweep if and only if the cache has no detached record
      of it, which would have got the pin. */
  lemma {:induction false} PinProtects(c: Settings, s: Store, h: Digest, keep: set<Digest>)
    requires StoreInv(c, s) && h in s.index && !Spared(s.index[h], false) && h !in keep
    requires Record(s, h).Some? && Record(s, h).value.pins < MAX_PINS
    ensures StoreInv(c, Step(c, s, Pin(h)))
    ensures h in Step(c, Step(c, s, Pin(h)), Remove(h, false)).index
    ensures h in Step(c, Step(c, s, Pin(h)), Gc(keep, false)).index <==> !Orphaned(s.cached, h)
  {
    hide Step, StoreInv, Record, OnlyRecord, Orphaned;
    SweepStep(c, s, keep);
    StepKeepsInv(c, s, Pin(h));
    MarkExact(c, s, Pin(h));
    var t := Step(c, s, Pin(h));
    OnlyOne(s, t, h);
    B.RemoveExact(c, t, h, false);
    SweepStep(c, t, keep);
    SweepExact(c, t, keep, false);
  }

  lemma OnlyOne(s: Store, t: Store, h: Digest)
    requires OnlyRecord(s, t, h) && h in s.index && Record(t, h).Some?
    ensures h in t.index && (Orphaned(s.cached, h) ==> t.index[h] == s.index[h])
    ensures !Orphaned(s.cached, h) ==> Record(t, h) == Some(t.index[h])
  {
    hide L.Find;
  }

  lemma SweepStep(c: Settings, s: Store, keep: set<Digest>)
    requires StoreInv(c, s)
    ensures Ready(c, s) && Step(c, s, Gc(keep, false)) == Swept(c, s, keep, false)
  {
    hide Placed, Tidy, Counted, Receipted, S.Inv, Swept;
  }
}
