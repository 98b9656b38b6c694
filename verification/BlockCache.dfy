/**
 The block cache actor: the handlers of its messages, over a pool of sections that
 loads and evicts slot maps as it goes.  Each handler does to the abstract store what
 `BlockStore.Step` says.
 */
module BlockCache {
  import opened Entries
  import opened Section
  import opened Shelf
  import opened BlockStore
  import L = Lru
  import P = Sections
  import R = Robin
  import S = Shelf

  datatype PutResult = New | Exists | NoRoom | Failed

  datatype RemoveResult = Done | Claimed | Pinned

  /** The ring of ended groups, in a buffer of fixed size. */
  class Tombs {
    const slots: array<nat>
    var count: nat
    var next: nat

    ghost predicate Valid()
      reads this
    {
      slots.Length == TOMBSTONES && count <= TOMBSTONES && next < TOMBSTONES && (count < TOMBSTONES ==> next == 0)
    }

    ghost function Contents(): seq<nat>
      requires Valid()
      reads this, slots
    {
      slots[..count]
    }

    constructor ()
      ensures Valid() && Contents() == [] && next == 0 && fresh(slots)
    {
      slots := new nat[TOMBSTONES];
      count, next := 0, 0;
    }

    method Contains(group: nat) returns (found: bool)
      requires Valid()
      ensures found <==> group in Contents()
    {
      var i := 0;
      while i < count
        invariant 0 <= i <= count
        invariant group !in slots[..i]
      {
        if slots[i] == group {
          return true;
        }
        i := i + 1;
      }
      found := false;
    }

    /** Append while there is room, then overwrite the oldest. */
    method Add(group: nat)
      requires Valid()
      modifies this, slots
      ensures Valid()
      ensures Contents() == if |old(Contents())| < TOMBSTONES then old(Contents()) + [group]
                            else old(Contents())[old(next) := group]
      ensures next == if |old(Contents())| < TOMBSTONES then old(next) else (old(next) + 1) % TOMBSTONES
    {
      if count < TOMBSTONES {
        slots[count] := group;
        count := count + 1;
        assert slots[..count] == old(slots[..count]) + [group];
      } else {
        slots[next] := group;
        assert slots[..count] == old(slots[..count])[old(next) := group];
        next := (next + 1) % TOMBSTONES;
      }
    }
  }

  class BlockCache {
    const settings: Settings
    const sections: P.Sections
    var index: map<Digest, Rec>
    var cached: seq<(Digest, Cell)>
    var pending: seq<Wait>
    var asked: seq<Spot>
    var answers: seq<Result>
    var count: U64
    var bytes: U64
    var limit: U64
    var receipts: seq<Receipt>
    const tombs: Tombs
    ghost var replies: seq<Reply>
    ghost var blocks: map<Digest, Block>
    ghost var creator: map<Digest, nat>
    ghost var ends: seq<nat>
    ghost var lag: nat

    ghost predicate Valid()
      reads this, sections, tombs, tombs.slots
    {
      && sections.Valid() && sections.config == settings.pool && tombs.Valid()
      && StoreInv(settings, State())
    }

    ghost function State(): Store
      requires tombs.Valid()
      reads this, sections, tombs, tombs.slots
    {
      Store(sections.Abs(), index, cached, pending, asked, answers, replies, count, bytes, limit, receipts,
            tombs.Contents(), tombs.next, blocks, creator, ends, lag)
    }

    constructor (settings: Settings, capacity: nat, limit: U64)
      requires Workable(settings) && capacity > 0
      ensures Valid() && State() == Empty(settings, limit) && fresh(sections) && fresh(tombs) && fresh(tombs.slots)
      ensures this.settings == settings
    {
      hide StoreInv, P.Coherent, P.Filed, P.SlotsOf, SoundAll, Started, TargetFor, Empty;
      EmptyIs(settings, limit);
      var pool := new P.Sections(settings.pool, capacity);
      pool.Start();
      pool.SetMaxBytes(limit);
      this.settings := settings;
      sections := pool;
      index, cached, pending, asked, answers, count, bytes := map[], [], [], [], [], 0, 0;
      this.limit := limit;
      receipts := [];
      tombs := new Tombs();
      replies, blocks, creator, ends, lag := [], map[], map[], [], 0;
      new;
      EmptyInv(settings, limit);
    }

    /** Take an entry out of the index and the cache; its slot stays in use. */
    method DeleteEntry(h: Digest)
      requires tombs.Valid() && L.Unique(cached)
      modifies this`index, this`count, this`bytes, this`cached, this`pending, this`lag
      ensures State() == Deleted(settings, old(State()), h) && L.Unique(cached)
    {
      hide P.SlotsOf, L.Unique, Dropped, Missed;
      if h in index {
        DropEntry(h);
      } else {
        MissEntry(h);
      }
    }

    method DropEntry(h: Digest)
      requires tombs.Valid() && L.Unique(cached) && h in index
      modifies this`index, this`count, this`bytes, this`cached, this`pending
      ensures State() == Dropped(settings, old(State()), {h}) && L.Unique(cached)
    {
      hide P.SlotsOf, L.Deleted, L.Without, L.Unique, Detach, Bytes;
      L.WithoutOne(cached, h);
      L.WithoutUnique(cached, {h});
      OneBlock(settings.pool.blockSize);
      index, pending, cached := index - {h}, Detach(pending, index, {h}), L.Deleted(cached, h);
      count, bytes := Wrap(count - 1), Wrap(bytes - settings.pool.blockSize);
    }

    method MissEntry(h: Digest)
      requires tombs.Valid() && L.Unique(cached)
      modifies this`count, this`bytes, this`cached, this`lag
      ensures State() == Missed(settings, old(State()), h) && L.Unique(cached)
    {
      hide P.SlotsOf, L.Deleted, L.Without, L.Unique;
      L.WithoutOne(cached, h);
      L.WithoutUnique(cached, {h});
      cached, lag := L.Deleted(cached, h), lag + 1;
      count, bytes := Wrap(count - 1), Wrap(bytes - settings.pool.blockSize);
    }

    method PutBlock(h: Digest, data: Block, group: nat, claim: bool) returns (result: PutResult)
      requires Valid() && !Dangles(settings, State(), Put(h, data, group, claim))
      modifies this, sections
      ensures Valid() && State() == Step(settings, old(State()), Put(h, data, group, claim))
      ensures result.Exists? <==> h in old(index)
      ensures result.New? <==> h !in old(index) && h in index
      ensures result.NoRoom? <==> h !in old(index) && Refused(settings, old(State()), group)
    {
      hide StoreInv, Step, Stored, S.Inv, P.SlotsOf, P.Coherent, P.Filed, FindGroup;
      ghost var s := State();
      PutCases(settings, s, h, data, group, claim);
      if h in index {
        var r := index[h];
        if claim && r.claims < MAX_CLAIMS {
          index := index[h := r.(claims := r.claims + 1)];
        }
        return Exists;
      }
      if limit > 0 && Wrap(bytes + settings.pool.blockSize) > limit {
        return NoRoom;
      }
      var gone := tombs.Contains(group);
      if group != 0 && gone {
        return NoRoom;
      }
      var stored := StoreBlock(h, data, group, claim);
      result := if stored then New else Failed;
    }

    method StoreBlock(h: Digest, data: Block, group: nat, claim: bool) returns (stored: bool)
      requires Valid() && h !in index && Ready(settings, State())
      modifies this, sections
      ensures sections.Valid()
      ensures stored <==> |data| == settings.pool.blockSize
      ensures State() == if stored then Stored(settings, old(State()), h, data, group, claim)
                         else old(State()).(shelf := old(State()).shelf.(robin := R.Rotated(old(State()).shelf.robin)))
    {
      hide P.SlotsOf, P.Coherent, P.Filed, StoreInv, Recorded, FindGroup, L.Admitted, S.Store, SoundAll, RoomyBut, At;
      InvKnown(settings.pool, sections.Abs());
      var code, id, slot := sections.WriteBlock(data);
      if code != 0 {
        return false;
      }
      Enter(h, Rec(id, slot, if claim then 1 else 0, 0), data, group);
      stored := true;
    }

    /** Add an entry to the index, the cache, the counters and the receipt. */
    method Enter(h: Digest, r: Rec, data: Block, group: nat)
      modifies this`index, this`cached, this`count, this`bytes, this`receipts, this`blocks, this`creator
      ensures index == old(index)[h := r]
      ensures cached == L.Admitted(old(cached), h, Cell(data, Live), settings.lruSize)
      ensures count == Wrap(old(count) + 1) && bytes == Wrap(old(bytes) + settings.pool.blockSize)
      ensures receipts == Recorded(old(receipts), group, h)
      ensures blocks == old(blocks)[h := data] && creator == old(creator)[h := group]
    {
      hide Recorded, L.Admitted;
      index := index[h := r];
      cached := L.Admitted(cached, h, Cell(data, Live), settings.lruSize);
      count := Wrap(count + 1);
      bytes := Wrap(bytes + settings.pool.blockSize);
      RecordBlock(group, h);
      blocks := blocks[h := data];
      creator := creator[h := group];
    }

    /** Search the receipts. */
    method FindReceipt(group: nat) returns (at: Option<nat>)
      ensures at == FindGroup(receipts, group)
    {
      hide FindGroup;
      var i := 0;
      while i < |receipts|
        invariant 0 <= i <= |receipts|
        invariant forall k | 0 <= k < i :: receipts[k].group != group
      {
        if receipts[i].group == group {
          return Some(i);
        }
        i := i + 1;
      }
      at := None;
    }

    method RecordBlock(group: nat, h: Digest)
      modifies this`receipts
      ensures receipts == Recorded(old(receipts), group, h)
    {
      hide FindGroup;
      if group == 0 {
        return;
      }
      var at := FindReceipt(group);
      if at.Some? {
        receipts := receipts[at.value := Receipt(group, receipts[at.value].hashes + [h])];
      } else {
        receipts := receipts + [Receipt(group, [h])];
      }
    }

    /** A put is over: drop its receipt, deleting its blocks if it was aborted. */
    method EndGroup(group: nat, abort: bool)
      requires Valid()
      modifies this, tombs, tombs.slots
      ensures Valid() && State() == Step(settings, old(State()), GroupEnd(group, abort))
    {
      hide StoreInv, S.Inv, P.SlotsOf, P.Coherent, P.Filed, Closed, Tombstoned, L.Unique;
      hide Step;
      IsReady(settings, State());
      StepKeepsInv(settings, State(), GroupEnd(group, abort));
      EndIs(settings, State(), group, abort);
      CloseReceipt(group, abort);
      AddTomb(group);
    }

    method AddTomb(group: nat)
      requires tombs.Valid()
      modifies this`ends, tombs, tombs.slots
      ensures tombs.Valid() && State() == Tombstoned(old(State()), group)
    {
      hide P.SlotsOf;
      tombs.Add(group);
      ends := ends + [group];
    }

    method CloseReceipt(group: nat, abort: bool)
      requires tombs.Valid() && L.Unique(cached)
      modifies this`index, this`count, this`bytes, this`cached, this`pending, this`lag, this`receipts
      ensures State() == Closed(settings, old(State()), group, abort)
    {
      hide P.SlotsOf, FindGroup, DroppedAll, L.Unique;
      var at := FindReceipt(group);
      if at.Some? {
        if abort && settings.deleteOnAbort {
          DeleteListed(receipts[at.value].hashes);
        }
        receipts := L.Drop(receipts, at.value);
      }
    }

    /** Delete what is still indexed; pins do not count. */
    method DeleteListed(hashes: seq<Digest>)
      requires tombs.Valid() && L.Unique(cached)
      modifies this`index, this`count, this`bytes, this`cached, this`pending, this`lag
      ensures State() == DroppedAll(settings, old(State()), hashes)
    {
      hide P.SlotsOf, Deleted, DroppedAll, L.Unique;
      ghost var s := State();
      DroppedNone(settings, s);
      var i := 0;
      while i < |hashes|
        invariant 0 <= i <= |hashes| && L.Unique(cached)
        invariant State() == DroppedAll(settings, s, hashes[..i])
      {
        assert hashes[..i + 1] == hashes[..i] + [hashes[i]];
        DroppedOneMore(settings, s, hashes[..i], hashes[i]);
        if hashes[i] in index {
          index := index[hashes[i] := index[hashes[i]].(pins := 0)];
          DeleteEntry(hashes[i]);
        }
        i := i + 1;
      }
      assert hashes[..i] == hashes;
    }

    /** The sweep over a snapshot of the entries, in whatever order the index lists
        them. */
    method Sweep(keep: set<Digest>, force: bool) returns (tally: Tally)
      requires Valid()
      modifies this`index, this`count, this`bytes, this`cached, this`pending, this`lag
      ensures Valid() && State() == Step(settings, old(State()), Gc(keep, force))
      ensures tally == TallyOf(old(index), keep, force)
    {
      hide StoreInv, S.Inv, P.SlotsOf, P.Coherent, P.Filed, Deleted, L.Unique, Doomed, Dropped, TallyOf;
      ghost var s := State();
      IsReady(settings, State());
      StepKeepsInv(settings, s, Gc(keep, force));
      var entries := index;
      var todo := entries.Keys;
      ghost var seen: map<Digest, Rec> := map[];
      SweepStart(settings, s, keep, force);
      tally := Tally(0, 0, 0, 0, 0);
      while todo != {}
        invariant L.Unique(cached) && todo == entries.Keys - seen.Keys && Part(seen, entries)
        invariant State() == SweptPart(settings, s, seen, keep, force)
        invariant tally == TallyOf(seen, keep, force)
        decreases todo
      {
        var h :| h in todo;
        var r := entries[h];
        SweepMore(settings, s, seen, h, keep, force);
        TallyMore(seen, h, r, keep, force);
        tally := tally.(total := tally.total + 1);
        if h in keep {
          tally := tally.(kept := tally.kept + 1);
        } else if !force && r.claims > 0 {
          tally := tally.(claimed := tally.claimed + 1);
        } else if !force && r.pins > 0 {
          tally := tally.(pinned := tally.pinned + 1);
        } else {
          DeleteEntry(h);
          tally := tally.(deleted := tally.deleted + 1);
        }
        seen := seen[h := r];
        todo := todo - {h};
      }
      AllSeen(seen, entries);
    }

    method RemoveBlock(h: Digest, force: bool) returns (result: RemoveResult)
      requires Valid()
      modifies this`index, this`count, this`bytes, this`cached, this`pending, this`lag
      ensures Valid() && State() == Step(settings, old(State()), Remove(h, force))
      ensures result.Done? ==> h !in index
      ensures result.Done? || State() == old(State())
      ensures var r := Record(old(State()), h);
              && (result.Claimed? <==> r.Some? && !force && r.value.claims > 0)
              && (result.Pinned? <==> r.Some? && !force && r.value.claims == 0 && r.value.pins > 0)
    {
      hide StoreInv, S.Inv, P.SlotsOf, Deleted, Record, Updated, L.Unique;
      IsReady(settings, State());
      StepKeepsInv(settings, State(), Remove(h, force));
      var r := FindRecord(h);
      if r.None? {
        FoundIndexed(State(), h);
        return Done;
      }
      if !force && r.value.claims > 0 {
        return Claimed;
      }
      if !force && r.value.pins > 0 {
        return Pinned;
      }
      if r.value.pins > 0 {
        SetRecord(h, r.value.(pins := 0));
      }
      DeletedGone(settings, State(), h);
      DeleteEntry(h);
      result := Done;
    }

    /** A get that is answered at once.  What the pool reads is checked against the
        hash. */
    method GetBlock(h: Digest) returns (answer: Option<Block>)
      requires Valid()
      modifies this`cached, sections
      ensures Valid()
      ensures State() == Step(settings, old(State()), Get(h, LoadedNow(old(index), h, old(sections.lru))))
      ensures answer == Answer(settings, old(State()), h)
    {
      hide StoreInv, S.Inv, L.Find, L.Admitted, L.Got, Touched, At;
      IsReady(settings, State());
      StepKeepsInv(settings, State(), Get(h, LoadedNow(index, h, sections.lru)));
      if h !in index {
        return None;
      }
      var at := L.Find(cached, h);
      if at.Some? {
        answer := Some(cached[at.value].1.block);
        cached := L.Got(cached, h);
        return;
      }
      answer := sections.ReadBlock(index[h].id, index[h].slot);
      if answer.Some? && settings.hash(answer.value) != h {
        answer := None;
      }
      if answer.Some? {
        cached := L.Admitted(cached, h, Cell(answer.value, Live), settings.lruSize);
      }
    }

    /** Compact the sparse sections and rewrite the index to follow the moves. */
    method Compact(threshold: real) returns (moved: nat)
      requires Valid()
      modifies this`index, sections
      ensures Valid()
      ensures State() == Step(settings, old(State()), Defragment(P.IdsOf(old(sections.lru)), threshold))
      ensures moved == |AllMoves(settings.pool, old(sections.Abs()), P.IdsOf(old(sections.lru)), threshold)|
    {
      hide StoreInv, S.Inv, AllMoves, Defragmented, Follow, P.SlotsOf, P.Coherent, P.Filed;
      ghost var ids := P.IdsOf(sections.lru);
      P.IdsDistinct(settings.pool.size, sections.capacity, sections.lru, sections.disk);
      IsReady(settings, State());
      StepKeepsInv(settings, State(), Defragment(ids, threshold));
      var moves := sections.Defragment(threshold);
      moved := |moves|;
      var todo := index.Keys;
      ghost var start := index;
      while todo != {}
        modifies this`index
        invariant todo <= index.Keys == start.Keys
        invariant forall h | h in index ::
                    index[h] == if h in todo then start[h] else Rewritten(start, moves)[h]
        decreases todo
      {
        var h :| h in todo;
        var r := index[h];
        var slot := FollowMoves(moves, r.id, r.slot);
        index := index[h := r.(slot := slot)];
        todo := todo - {h};
      }
      assert index == Rewritten(start, moves);
    }

    /** The record of a hash: that of the cache, then that of the index. */
    method FindRecord(h: Digest) returns (r: Option<Rec>)
      requires tombs.Valid()
      ensures r == Record(State(), h)
    {
      hide L.Find, P.SlotsOf;
      var at := L.Find(cached, h);
      if at.Some? && cached[at.value].1.held.Detached? {
        return Some(cached[at.value].1.held.rec);
      }
      r := if h in index then Some(index[h]) else None;
    }

    method SetRecord(h: Digest, r: Rec)
      requires tombs.Valid() && L.Unique(cached)
      modifies this`index, this`cached
      ensures State() == Updated(old(State()), h, r) && L.Unique(cached)
    {
      hide P.SlotsOf, L.Find;
      var at := L.Find(cached, h);
      if at.Some? && cached[at.value].1.held.Detached? {
        cached := cached[at.value := (h, Cell(cached[at.value].1.block, Detached(r)))];
      } else if h in index {
        index := index[h := r];
      }
    }

    /** One more claim, unless the counter is full. */
    method AcquireClaim(h: Digest) returns (found: bool, overflow: bool)
      requires Valid()
      modifies this`index, this`cached
      ensures Valid() && State() == Step(settings, old(State()), Acquire(h))
      ensures found <==> Record(old(State()), h).Some?
      ensures overflow <==> found && Record(old(State()), h).value.claims >= MAX_CLAIMS
    {
      hide StoreInv, S.Inv, P.SlotsOf, P.Coherent, P.Filed, L.Unique, Updated, Record;
      IsReady(settings, State());
      StepKeepsInv(settings, State(), Acquire(h));
      var r := FindRecord(h);
      found, overflow := r.Some?, false;
      if found {
        if r.value.claims >= MAX_CLAIMS {
          overflow := true;
        } else {
          SetRecord(h, r.value.(claims := r.value.claims + 1));
        }
      }
    }

    /** Give a claim back; the last one takes the block with it. */
    method ReleaseClaim(h: Digest)
      requires Valid()
      modifies this`index, this`count, this`bytes, this`cached, this`pending, this`lag
      ensures Valid() && State() == Step(settings, old(State()), Release(h))
    {
      hide StoreInv, S.Inv, P.SlotsOf, P.Coherent, P.Filed, L.Unique, Updated, Record, Deleted;
      IsReady(settings, State());
      StepKeepsInv(settings, State(), Release(h));
      var r := FindRecord(h);
      if r.Some? && r.value.claims > 0 {
        SetRecord(h, r.value.(claims := r.value.claims - 1));
        if r.value.claims == 1 {
          DeleteEntry(h);
        }
      }
    }

    method ClearClaims(h: Digest)
      requires Valid()
      modifies this`index, this`cached
      ensures Valid() && State() == Step(settings, old(State()), Clear(h))
    {
      hide StoreInv, S.Inv, P.SlotsOf, P.Coherent, P.Filed, L.Unique, Updated, Record;
      IsReady(settings, State());
      StepKeepsInv(settings, State(), Clear(h));
      var r := FindRecord(h);
      if r.Some? {
        SetRecord(h, r.value.(claims := 0));
      }
    }

    /** Pins saturate instead of wrapping, in both directions. */
    method PinBlock(h: Digest)
      requires Valid()
      modifies this`index, this`cached
      ensures Valid() && State() == Step(settings, old(State()), Pin(h))
    {
      hide StoreInv, S.Inv, P.SlotsOf, P.Coherent, P.Filed, L.Unique, Updated, Record;
      IsReady(settings, State());
      StepKeepsInv(settings, State(), Pin(h));
      var r := FindRecord(h);
      if r.Some? && r.value.pins < MAX_PINS {
        SetRecord(h, r.value.(pins := r.value.pins + 1));
      }
    }

    method UnpinBlock(h: Digest)
      requires Valid()
      modifies this`index, this`cached
      ensures Valid() && State() == Step(settings, old(State()), Unpin(h))
    {
      hide StoreInv, S.Inv, P.SlotsOf, P.Coherent, P.Filed, L.Unique, Updated, Record;
      IsReady(settings, State());
      StepKeepsInv(settings, State(), Unpin(h));
      var r := FindRecord(h);
      if r.Some? && r.value.pins > 0 {
        SetRecord(h, r.value.(pins := r.value.pins - 1));
      }
    }

    /** A limit sets the ceiling of the pool, and a positive one recomputes the counters. */
    method SetLimit(newLimit: U64)
      requires Valid()
      modifies this`limit, this`count, this`bytes, this`lag, sections`target
      ensures Valid() && State() == Step(settings, old(State()), Resize(newLimit))
    {
      hide StoreInv, S.Inv, P.SlotsOf, P.Coherent, P.Filed, Bytes, TargetFor;
      hide Step;
      IsReady(settings, State());
      StepKeepsInv(settings, State(), Resize(newLimit));
      ResizeIs(settings, State(), newLimit);
      limit := newLimit;
      sections.SetMaxBytes(newLimit);
      if newLimit > 0 {
        count := Wrap(|index|);
        bytes := Wrap(Bytes(|index|, settings.pool.blockSize));
        lag := 0;
      }
    }

    /** The first half of an asynchronous get: answer it, or ask the pool. */
    method BeginGet(h: Digest) returns (reply: Option<Reply>)
      requires Valid()
      modifies this`cached, this`pending, this`asked, this`replies
      ensures Valid() && State() == Step(settings, old(State()), GetLater(h))
      ensures replies == old(replies) + if reply.Some? then [reply.value] else []
    {
      hide StoreInv, S.Inv, P.SlotsOf, P.Coherent, P.Filed, L.Find, L.Got, At;
      hide Step;
      IsReady(settings, State());
      StepKeepsInv(settings, State(), GetLater(h));
      GetLaterIs(settings, State(), h);
      reply := None;
      if h in index {
        var at := L.Find(cached, h);
        if at.Some? {
          reply := Some(Reply(h, Some(cached[at.value].1.block), true));
          cached := L.Got(cached, h);
        } else {
          pending := [Wait(h, Live)] + pending;
          asked := asked + [Spot(index[h].id, index[h].slot)];
        }
      } else {
        reply := Some(Reply(h, None, false));
      }
      if reply.Some? {
        replies := replies + [reply.value];
      }
    }

    /** The pool handles the oldest read it was asked for. */
    method FetchNext()
      requires Valid()
      modifies this`asked, this`answers, sections
      ensures Valid()
      ensures State() == Step(settings, old(State()), Fetch(FetchLoaded(old(asked), old(sections.lru))))
    {
      hide StoreInv, S.Inv, L.Find, Touched, At;
      IsReady(settings, State());
      StepKeepsInv(settings, State(), Fetch(FetchLoaded(asked, sections.lru)));
      if asked == [] {
        return;
      }
      var spot := asked[0];
      asked := asked[1..];
      var data := sections.ReadBlock(spot.id, spot.slot);
      answers := answers + [Result(spot, data)];
    }

    /** The newest get that waits for a spot. */
    method FindWaiting(spot: Spot) returns (w: Option<Wait>)
      ensures var waits := WaitingAt(pending, index, spot);
              w == if waits == [] then None else Some(waits[0])
    {
      var i := 0;
      while i < |pending|
        invariant 0 <= i <= |pending| && WaitingAt(pending[..i], index, spot) == []
      {
        assert pending[..i + 1][..i] == pending[..i];
        if Where(index, pending[i].h, pending[i].held) == Some(spot) {
          FirstWaiting(pending, index, spot, i);
          return Some(pending[i]);
        }
        i := i + 1;
      }
      assert pending[..i] == pending;
      w := None;
    }

    /** Take every get that waits for a spot off the list and answer it. */
    method ResolveAll(spot: Spot, block: Option<Block>) returns (sent: seq<Reply>)
      modifies this`pending
      ensures sent == RepliesTo(WaitingAt(old(pending), index, spot), block)
      ensures pending == WaitingElsewhere(old(pending), index, spot)
    {
      var i, rest := 0, [];
      sent := [];
      while i < |pending|
        invariant 0 <= i <= |pending| && pending == old(pending)
        invariant sent == RepliesTo(WaitingAt(pending[..i], index, spot), block)
        invariant rest == WaitingElsewhere(pending[..i], index, spot)
      {
        assert pending[..i + 1][..i] == pending[..i];
        if Where(index, pending[i].h, pending[i].held) == Some(spot) {
          RepliesMore(WaitingAt(pending[..i], index, spot), pending[i], block);
          sent := sent + [Reply(pending[i].h, block, true)];
        } else {
          rest := rest + [pending[i]];
        }
        i := i + 1;
      }
      assert pending[..i] == pending;
      pending := rest;
    }

    /** Check what was read against the hash of the newest get that waits for it, and
        cache it if it is right. */
    method Check(result: Result) returns (block: Option<Block>)
      modifies this`cached
      ensures var waits := WaitingAt(pending, index, result.spot);
              && block == (if waits == [] then None else Verified(settings, waits[0].h, result.data))
              && cached == if block.None? then old(cached)
                           else L.Admitted(old(cached), waits[0].h, Cell(block.value, waits[0].held), settings.lruSize)
    {
      hide WaitingAt, L.Admitted;
      block := None;
      if result.data.Some? {
        var first := FindWaiting(result.spot);
        if first.Some? && settings.hash(result.data.value) == first.value.h {
          block := result.data;
          cached := L.Admitted(cached, first.value.h, Cell(block.value, first.value.held), settings.lruSize);
        }
      }
    }

    /** The result of the oldest read arrives. */
    method FinishGet() returns (sent: seq<Reply>)
      requires Valid() && !Dangles(settings, State(), ReadResult)
      modifies this`answers, this`pending, this`cached, this`replies
      ensures Valid() && State() == Step(settings, old(State()), ReadResult)
      ensures replies == old(replies) + sent
    {
      hide StoreInv, S.Inv, P.SlotsOf, P.Coherent, P.Filed, L.Admitted, At, Verified;
      hide WaitingAt, WaitingElsewhere, RepliesTo;
      hide Step;
      IsReady(settings, State());
      StepKeepsInv(settings, State(), ReadResult);
      ResultIs(settings, State());
      sent := [];
      if answers == [] {
        return;
      }
      var result := answers[0];
      var block := Check(result);
      sent := ResolveAll(result.spot, block);
      answers, replies := answers[1..], replies + sent;
    }

    /** The messages that change a count of one entry. */
    method DispatchMark(r: Request) returns (ghost m: Msg)
      requires Valid()
      requires r.AcquireRequest? || r.ReleaseRequest? || r.ClearRequest? || r.PinRequest? || r.UnpinRequest?
      modifies this
      ensures Valid() && Serves(r, m) && Ready(settings, old(State()))
      ensures State() == Step(settings, old(State()), m)
    {
      hide StoreInv, Step, S.Inv, P.Coherent, P.Filed, P.SlotsOf, SoundAll, Dangles;
      IsReady(settings, State());
      match r
      case AcquireRequest(h) =>
        var _, _ := AcquireClaim(h);
        m := Acquire(h);
      case ReleaseRequest(h) =>
        ReleaseClaim(h);
        m := Release(h);
      case ClearRequest(h) =>
        ClearClaims(h);
        m := Clear(h);
      case PinRequest(h) =>
        PinBlock(h);
        m := Pin(h);
      case UnpinRequest(h) =>
        UnpinBlock(h);
        m := Unpin(h);
    }

    /** The messages of a get. */
    method DispatchGet(r: Request) returns (ghost m: Msg)
      requires Valid() && (r.GetRequest? || r.LaterRequest? || r.FetchRequest? || r.ResultRequest?)
      requires !Unsafe(settings, State(), r)
      modifies this, sections
      ensures Valid() && Serves(r, m) && Ready(settings, old(State()))
      ensures State() == Step(settings, old(State()), m)
    {
      hide StoreInv, Step, S.Inv, P.Coherent, P.Filed, P.SlotsOf, SoundAll, Dangles;
      IsReady(settings, State());
      match r
      case GetRequest(h) =>
        m := Get(h, LoadedNow(index, h, sections.lru));
        var _ := GetBlock(h);
      case LaterRequest(h) =>
        var _ := BeginGet(h);
        m := GetLater(h);
      case FetchRequest =>
        m := Fetch(FetchLoaded(asked, sections.lru));
        FetchNext();
      case ResultRequest =>
        var _ := FinishGet();
        m := ReadResult;
    }

    method Dispatch(r: Request) returns (ghost m: Msg)
      requires Valid() && !Unsafe(settings, State(), r)
      modifies this, sections, tombs, tombs.slots
      ensures Valid() && Serves(r, m) && Ready(settings, old(State()))
      ensures State() == Step(settings, old(State()), m)
    {
      hide StoreInv, Step, S.Inv, P.Coherent, P.Filed, P.SlotsOf, SoundAll, Dangles;
      IsReady(settings, State());
      match r
      case PutRequest(h, data, group, claim) =>
        var _ := PutBlock(h, data, group, claim);
        m := Put(h, data, group, claim);
      case EndRequest(group, abort) =>
        EndGroup(group, abort);
        m := GroupEnd(group, abort);
      case SweepRequest(keep, force) =>
        var _ := Sweep(keep, force);
        m := Gc(keep, force);
      case RemoveRequest(h, force) =>
        var _ := RemoveBlock(h, force);
        m := Remove(h, force);
      case CompactRequest(threshold) =>
        LoadedDistinct(sections);
        m := Defragment(P.IdsOf(sections.lru), threshold);
        var _ := Compact(threshold);
      case ResizeRequest(newLimit) =>
        SetLimit(newLimit);
        m := Resize(newLimit);
      case GetRequest(_) => m := DispatchGet(r);
      case LaterRequest(_) => m := DispatchGet(r);
      case FetchRequest => m := DispatchGet(r);
      case ResultRequest => m := DispatchGet(r);
      case _ => m := DispatchMark(r);
    }

    /** The test for such a request.  The source does not make it. */
    method WouldDangle(r: Request) returns (unsafe: bool)
      requires Valid()
      ensures unsafe <==> Unsafe(settings, State(), r)
    {
      hide StoreInv, P.Coherent, P.Filed, P.SlotsOf, SoundAll, L.Reused, WaitingAt, Verified;
      unsafe := false;
      match r
      case PutRequest(h, data, group, claim) =>
        var gone := tombs.Contains(group);
        var room := limit == 0 || Wrap(bytes + settings.pool.blockSize) <= limit;
        if h !in index && room && (group == 0 || !gone) && |data| == settings.pool.blockSize {
          unsafe := L.Reused(cached, h, settings.lruSize);
        }
      case ResultRequest =>
        if answers != [] {
          var first := FindWaiting(answers[0].spot);
          if first.Some? && Verified(settings, first.value.h, answers[0].data).Some? {
            unsafe := L.Reused(cached, first.value.h, settings.lruSize);
          }
        }
      case _ =>
    }

    /** Whatever requests arrive, with sections loaded and evicted as the pool sees fit,
        the cache goes through an orderly run of the store, up to the first request, if
        any, that would leave it with a released node. */
    method Serve(requests: seq<Request>) returns (served: nat, ghost msgs: seq<Msg>)
      requires Valid()
      modifies this, sections, tombs, tombs.slots
      ensures Valid() && served <= |requests| && (served < |requests| ==> Unsafe(settings, State(), requests[served]))
      ensures |msgs| == served && forall i | 0 <= i < served :: Serves(requests[i], msgs[i])
      ensures Orderly(settings, old(State()), msgs) && State() == Run(settings, old(State()), msgs)
    {
      hide StoreInv, Step, Run, Orderly, Allowed, P.Coherent, P.Filed, P.SlotsOf, SoundAll, Dangles;
      msgs := [];
      RunNone(settings, State());
      served := 0;
      while served < |requests|
        invariant served <= |requests| && Valid()
        invariant |msgs| == served && forall k | 0 <= k < served :: Serves(requests[k], msgs[k])
        invariant Orderly(settings, old(State()), msgs) && State() == Run(settings, old(State()), msgs)
        decreases |requests| - served
      {
        var unsafe := WouldDangle(requests[served]);
        if unsafe {
          return;
        }
        ghost var before := State();
        ghost var m := Dispatch(requests[served]);
        ServedAllowed(settings, before, requests[served], m);
        RunMore(settings, old(State()), msgs, m);
        msgs := msgs + [m];
        served := served + 1;
      }
    }
  }

  lemma EmptyIs(c: Settings, limit: U64)
    ensures Empty(c, limit) ==
            Store(Started(c.pool, Shelf(map[], [], 0, 0)).(target := TargetFor(c.pool, limit)),
                  map[], [], [], [], [], [], 0, 0, limit, [], [], 0, map[], map[], [], 0)
  {
    hide Started, TargetFor;
    assert Bytes(0, c.pool.blockSize) == 0;
  }

  lemma IsReady(c: Settings, s: Store)
    requires StoreInv(c, s)
    ensures Ready(c, s) && L.Unique(s.cached)
  {
  }

  lemma LoadedDistinct(pool: P.Sections)
    requires pool.Valid()
    ensures Distinct(P.IdsOf(pool.lru))
  {
    P.IdsDistinct(pool.config.size, pool.capacity, pool.lru, pool.disk);
  }

  lemma ResizeIs(c: Settings, s: Store, limit: U64)
    requires Ready(c, s)
    ensures Step(c, s, Resize(limit)) == Resized(c, s, limit)
  {
  }

  lemma EndIs(c: Settings, s: Store, g: nat, abort: bool)
    requires Ready(c, s)
    ensures Step(c, s, GroupEnd(g, abort)) == Tombstoned(Closed(c, s, g, abort), g)
  {
  }

  lemma GetLaterIs(c: Settings, s: Store, h: Digest)
    requires Ready(c, s)
    ensures Step(c, s, GetLater(h)) == AfterGetLater(s, h)
  {
  }

  lemma ResultIs(c: Settings, s: Store)
    requires Ready(c, s)
    ensures Step(c, s, ReadResult) == AfterReadResult(c, s)
  {
  }

  /** A message to the cache, or a turn of the pool, as its sender sees it. */
  datatype Request =
    | PutRequest(h: Digest, data: Block, group: nat, claim: bool)
    | EndRequest(group: nat, abort: bool)
    | SweepRequest(keep: set<Digest>, force: bool)
    | RemoveRequest(h: Digest, force: bool)
    | GetRequest(h: Digest)
    | CompactRequest(threshold: real)
    | ResizeRequest(limit: U64)
    | LaterRequest(h: Digest)
    | FetchRequest
    | ResultRequest
    | AcquireRequest(h: Digest)
    | ReleaseRequest(h: Digest)
    | ClearRequest(h: Digest)
    | PinRequest(h: Digest)
    | UnpinRequest(h: Digest)

  /** The request and the transition it causes; which sections are loaded is up to the
      pool. */
  predicate Serves(r: Request, m: Msg)
  {
    match r
    case PutRequest(h, data, group, claim) => m == Put(h, data, group, claim)
    case EndRequest(group, abort) => m == GroupEnd(group, abort)
    case SweepRequest(keep, force) => m == Gc(keep, force)
    case RemoveRequest(h, force) => m == Remove(h, force)
    case GetRequest(h) => m.Get? && m.h == h
    case CompactRequest(threshold) => m.Defragment? && m.threshold == threshold && Distinct(m.ids)
    case ResizeRequest(limit) => m == Resize(limit)
    case LaterRequest(h) => m == GetLater(h)
    case FetchRequest => m.Fetch?
    case ResultRequest => m == ReadResult
    case AcquireRequest(h) => m == Acquire(h)
    case ReleaseRequest(h) => m == Release(h)
    case ClearRequest(h) => m == Clear(h)
    case PinRequest(h) => m == Pin(h)
    case UnpinRequest(h) => m == Unpin(h)
  }

  /** The request would leave the cache with a released node. */
  ghost predicate Unsafe(c: Settings, s: Store, r: Request)
  {
    match r
    case PutRequest(h, data, group, claim) => Dangles(c, s, Put(h, data, group, claim))
    case ResultRequest => Dangles(c, s, ReadResult)
    case _ => false
  }

  lemma ServedAllowed(c: Settings, s: Store, r: Request, m: Msg)
    requires Serves(r, m) && !Unsafe(c, s, r)
    ensures Allowed(c, s, m)
  {
    hide Refused, L.Reused, WaitingAt, Verified;
  }

  /** Whether the section of an indexed block is in memory. */
  ghost predicate LoadedNow(index: map<Digest, Rec>, h: Digest, lru: P.Cache)
  {
    h in index && L.Find(lru, index[h].id).Some?
  }

  /** Whether the section the pool is asked for is in memory. */
  ghost predicate FetchLoaded(asked: seq<Spot>, lru: P.Cache)
  {
    asked != [] && L.Find(lru, asked[0].id).Some?
  }

  /** The first move that names the place. */
  method FollowMoves(moves: seq<Move>, id: Id, i: nat) returns (slot: nat)
    ensures slot == Follow(moves, id, i)
  {
    var j := 0;
    while j < |moves|
      invariant 0 <= j <= |moves|
      invariant Follow(moves, id, i) == Follow(moves[j..], id, i)
    {
      if moves[j].id == id && moves[j].from == i {
        return moves[j].to;
      }
      assert moves[j..][1..] == moves[j + 1..];
      j := j + 1;
    }
    slot := i;
  }

  /** What a put does, case by case. */
  lemma {:induction false} PutCases(c: Settings, s: Store, h: Digest, data: Block, group: nat, claim: bool)
    requires StoreInv(c, s) && !Dangles(c, s, Put(h, data, group, claim))
    ensures Ready(c, s) && StoreInv(c, Step(c, s, Put(h, data, group, claim)))
    ensures var s' := Step(c, s, Put(h, data, group, claim));
            if h in s.index then
              s' == (if claim && s.index[h].claims < MAX_CLAIMS
                     then s.(index := s.index[h := s.index[h].(claims := s.index[h].claims + 1)]) else s)
            else if Refused(c, s, group) then s' == s
            else if |data| != c.pool.blockSize then s' == s.(shelf := s.shelf.(robin := R.Rotated(s.shelf.robin)))
            else s' == Stored(c, s, h, data, group, claim) && h in s'.index
  {
    hide Placed, Tidy, Counted, Receipted;
    StepKeepsInv(c, s, Put(h, data, group, claim));
  }

  lemma InvKnown(c: Config, s: Shelf)
    requires S.Inv(c, s)
    ensures Known(s)
  {
  }

  lemma DeletedGone(c: Settings, s: Store, h: Digest)
    ensures h !in Deleted(c, s, h).index
  {
  }

  lemma FoundIndexed(s: Store, h: Digest)
    requires Record(s, h).None?
    ensures h !in s.index
  {
    hide L.Find;
  }

  lemma OneBlock(size: nat)
    ensures Bytes(1, size) == size
  {
  }

  // ---- deleting one after the other ----

  lemma {:induction false} DroppedMore(c: Settings, s: Store, gone: set<Digest>, h: Digest)
    requires gone <= s.index.Keys && h in s.index && h !in gone
    ensures gone + {h} <= s.index.Keys && h in Dropped(c, s, gone).index
    ensures Deleted(c, Dropped(c, s, gone), h) == Dropped(c, s, gone + {h})
  {
    hide L.Without, Bytes, Wrap;
    assert |gone + {h}| == |gone| + 1;
    L.WithoutMore(s.cached, gone, {h});
    WrapAdd(s.count - |gone|, -1);
    BytesMore(|gone|, c.pool.blockSize);
    WrapAdd(s.bytes - Bytes(|gone|, c.pool.blockSize), -Bytes(1, c.pool.blockSize));
    assert s.index - gone - {h} == s.index - (gone + {h});
    assert Detach(Detach(s.pending, s.index, gone), s.index - gone, {h}) == Detach(s.pending, s.index, gone + {h});
  }

  lemma BytesMore(n: nat, size: nat)
    ensures Bytes(n, size) + Bytes(1, size) == Bytes(n + 1, size)
  {
  }

  lemma {:induction false} DroppedEmpty(c: Settings, s: Store)
    ensures Dropped(c, s, {}) == s
  {
    L.WithoutNone(s.cached, {});
    assert s.index - {} == s.index;
    assert Detach(s.pending, s.index, {}) == s.pending;
  }

  lemma {:induction false} DroppedNone(c: Settings, s: Store)
    ensures DroppedAll(c, s, []) == s
  {
    hide Dropped;
    assert Unpinned(s.index, {}) == s.index;
    assert Indexed(s.index, []) == {};
    DroppedEmpty(c, s);
  }

  /** One more hash of a receipt. */
  lemma {:induction false} DroppedOneMore(c: Settings, s: Store, hashes: seq<Digest>, h: Digest)
    ensures var r := DroppedAll(c, s, hashes);
            DroppedAll(c, s, hashes + [h]) ==
            if h in r.index then Deleted(c, r.(index := r.index[h := r.index[h].(pins := 0)]), h) else r
  {
    var gone := Indexed(s.index, hashes);
    if h in s.index && h !in hashes {
      assert Indexed(s.index, hashes + [h]) == gone + {h};
      var u, u' := Unpinned(s.index, gone), Unpinned(s.index, gone + {h});
      UnpinMore(c, s, gone, h);
      DroppedMore(c, s.(index := u'), gone, h);
    } else {
      assert Indexed(s.index, hashes + [h]) == gone;
    }
  }

  lemma {:induction false} UnpinMore(c: Settings, s: Store, gone: set<Digest>, h: Digest)
    requires gone <= s.index.Keys && h in s.index && h !in gone
    ensures var r := Dropped(c, s.(index := Unpinned(s.index, gone)), gone);
            && h in r.index
            && r.(index := r.index[h := r.index[h].(pins := 0)]) ==
               Dropped(c, s.(index := Unpinned(s.index, gone + {h})), gone)
  {
    hide L.Without, Bytes;
    var u, u' := Unpinned(s.index, gone), Unpinned(s.index, gone + {h});
    var v: map<Digest, Rec> := u - gone;
    assert v[h := v[h].(pins := 0)] == u' - gone;
    assert Detach(s.pending, u, gone) == Detach(s.pending, u', gone);
  }

  // ---- sweeping one entry after the other ----

  /** Some of the entries. */
  predicate Part(seen: map<Digest, Rec>, entries: map<Digest, Rec>)
  {
    forall h | h in seen :: h in entries && seen[h] == entries[h]
  }

  lemma AllSeen(seen: map<Digest, Rec>, entries: map<Digest, Rec>)
    requires Part(seen, entries) && entries.Keys - seen.Keys == {}
    ensures seen == entries
  {
    assert entries.Keys == (entries.Keys - seen.Keys) + entries.Keys * seen.Keys;
  }

  ghost function SweptPart(c: Settings, s: Store, seen: map<Digest, Rec>, keep: set<Digest>, force: bool): Store
    requires Part(seen, s.index)
  {
    Dropped(c, s, Doomed(seen, keep, force))
  }

  lemma {:induction false} SweepStart(c: Settings, s: Store, keep: set<Digest>, force: bool)
    ensures SweptPart(c, s, map[], keep, force) == s
    ensures TallyOf(map[], keep, force) == Tally(0, 0, 0, 0, 0)
  {
    hide Dropped;
    assert Doomed(map[], keep, force) == {};
    DroppedEmpty(c, s);
    assert Named(map[], keep) == {} && ClaimedIn(map[], keep, force) == {} && PinnedIn(map[], keep, force) == {};
  }

  /** One more entry adds to one of the four sets. */
  lemma {:induction false} OneMoreSeen(seen: map<Digest, Rec>, h: Digest, r: Rec, keep: set<Digest>, force: bool)
    requires h !in seen
    ensures var more, named := seen[h := r], h in keep;
            var claimed := !named && !force && r.claims > 0;
            var pinned := !named && !force && r.claims == 0 && r.pins > 0;
            && Grows(Named(seen, keep), Named(more, keep), h, named)
            && Grows(ClaimedIn(seen, keep, force), ClaimedIn(more, keep, force), h, claimed)
            && Grows(PinnedIn(seen, keep, force), PinnedIn(more, keep, force), h, pinned)
            && Grows(Doomed(seen, keep, force), Doomed(more, keep, force), h, !named && !claimed && !pinned)
  {
  }

  predicate Grows(a: set<Digest>, b: set<Digest>, h: Digest, grows: bool)
  {
    h !in a && b == if grows then a + {h} else a
  }

  lemma GrowsOne(a: set<Digest>, b: set<Digest>, h: Digest, grows: bool)
    requires Grows(a, b, h, grows)
    ensures |b| == |a| + if grows then 1 else 0
  {
  }

  lemma {:induction false} SizesMore(seen: map<Digest, Rec>, h: Digest, r: Rec, keep: set<Digest>, force: bool)
    requires h !in seen
    ensures var t, u, named := TallyOf(seen, keep, force), TallyOf(seen[h := r], keep, force), h in keep;
            var claimed := !named && !force && r.claims > 0;
            var pinned := !named && !force && r.claims == 0 && r.pins > 0;
            && u.total == t.total + 1
            && u.kept == t.kept + (if named then 1 else 0)
            && u.claimed == t.claimed + (if claimed then 1 else 0)
            && u.pinned == t.pinned + (if pinned then 1 else 0)
            && u.deleted == t.deleted + (if !named && !claimed && !pinned then 1 else 0)
  {
    hide Named, ClaimedIn, PinnedIn, Doomed, Grows;
    var more, named := seen[h := r], h in keep;
    var claimed := !named && !force && r.claims > 0;
    var pinned := !named && !force && r.claims == 0 && r.pins > 0;
    OneMoreSeen(seen, h, r, keep, force);
    AddKey(seen, h, r);
    GrowsOne(Named(seen, keep), Named(more, keep), h, named);
    GrowsOne(ClaimedIn(seen, keep, force), ClaimedIn(more, keep, force), h, claimed);
    GrowsOne(PinnedIn(seen, keep, force), PinnedIn(more, keep, force), h, pinned);
    GrowsOne(Doomed(seen, keep, force), Doomed(more, keep, force), h, !named && !claimed && !pinned);
  }

  lemma {:induction false} TallyMore(seen: map<Digest, Rec>, h: Digest, r: Rec, keep: set<Digest>, force: bool)
    requires h !in seen
    ensures var t, u := TallyOf(seen, keep, force), TallyOf(seen[h := r], keep, force);
            u == if h in keep then t.(total := t.total + 1, kept := t.kept + 1)
                 else if !force && r.claims > 0 then t.(total := t.total + 1, claimed := t.claimed + 1)
                 else if !force && r.pins > 0 then t.(total := t.total + 1, pinned := t.pinned + 1)
                 else t.(total := t.total + 1, deleted := t.deleted + 1)
  {
    hide TallyOf;
    SizesMore(seen, h, r, keep, force);
  }

  lemma {:induction false} SweepMore(c: Settings, s: Store, seen: map<Digest, Rec>, h: Digest, keep: set<Digest>,
                                     force: bool)
    requires Part(seen, s.index) && h in s.index && h !in seen
    ensures Part(seen[h := s.index[h]], s.index)
    ensures SweptPart(c, s, seen[h := s.index[h]], keep, force) ==
            if h in keep || Spared(s.index[h], force) then SweptPart(c, s, seen, keep, force)
            else Deleted(c, SweptPart(c, s, seen, keep, force), h)
  {
    OneMoreSeen(seen, h, s.index[h], keep, force);
    hide Dropped, Deleted, Doomed, Named, ClaimedIn, PinnedIn;
    if h !in keep && !Spared(s.index[h], force) {
      DroppedMore(c, s, Doomed(seen, keep, force), h);
    }
  }

  // ---- the gets that wait ----

  lemma {:induction false} FirstWaiting(pending: seq<Wait>, index: map<Digest, Rec>, spot: Spot, i: nat)
    requires i < |pending| && WaitingAt(pending[..i], index, spot) == []
    requires Where(index, pending[i].h, pending[i].held) == Some(spot)
    ensures WaitingAt(pending, index, spot) != [] && WaitingAt(pending, index, spot)[0] == pending[i]
  {
    var n := |pending| - 1;
    if i == n {
      assert pending[..n] == pending[..i];
    } else {
      assert pending[..n][..i] == pending[..i];
      FirstWaiting(pending[..n], index, spot, i);
    }
  }

  lemma RepliesMore(waits: seq<Wait>, w: Wait, block: Option<Block>)
    ensures RepliesTo(waits + [w], block) == RepliesTo(waits, block) + [Reply(w.h, block, true)]
  {
  }
}
