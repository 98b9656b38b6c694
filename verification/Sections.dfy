/**
 The pool of sections in memory and on disk.  A bounded cache keeps the slot maps of
 the sections used last; a section that leaves the cache writes its map to disk if it
 was changed, and is read back, or made all free, when it is needed again.
 */
module Sections {
  import opened Entries
  import opened Section
  import opened Shelf
  import F = FreeMap
  import I = Listing
  import L = Lru
  import R = Robin

  /** The slot map of a section in memory, and whether the disk has an older one. */
  datatype Loaded = Loaded(used: seq<bool>, dirty: bool)

  type Cache = seq<(Id, Loaded)>
  type Disk = map<Id, seq<bool>>

  /** The slot map a section is created with. */
  function Saved(size: nat, disk: Disk, id: Id): seq<bool>
  {
    if id in disk then disk[id] else F.Front(0, size)
  }

  /** The slot map of a section, wherever it is. */
  function UsedAt(size: nat, lru: Cache, disk: Disk, id: Id): seq<bool>
  {
    match L.Find(lru, id)
    case Some(i) => lru[i].1.used
    case None => Saved(size, disk, id)
  }

  /** A clean section is the same in memory and on disk. */
  predicate Coherent(size: nat, capacity: nat, lru: Cache, disk: Disk)
  {
    && L.Unique(lru) && |lru| <= capacity
    && forall i | 0 <= i < |lru| && !lru[i].1.dirty :: lru[i].1.used == Saved(size, disk, lru[i].0)
  }

  /** Bring a section to the front of the cache. */
  function Accessed(size: nat, capacity: nat, lru: Cache, disk: Disk, id: Id): (Cache, Disk)
  {
    if L.Find(lru, id).Some? then (L.Got(lru, id), disk)
    else
      var gone := L.Evicted(lru, id, capacity);
      (L.Put(lru, id, Loaded(Saved(size, disk, id), false), capacity),
       if gone.Some? && gone.value.1.dirty then disk[gone.value.0 := gone.value.1.used] else disk)
  }

  lemma {:induction false} FoundAt(lru: Cache, i: nat)
    requires L.Unique(lru) && i < |lru|
    ensures L.Find(lru, lru[i].0) == Some(i)
  {
    L.FindIs(lru, lru[i].0, i);
  }

  /** Eviction and reload are invisible: every section has the slot map it had. */
  lemma {:induction false} AccessInvisible(size: nat, capacity: nat, lru: Cache, disk: Disk, id: Id)
    requires Coherent(size, capacity, lru, disk) && capacity > 0
    ensures var (lru', disk') := Accessed(size, capacity, lru, disk, id);
            && Coherent(size, capacity, lru', disk')
            && lru' != [] && lru'[0].0 == id
            && forall x :: UsedAt(size, lru', disk', x) == UsedAt(size, lru, disk, x)
  {
    hide L.Find;
    var (lru', disk') := Accessed(size, capacity, lru, disk, id);
    L.KeepsUnique(lru, id, Loaded(Saved(size, disk, id), false), capacity);
    match L.Find(lru, id)
    case Some(p) => RaiseInvisible(size, capacity, lru, disk, p);
    case None =>
      if |lru| == capacity {
        EvictInvisible(size, capacity, lru, disk);
        AddInvisible(size, capacity, lru[..capacity - 1], disk', id);
        assert Saved(size, disk', id) == Saved(size, disk, id);
      } else {
        AddInvisible(size, capacity, lru, disk, id);
      }
  }

  lemma {:induction false} RaiseInvisible(size: nat, capacity: nat, lru: Cache, disk: Disk, p: nat)
    requires Coherent(size, capacity, lru, disk) && p < |lru|
    ensures Coherent(size, capacity, L.Raise(lru, p), disk)
    ensures forall x :: UsedAt(size, L.Raise(lru, p), disk, x) == UsedAt(size, lru, disk, x)
  {
    hide L.Find, L.Raise;
    var r := L.Raise(lru, p);
    L.RaiseUnique(lru, p);
    forall i | 0 <= i < |r|
      ensures r[i] == lru[if i == 0 then p else if i <= p then i - 1 else i]
    {
    }
    forall x
      ensures UsedAt(size, r, disk, x) == UsedAt(size, lru, disk, x)
    {
      RaisedAt(size, lru, disk, p, x);
    }
  }

  lemma {:induction false} RaisedAt(size: nat, lru: Cache, disk: Disk, p: nat, x: Id)
    requires L.Unique(lru) && p < |lru|
    ensures UsedAt(size, L.Raise(lru, p), disk, x) == UsedAt(size, lru, disk, x)
  {
    hide L.Find, L.Raise;
    var r := L.Raise(lru, p);
    L.RaiseUnique(lru, p);
    match L.Find(lru, x)
    case Some(i) =>
      var j := if i == p then 0 else if i < p then i + 1 else i;
      assert r[j] == lru[i];
      L.FindIs(r, x, j);
    case None =>
      forall j | 0 <= j < |r|
        ensures r[j].0 != x
      {
        assert r[j] == lru[if j == 0 then p else if j <= p then j - 1 else j];
      }
  }

  /** The section that leaves the cache is on disk as it was in memory. */
  lemma {:induction false} EvictInvisible(size: nat, capacity: nat, lru: Cache, disk: Disk)
    requires Coherent(size, capacity, lru, disk) && lru != []
    ensures var gone := lru[|lru| - 1];
            var disk' := if gone.1.dirty then disk[gone.0 := gone.1.used] else disk;
            && Coherent(size, capacity, lru[..|lru| - 1], disk')
            && forall x :: UsedAt(size, lru[..|lru| - 1], disk', x) == UsedAt(size, lru, disk, x)
  {
    hide L.Find;
    var n, rest := |lru| - 1, lru[..|lru| - 1];
    var disk' := if lru[n].1.dirty then disk[lru[n].0 := lru[n].1.used] else disk;
    forall x
      ensures UsedAt(size, rest, disk', x) == UsedAt(size, lru, disk, x)
    {
      if L.Find(lru, x).Some? {
        var i := L.Find(lru, x).value;
        if i < n {
          L.FindIs(rest, x, i);
        } else {
          assert L.Find(rest, x).None?;
        }
      } else {
        assert L.Find(rest, x).None?;
      }
    }
  }

  lemma {:induction false} AddInvisible(size: nat, capacity: nat, lru: Cache, disk: Disk, id: Id)
    requires Coherent(size, capacity, lru, disk) && L.Find(lru, id).None? && |lru| < capacity
    ensures var r := [(id, Loaded(Saved(size, disk, id), false))] + lru;
            && Coherent(size, capacity, r, disk)
            && forall x :: UsedAt(size, r, disk, x) == UsedAt(size, lru, disk, x)
  {
    hide L.Find;
    var r := [(id, Loaded(Saved(size, disk, id), false))] + lru;
    assert L.Unique(r);
    forall x
      ensures UsedAt(size, r, disk, x) == UsedAt(size, lru, disk, x)
    {
      if x == id {
        L.FindIs(r, x, 0);
      } else if L.Find(lru, x).Some? {
        assert r[L.Find(lru, x).value + 1] == lru[L.Find(lru, x).value];
        L.FindIs(r, x, L.Find(lru, x).value + 1);
      } else {
        assert L.Find(r, x).None?;
      }
    }
  }

  /** What the cache loads on the way. */
  ghost predicate Adds(before: Cache, after: Cache, from: Id, to: Id)
  {
    from <= to && forall x: Id | L.Find(after, x).Some? && L.Find(before, x).None? :: from <= x < to
  }

  lemma {:induction false} AccessAdds(size: nat, capacity: nat, lru: Cache, disk: Disk, id: Id)
    requires L.Unique(lru) && |lru| <= capacity
    ensures Adds(lru, Accessed(size, capacity, lru, disk, id).0, id, id + 1)
  {
    var v := Loaded(Saved(size, disk, id), false);
    L.OpsFrom(lru, id, v, capacity);
    var after := Accessed(size, capacity, lru, disk, id).0;
    forall x: Id | L.Find(after, x).Some? && L.Find(lru, x).None?
      ensures id <= x < id + 1
    {
      assert after[L.Find(after, x).value] in after;
    }
  }

  lemma AddsMore(a: Cache, b: Cache, d: Cache, from: Id, mid: Id, to: Id)
    requires Adds(a, b, from, mid) && Adds(b, d, mid, to)
    ensures Adds(a, d, from, to)
  {
    forall x: Id | L.Find(d, x).Some? && L.Find(a, x).None?
      ensures from <= x < to
    {
      assert L.Find(b, x).Some? || L.Find(b, x).None?;
    }
  }

  /** No full section of the robin is in the cache. */
  ghost predicate Cold(c: Config, s: Shelf, lru: Cache)
  {
    forall i | 0 <= i < |s.robin| && Full(At(c, s, s.robin[i])) :: L.Find(lru, s.robin[i]).None?
  }

  type Files = map<Id, seq<Block>>

  /** The blocks of every section that has a file. */
  function SlotsOf(size: nat, lru: Cache, disk: Disk, files: Files): map<Id, Slots>
  {
    map id | id in files :: Slots(UsedAt(size, lru, disk, id), files[id])
  }

  /** A section without a file is all free. */
  ghost predicate Filed(c: Config, lru: Cache, disk: Disk, files: Files)
  {
    forall id | id !in files :: UsedAt(c.size, lru, disk, id) == F.Front(0, c.size)
  }

  /** Changing the map of the section at the front of the cache. */
  lemma {:induction false} FrontChanged(size: nat, capacity: nat, lru: Cache, disk: Disk, used: seq<bool>)
    requires Coherent(size, capacity, lru, disk) && lru != []
    ensures var lru' := lru[0 := (lru[0].0, Loaded(used, true))];
            && Coherent(size, capacity, lru', disk)
            && forall x :: UsedAt(size, lru', disk, x) == if x == lru[0].0 then used else UsedAt(size, lru, disk, x)
  {
    hide L.Find;
    var lru' := lru[0 := (lru[0].0, Loaded(used, true))];
    forall x
      ensures UsedAt(size, lru', disk, x) == if x == lru[0].0 then used else UsedAt(size, lru, disk, x)
    {
      if x == lru[0].0 {
        L.FindIs(lru', x, 0);
      } else if L.Find(lru, x).Some? {
        L.FindIs(lru', x, L.Find(lru, x).value);
      } else {
        assert L.Find(lru', x).None?;
      }
    }
  }

  class Sections {
    const config: Config
    const capacity: nat
    var robin: seq<Id>
    var nextId: Id
    var target: nat
    var lru: Cache
    var disk: Disk
    var files: Files

    ghost predicate Valid()
      reads this
    {
      && capacity > 0
      && Coherent(config.size, capacity, lru, disk)
      && Filed(config, lru, disk, files)
      && SoundAll(config, Abs())
    }

    ghost function Abs(): Shelf
      reads this
    {
      Shelf(SlotsOf(config.size, lru, disk, files), robin, nextId, target)
    }

    constructor (config: Config, capacity: nat)
      requires capacity > 0
      ensures Valid() && Abs() == Shelf(map[], [], 0, 0) && disk == map[] && this.config == config
    {
      this.config := config;
      this.capacity := capacity;
      robin, nextId, target, lru, disk, files := [], 0, 0, [], map[], map[];
    }

    /** Find a section in the cache, or create it from disk and put it there. */
    method Access(id: Id) returns (wasLoaded: bool)
      requires Valid()
      modifies this`lru, this`disk
      ensures Valid() && Abs() == old(Abs()) && wasLoaded == L.Find(old(lru), id).Some?
      ensures lru != [] && lru[0].0 == id && lru[0].1.used == At(config, Abs(), id).used
      ensures Adds(old(lru), lru, id, id + 1)
    {
      hide L.Find, SoundAll, L.Unique, Adds;
      AccessInvisible(config.size, capacity, lru, disk, id);
      AccessAdds(config.size, capacity, lru, disk, id);
      wasLoaded := L.Find(lru, id).Some?;
      if wasLoaded {
        lru := L.Got(lru, id);
      } else {
        var gone := L.Evicted(lru, id, capacity);
        var section := Loaded(Saved(config.size, disk, id), false);
        lru := L.Put(lru, id, section, capacity);
        if gone.Some? && gone.value.1.dirty {
          disk := disk[gone.value.0 := gone.value.1.used];
        }
      }
      FoundAt(lru, 0);
      assert UsedAt(config.size, lru, disk, id) == lru[0].1.used;
      assert SlotsOf(config.size, lru, disk, files) == old(SlotsOf(config.size, lru, disk, files));
    }

    /** A section with a new id. */
    method CreateFresh() returns (id: Id)
      requires Valid()
      modifies this`lru, this`disk, this`nextId
      ensures Valid() && id == old(nextId) && nextId == id + 1
      ensures Abs() == old(Abs()).(nextId := nextId) && Adds(old(lru), lru, old(nextId), nextId)
    {
      hide Adds;
      id := nextId;
      var _ := Access(id);
      nextId := nextId + 1;
    }

    /** The ceiling of the pool follows the byte limit. */
    method SetMaxBytes(limit: U64)
      requires Valid()
      modifies this`target
      ensures Valid() && Abs() == old(Abs()).(target := TargetFor(config, limit))
    {
      hide SlotsOf, Coherent, Filed, SoundAll;
      var bytes := config.size * config.blockSize;
      target := if limit == 0 || bytes == 0 then 0 else Wrap(limit + bytes - 1) / bytes + 1;
      Resound(config, old(Abs()), Abs());
    }

    /** A section was found full. */
    method Retire(id: Id)
      requires Valid()
      modifies this`lru, this`disk, this`nextId, this`robin
      ensures Valid() && Abs() == Retired(config, old(Abs()), id) && Adds(old(lru), lru, old(nextId), nextId)
    {
      hide SlotsOf, Coherent, Filed, SoundAll, Adds;
      AddsNone(lru, nextId);
      var before := |robin|;
      ghost var start := Abs().(robin := R.Removed(robin, id));
      robin := R.Removed(robin, id);
      Resound(config, old(Abs()), Abs());
      ghost var goal := Unshifted(start, config.floor);
      while |robin| < config.floor
        invariant Valid() && Unshifted(Abs(), config.floor) == goal && Adds(old(lru), lru, old(nextId), nextId)
        decreases config.floor - |robin|
      {
        ghost var cache, from := lru, nextId;
        var next := CreateFresh();
        AddsMore(old(lru), cache, lru, old(nextId), from, nextId);
        ghost var mid := Abs();
        robin := [next] + robin;
        Resound(config, mid, Abs());
      }
      var want := Want(target, before, |robin|);
      ghost var end := Appended(goal, want);
      while |robin| < want
        invariant Valid() && Appended(Abs(), want) == end && Adds(old(lru), lru, old(nextId), nextId)
        decreases want - |robin|
      {
        ghost var cache, from := lru, nextId;
        Grow();
        AddsMore(old(lru), cache, lru, old(nextId), from, nextId);
      }
    }

    /** One more fresh section at the end of the robin. */
    method Grow()
      requires Valid()
      modifies this`lru, this`disk, this`nextId, this`robin
      ensures Valid()
      ensures Abs() == old(Abs()).(robin := old(robin) + [old(nextId)], nextId := old(nextId) + 1)
      ensures Adds(old(lru), lru, old(nextId), nextId)
    {
      hide SlotsOf, Coherent, Filed, SoundAll, Adds;
      var id := CreateFresh();
      ghost var mid := Abs();
      robin := robin + [id];
      Resound(config, mid, Abs());
    }

    /** Write into the section at the front of the cache. */
    method WriteFront(data: Block) returns (result: int, slot: nat, full: bool)
      requires Valid() && lru != []
      requires lru[0].1.used == At(config, Abs(), lru[0].0).used
      modifies this`lru, this`files
      ensures Valid() && lru != [] && lru[0].0 == old(lru[0].0)
      ensures var id, slots := old(lru[0].0), At(config, old(Abs()), old(lru[0].0));
              && result == (if |data| != config.blockSize then 1 else if Full(slots) then 2 else 0)
              && Sound(slots)
              && (result == 0 ==> F.FirstFree(slots.used) == Some(slot))
              && Abs() == (if result == 0
                           then old(Abs()).(sections := old(Abs()).sections[id := Written(slots, data)])
                           else old(Abs()))
              && (full <==> Full(At(config, Abs(), id)))
    {
      hide Coherent, Filed, SlotsOf, F.FirstFree, SoundAll, Written;
      ghost var id, slots := lru[0].0, At(config, Abs(), lru[0].0);
      AtSound(config, Abs(), id);
      FrontSlots(config, lru, disk, files, robin, nextId, target);
      var used := lru[0].1.used;
      full := F.FirstFree(used).None?;
      if |data| != config.blockSize {
        return 1, 0, full;
      }
      if full {
        return 2, 0, true;
      }
      slot := F.FirstFree(used).value;
      var file := if lru[0].0 in files then files[lru[0].0] else [];
      WrittenParts(slots, data);
      FrontWritten(config, capacity, lru, disk, files, Abs(), Written(slots, data));
      files := files[lru[0].0 := Place(file, slot, data)];
      lru := lru[0 := (lru[0].0, Loaded(used[slot := true], true))];
      full := F.FirstFree(lru[0].1.used).None?;
      result := 0;
    }

    /** One attempt at the first section of the robin.  It is passed over if it had to be
        loaded and was full. */
    method TryFirst(data: Block) returns (result: int, id: Id, slot: nat, passed: bool)
      requires Valid() && config.size > 0 && Known(Abs()) && robin != []
      modifies this
      ensures Valid() && id == old(robin)[0] && Sound(At(config, old(Abs()), id))
      ensures passed <==> L.Find(old(lru), id).None? && Full(At(config, old(Abs()), id))
      ensures result == if passed then -1 else if |data| != config.blockSize then 1
                        else if Full(At(config, old(Abs()), id)) then 2 else 0
      ensures result == 0 ==> F.FirstFree(At(config, old(Abs()), id).used) == Some(slot)
      ensures Abs() == Tried(config, old(Abs()), data, result)
      ensures passed ==> AddsTo(old(lru), lru, id, old(nextId), nextId)
    {
      hide SlotsOf, Coherent, Filed, SoundAll, Retired, R.Rotated, Written, F.FirstFree, Adds, L.Find;
      id, slot := robin[0], 0;
      ghost var before, cache := Abs(), lru;
      AtSound(config, before, id);
      robin := R.Rotated(robin);
      Resound(config, before, Abs());
      var wasLoaded := Access(id);
      if !wasLoaded {
        var full := F.FirstFree(lru[0].1.used).None?;
        if full {
          ghost var mid := lru;
          Retire(id);
          AddsBoth(cache, mid, lru, id, before.nextId, nextId);
          return -1, id, 0, true;
        }
      }
      passed := false;
      var full;
      result, slot, full := WriteFront(data);
      if result == 2 || full {
        Retire(id);
        if result == 2 && (|robin| <= config.floor || |robin| < target) {
          Grow();
        }
      }
    }

    /** Store a block in some section of the robin.  A section found full is retired
        and the next one tried, within a budget that is renewed at every attempt. */
    method WriteBlock(data: Block) returns (result: int, id: Id, slot: nat)
      requires Valid() && config.size > 0 && Known(Abs())
      modifies this
      ensures Valid() && Known(Abs())
      ensures result == 0 ==> Holds(config, old(Abs()), Abs(), data, id, slot)
      ensures result != 0 ==> Abs().sections == old(Abs()).sections
      ensures Inv(config, old(Abs())) && config.floor > 0 && |data| == config.blockSize ==>
                result == 0 && (Abs(), id, slot) == Store(config, old(Abs()), data)
      ensures Inv(config, old(Abs())) && config.floor > 0 && |data| != config.blockSize ==>
                result == 1 && Abs() == old(Abs()).(robin := R.Rotated(old(robin)))
      ensures ColdStart(config, old(Abs()), old(lru)) && |data| == config.blockSize ==>
                (result == 0 <==> InBudget(config, old(Abs())))
      ensures FewFull(config, old(Abs())) && |data| == config.blockSize ==> result == 0
    {
      hide SlotsOf, Coherent, Filed, SoundAll, RoomyBut, FullCount, Tried, F.FirstFree, Passing, InBudget, AddsTo;
      hide ColdStart, Known, Store, Full, At, L.Find, Holds, FewFull, Dwindling;
      result, id, slot := -1, 0, 0;
      var attempts, fullRotations := 0, 0;
      ghost var s := Abs();
      ghost var easy := Inv(config, s) && config.floor > 0;
      ghost var cold := ColdStart(config, s, lru) && |data| == config.blockSize;
      ghost var few := FewFull(config, s) && |data| == config.blockSize;
      ghost var decided := false;
      if few {
        NoneTried(config, s);
      }
      if cold {
        PassingNone(config, s, lru);
      }
      while attempts < |robin| + fullRotations + config.floor
        invariant Valid() && Known(Abs())
        invariant Abs().sections == s.sections && result != 0
        invariant if attempts == 0 then Abs() == s && fullRotations == 0 else !easy
        invariant !decided && (cold ==> Passing(config, s, attempts, Abs(), lru) && fullRotations == 0)
        invariant few ==> Dwindling(config, s, attempts, Abs())
        decreases FullCount(config, Abs(), robin)
      {
        attempts := attempts + 1;
        ghost var before, cache := Abs(), lru;
        if few {
          StillSome(config, s, attempts - 1, Abs());
        }
        if robin == [] {
          decided := true;
          if cold {
            PassingEmpty(config, s, attempts - 1, before, lru);
          }
          break;
        }
        var code, passed;
        code, id, slot, passed := TryFirst(data);
        TriedKnown(config, before, data, code);
        FirstHasRoom(config, before);
        if attempts == 1 && easy {
          TriedEasy(config, s, data, code, slot);
        }
        if few && Full(At(config, before, id)) {
          DwindlesOn(config, s, attempts - 1, before, data, code);
        }
        if passed {
          TriedFull(config, before, data, code);
          if cold {
            PassingMore(config, s, attempts - 1, before, data, cache, lru);
          }
          continue;
        }
        result := code;
        if cold {
          PassingEnds(config, s, attempts - 1, before, cache);
        }
        if result == 2 {
          fullRotations := fullRotations + 1;
          TriedFull(config, before, data, result);
        } else {
          if result == 0 {
            TriedStores(config, s, before, data, id, slot);
          }
          decided := true;
          break;
        }
      }
      if few && !decided {
        StillSome(config, s, attempts, Abs());
      }
      if cold && !decided {
        PassingSpent(config, s, attempts, Abs(), lru);
      }
    }

    /** A start over what is on disk: count on from the last name listed, retire the full
        sections of the saved robin, then fill it up. */
    method Start()
      requires Valid()
      modifies this`lru, this`disk, this`nextId, this`robin
      ensures Valid() && Abs() == Started(config, old(Abs()).(nextId := I.NextId(old(disk).Keys)))
    {
      hide SlotsOf, Coherent, Filed, SoundAll, Retired, F.FirstFree;
      nextId := I.FindNext(disk.Keys);
      ghost var s := Abs();
      Resound(config, old(Abs()), s);
      var ids := robin;
      var i := 0;
      while i < |ids|
        invariant 0 <= i <= |ids| && Valid()
        invariant Abs() == Scrubbed(config, s, ids[..i])
      {
        assert ids[..i + 1][..i] == ids[..i];
        var _ := Access(ids[i]);
        if F.FirstFree(lru[0].1.used).None? {
          Retire(ids[i]);
        }
        i := i + 1;
      }
      assert ids[..i] == ids;
      Refill();
    }

    /** Fresh sections until the robin has the least number. */
    method Refill()
      requires Valid()
      modifies this`lru, this`disk, this`nextId, this`robin
      ensures Valid() && Abs() == Appended(old(Abs()), config.floor)
    {
      hide SlotsOf, Coherent, Filed, SoundAll;
      ghost var end := Appended(Abs(), config.floor);
      while |robin| < config.floor
        invariant Valid() && Appended(Abs(), config.floor) == end
        decreases config.floor - |robin|
      {
        Grow();
      }
    }

    /** Read a slot; a section that had to be loaded rejoins the robin if it has room. */
    method ReadBlock(id: Id, slot: nat) returns (r: Option<Block>)
      requires Valid()
      modifies this`lru, this`disk, this`robin
      ensures Valid()
      ensures r == Read(At(config, old(Abs()), id), slot)
      ensures Abs() == if L.Find(old(lru), id).Some? then old(Abs()) else Touched(config, old(Abs()), id)
    {
      hide Coherent, Filed, SoundAll, L.Find, F.FirstFree;
      var wasLoaded := Access(id);
      if !wasLoaded {
        if F.FirstFree(lru[0].1.used).Some? && id !in robin {
          ghost var mid := Abs();
          robin := robin + [id];
          Resound(config, mid, Abs());
        }
      }
      if id in files && slot < |files[id]| {
        return Some(files[id][slot]);
      }
      r := None;
    }

    /** Free a slot; the answer says whether it was in use. */
    method FreeSlot(id: Id, slot: nat) returns (ok: bool)
      requires Valid()
      modifies this`lru, this`disk, this`robin, this`files
      ensures Valid()
      ensures ok <==> slot < config.size && At(config, old(Abs()), id).used[slot]
      ensures var s := if L.Find(old(lru), id).Some? then old(Abs()) else Touched(config, old(Abs()), id);
              Abs() == Freed(config, s, id, slot)
    {
      hide Coherent, Filed, SoundAll, L.Find, F.FirstFree, SlotsOf;
      AtSound(config, Abs(), id);
      var wasLoaded := Access(id);
      if !wasLoaded && F.FirstFree(lru[0].1.used).Some? && id !in robin {
        ghost var mid := Abs();
        robin := robin + [id];
        Resound(config, mid, Abs());
      }
      var used := lru[0].1.used;
      ok := slot < |used| && used[slot];
      if ok {
        ghost var slots := At(config, Abs(), id);
        FrontSlots(config, lru, disk, files, robin, nextId, target);
        FrontWritten(config, capacity, lru, disk, files, Abs(), slots.(used := used[slot := false]));
        files := files[id := if id in files then files[id] else []];
        lru := lru[0 := (id, Loaded(used[slot := false], true))];
        if id !in robin {
          ghost var mid := Abs();
          robin := robin + [id];
          Resound(config, mid, Abs());
        }
      }
    }

    /** Write every changed slot map to disk. */
    method Flush()
      requires Valid()
      modifies this`lru, this`disk
      ensures Valid() && Abs() == old(Abs())
      ensures forall i | 0 <= i < |lru| :: !lru[i].1.dirty
    {
      hide Coherent, Filed, SoundAll;
      var i := 0;
      while i < |lru|
        invariant 0 <= i <= |lru| && Valid() && Abs() == old(Abs())
        invariant forall j | 0 <= j < i :: !lru[j].1.dirty
      {
        if lru[i].1.dirty {
          SaveInvisible(config, capacity, lru, disk, files, i);
          var (id, section) := lru[i];
          disk := disk[id := section.used];
          lru := lru[i := (id, Loaded(section.used, false))];
        }
        i := i + 1;
      }
    }

    /** Compact the sparse sections of the cache; the result lists the moves. */
    method Defragment(threshold: real) returns (moves: seq<Move>)
      requires Valid()
      modifies this`lru, this`disk, this`files
      ensures Valid()
      ensures Abs() == Defragmented(config, old(Abs()), IdsOf(old(lru)), threshold)
      ensures moves == AllMoves(config, old(Abs()), IdsOf(old(lru)), threshold)
    {
      hide Coherent, Filed, SoundAll, Defragmented, AllMoves, Compacted, Compactable, F.Relocation, MovesOf, F.Count;
      hide SlotsOf;
      ghost var s, ids := Abs(), IdsOf(lru);
      DefragmentedStart(config, s, threshold);
      IdsDistinct(config.size, capacity, lru, disk);
      moves := [];
      var i := 0;
      while i < |lru|
        invariant 0 <= i <= |lru| && IdsOf(lru) == ids && Valid()
        invariant Abs() == Defragmented(config, s, ids[..i], threshold)
        invariant moves == AllMoves(config, s, ids[..i], threshold)
      {
        DefragmentedStep(config, s, ids, i, threshold);
        var more := CompactLoaded(i, threshold);
        moves := moves + more;
        i := i + 1;
      }
      assert ids[..i] == ids;
    }

    /** Compact one loaded section if it is sparse. */
    method CompactLoaded(i: nat, threshold: real) returns (moves: seq<Move>)
      requires Valid() && i < |lru|
      modifies this`lru, this`disk, this`files
      ensures Valid() && IdsOf(lru) == IdsOf(old(lru))
      ensures var id, slots := old(lru)[i].0, At(config, old(Abs()), old(lru)[i].0);
              && Sound(slots)
              && Abs() == (if id in old(Abs()).sections
                           then old(Abs()).(sections := old(Abs()).sections[id := Squeezed(slots, threshold)])
                           else old(Abs()))
              && moves == (if id in old(Abs()).sections && Sparse(slots.used, threshold) && Compactable(slots.used)
                           then MovesOf(id, F.Relocation(slots.used)) else [])
    {
      hide Coherent, Filed, SoundAll, Compacted, Compactable, F.Relocation, MovesOf, F.Count, SlotsOf;
      moves := [];
      var (id, section) := lru[i];
      ghost var slots := At(config, Abs(), id);
      AtSound(config, Abs(), id);
      LoadedSlots(config, capacity, lru, disk, files, Abs(), i);
      if Sparse(section.used, threshold) {
        var before := Slots(section.used, files[id]);
        CompactKeepsReads(before);
        if Compactable(section.used) {
          moves := ListMoves(id, F.Relocation(section.used));
          var after := Compacted(before);
          LoadedChanged(config, capacity, lru, disk, files, Abs(), i, after);
          files := files[id := after.file];
          disk := disk[id := after.used];
          lru := lru[i := (id, Loaded(after.used, true))];
        } else {
          CompactIdle(before);
          Unchanged(Abs().sections, id);
        }
      } else if id in files {
        Unchanged(Abs().sections, id);
      }
      assert IdsOf(lru) == IdsOf(old(lru));
    }
  }

  /** Turn the relocation of one section into moves. */
  method ListMoves(id: Id, plan: seq<Option<nat>>) returns (moves: seq<Move>)
    ensures moves == MovesOf(id, plan)
  {
    moves := [];
    var i := 0;
    while i < |plan|
      invariant 0 <= i <= |plan|
      invariant moves == MovesOf(id, plan[..i])
    {
      assert plan[..i + 1][..i] == plan[..i];
      if plan[i].Some? && plan[i].value != i {
        moves := moves + [Move(id, i, plan[i].value)];
      }
      i := i + 1;
    }
    assert plan[..i] == plan;
  }

  /** The loaded sections. */
  function IdsOf(lru: Cache): (ids: seq<Id>)
    ensures |ids| == |lru| && forall i | 0 <= i < |lru| :: ids[i] == lru[i].0
  {
    seq(|lru|, i requires 0 <= i < |lru| => lru[i].0)
  }

  /** The pool after an attempt at the first section of the robin, by its result. */
  function Tried(c: Config, s: Shelf, data: Block, result: int): (r: Shelf)
    requires s.robin != [] && SoundAll(c, s)
    ensures result != 0 ==> r.sections == s.sections
  {
    var id := s.robin[0];
    AtSound(c, s, id);
    var rotated := s.(robin := R.Rotated(s.robin));
    if result == 0 then
      var w := rotated.(sections := s.sections[id := Written(At(c, s, id), data)]);
      if Full(At(c, w, id)) then Retired(c, w, id) else w
    else if !Full(At(c, s, id)) then rotated
    else
      var r := Retired(c, rotated, id);
      if result == 2 && (|r.robin| <= c.floor || |r.robin| < r.target)
      then r.(robin := r.robin + [r.nextId], nextId := r.nextId + 1) else r
  }

  /** Every attempt keeps the ids of the robin known. */
  lemma {:induction false} TriedKnown(c: Config, s: Shelf, data: Block, result: int)
    requires s.robin != [] && SoundAll(c, s) && c.size > 0 && Known(s)
    ensures Known(Tried(c, s, data, result))
  {
    hide Retired, Written, Full, SoundAll, R.Rotated;
    var id := s.robin[0];
    AtSound(c, s, id);
    Rotation(c, s);
    var rotated := s.(robin := R.Rotated(s.robin));
    var w := rotated.(sections := s.sections[id := Written(At(c, s, id), data)]);
    RetiredKnown(c, rotated, id);
    RetiredKnown(c, w, id);
  }

  /** An attempt at a full section takes it out of the robin. */
  lemma {:induction false} TriedFull(c: Config, s: Shelf, data: Block, result: int)
    requires s.robin != [] && SoundAll(c, s) && c.size > 0 && Known(s) && Full(At(c, s, s.robin[0])) && result != 0
    ensures var r := Tried(c, s, data, result); FullCount(c, r, r.robin) < FullCount(c, s, s.robin)
  {
    hide Retired, Full, SoundAll, R.Rotated, FullCount;
    var id := s.robin[0];
    Rotation(c, s);
    var rotated := s.(robin := R.Rotated(s.robin));
    SameAt(c, s, rotated, id);
    Resound(c, s, rotated);
    Exhausted(c, rotated, id);
    var r := Retired(c, rotated, id);
    RetiredCounts(c, rotated, id);
    Grown(c, r);
  }

  /** The robin has some section, and fewer full ones than twice the floor. */
  predicate FewFull(c: Config, s: Shelf)
  {
    c.floor > 0 && s.robin != [] && FullCount(c, s, s.robin) < 2 * c.floor
  }

  /** Every attempt so far took a full section out of the robin. */
  predicate Dwindling(c: Config, s: Shelf, attempts: nat, r: Shelf)
  {
    && FewFull(c, s) && FullCount(c, r, r.robin) + attempts <= FullCount(c, s, s.robin)
    && if attempts == 0 then r == s else |r.robin| >= c.floor
  }

  lemma NoneTried(c: Config, s: Shelf)
    requires FewFull(c, s)
    ensures Dwindling(c, s, 0, s)
  {
    hide FullCount;
  }

  lemma StillSome(c: Config, s: Shelf, attempts: nat, r: Shelf)
    requires Dwindling(c, s, attempts, r)
    ensures r.robin != [] && attempts < |r.robin| + c.floor
  {
    hide FullCount;
  }

  lemma {:induction false} DwindlesOn(c: Config, s: Shelf, attempts: nat, r: Shelf, data: Block, result: int)
    requires Dwindling(c, s, attempts, r) && r.robin != [] && SoundAll(c, r) && c.size > 0 && Known(r)
    requires Full(At(c, r, r.robin[0])) && result != 0
    ensures Dwindling(c, s, attempts + 1, Tried(c, r, data, result))
  {
    hide Retired, Full, SoundAll, R.Rotated, FullCount, Known;
    TriedFull(c, r, data, result);
    RetiredLength(c, r.(robin := R.Rotated(r.robin)), r.robin[0]);
  }

  lemma RetiredLength(c: Config, s: Shelf, id: Id)
    ensures |Retired(c, s, id).robin| >= c.floor
  {
    var s1 := s.(robin := R.Removed(s.robin, id));
    UnshiftedLength(s1, c.floor);
    var s2 := Unshifted(s1, c.floor);
    AppendedLength(s2, Want(s.target, |s.robin|, |s2.robin|));
  }

  /** With room everywhere the first attempt is the last. */
  lemma {:induction false} TriedEasy(c: Config, s: Shelf, data: Block, result: int, slot: nat)
    requires Inv(c, s) && c.size > 0 && c.floor > 0 && s.robin != []
    requires result == if |data| != c.blockSize then 1 else 0
    requires result == 0 ==> F.FirstFree(At(c, s, s.robin[0]).used) == Some(slot)
    ensures !Full(At(c, s, s.robin[0]))
    ensures result == 0 ==> (Tried(c, s, data, result), s.robin[0], slot) == Store(c, s, data)
    ensures result == 1 ==> Tried(c, s, data, result) == s.(robin := R.Rotated(s.robin))
  {
    hide Retired, Written, SoundAll, R.Rotated, F.FirstFree;
    FirstHasRoom(c, s);
  }

  lemma {:induction false} TriedStores(c: Config, s: Shelf, before: Shelf, data: Block, id: Id, slot: nat)
    requires SoundAll(c, s) && SoundAll(c, before) && before.sections == s.sections && before.robin != []
    requires id == before.robin[0] && Sound(At(c, before, id)) && F.FirstFree(At(c, before, id).used) == Some(slot)
    requires SoundAll(c, Tried(c, before, data, 0))
    ensures Holds(c, s, Tried(c, before, data, 0), data, id, slot)
  {
    hide Retired, Written, SoundAll, R.Rotated, F.FirstFree, Holds;
    SameAt(c, s, before, id);
    OneStored(c, s, Tried(c, before, data, 0), data, id, slot);
  }

  /** What an attempt loads: the section itself and fresh ones. */
  ghost predicate AddsTo(before: Cache, after: Cache, id: Id, from: Id, to: Id)
  {
    forall x: Id | L.Find(after, x).Some? && L.Find(before, x).None? :: x == id || from <= x < to
  }

  lemma AddsBoth(a: Cache, b: Cache, d: Cache, id: Id, from: Id, to: Id)
    requires Adds(a, b, id, id + 1) && Adds(b, d, from, to)
    ensures AddsTo(a, d, id, from, to)
  {
    forall x: Id | L.Find(d, x).Some? && L.Find(a, x).None?
      ensures x == id || from <= x < to
    {
      assert L.Find(b, x).Some? || L.Find(b, x).None?;
    }
  }

  ghost predicate ColdStart(c: Config, s: Shelf, lru: Cache)
  {
    c.floor > 0 && Distinct(s.robin) && Cold(c, s, lru)
  }

  /** Attempts on full sections that had to be loaded have passed over j of them. */
  ghost predicate Passing(c: Config, s: Shelf, j: nat, r: Shelf, lru: Cache)
  {
    c.size > 0 && c.floor > 0 && SoundAll(c, s) && Known(s) && PassedOver(c, s, j, r) && Cold(c, r, lru)
  }

  lemma PassingNone(c: Config, s: Shelf, lru: Cache)
    requires ColdStart(c, s, lru) && c.size > 0 && SoundAll(c, s) && Known(s)
    ensures Passing(c, s, 0, s, lru)
  {
    hide Cold, SoundAll, PassedOver;
    PassedNone(c, s);
  }

  lemma PassingEmpty(c: Config, s: Shelf, j: nat, r: Shelf, lru: Cache)
    requires Passing(c, s, j, r, lru) && r.robin == []
    ensures !InBudget(c, s)
  {
    hide Cold, SoundAll, PassedOver;
    PassedSome(c, s, j, r);
  }

  lemma PassingSpent(c: Config, s: Shelf, j: nat, r: Shelf, lru: Cache)
    requires Passing(c, s, j, r, lru) && j >= |r.robin| + c.floor
    ensures !InBudget(c, s)
  {
    hide Cold, SoundAll, PassedOver, InBudget;
    BudgetSpent(c, s, j, r);
  }

  lemma {:induction false} PassingEnds(c: Config, s: Shelf, j: nat, r: Shelf, lru: Cache)
    requires Passing(c, s, j, r, lru) && r.robin != [] && j < |r.robin| + c.floor
    requires L.Find(lru, r.robin[0]).Some? || !Full(At(c, r, r.robin[0]))
    ensures !Full(At(c, r, r.robin[0])) && InBudget(c, s)
  {
    hide SoundAll, InBudget, Steady, Refilled, Lead, Full, L.Find;
    SameAt(c, s, r, r.robin[0]);
    BudgetLasts(c, s, j, r);
  }

  lemma {:induction false} PassingMore(c: Config, s: Shelf, j: nat, r: Shelf, data: Block, cache: Cache, after: Cache)
    requires Passing(c, s, j, r, cache) && r.robin != [] && Full(At(c, r, r.robin[0])) && SoundAll(c, r)
    requires AddsTo(cache, after, r.robin[0], r.nextId, Tried(c, r, data, -1).nextId)
    ensures Passing(c, s, j + 1, Tried(c, r, data, -1), after)
  {
    hide Steady, Lead, F.FirstFree, L.Find, Retired, Refilled;
    var r' := Tried(c, r, data, -1);
    SameAt(c, s, r, r.robin[0]);
    FullIsNext(c, s, j, r);
    PassMore(c, s, j, r);
    RetiredFrom(c, r);
    forall i | 0 <= i < |r'.robin| && Full(At(c, r', r'.robin[i]))
      ensures L.Find(after, r'.robin[i]).None?
    {
      ColdStays(c, s, r, cache, after, r'.nextId, r'.robin[i]);
    }
  }

  /** A section that is still in the robin after one was retired. */
  lemma {:induction false} RetiredFrom(c: Config, r: Shelf)
    requires r.robin != [] && Distinct(r.robin)
    ensures forall x | x in Retired(c, r.(robin := R.Rotated(r.robin)), r.robin[0]).robin ::
              x in r.robin[1..] || r.nextId <= x
  {
    hide Retired, Fresh;
    var id, a := r.robin[0], r.robin[1..];
    FirstOnce(r.robin);
    var rotated := r.(robin := R.Rotated(r.robin));
    assert rotated.robin == a + [id] + [];
    var front, back := RetiredExact(c, rotated, id, a, []);
    FreshFrom(front + back, r.nextId, Retired(c, rotated, id).nextId);
    forall x | x in front + a + [] + back
      ensures x in a || r.nextId <= x
    {
      if x !in a {
        assert x in front + back;
      }
    }
  }

  lemma {:induction false} ColdStays(c: Config, s: Shelf, r: Shelf, cache: Cache, after: Cache, to: Id, x: Id)
    requires Numbered(s) && c.size > 0 && r.sections == s.sections && s.nextId <= r.nextId && Distinct(r.robin)
    requires r.robin != [] && (x in r.robin[1..] || r.nextId <= x) && Full(At(c, r, x)) && Cold(c, r, cache)
    requires AddsTo(cache, after, r.robin[0], r.nextId, to) && Known(r)
    ensures L.Find(after, x).None?
  {
    SameAt(c, s, r, x);
    FullIsOld(c, s, r, x);
    FirstOnce(r.robin);
    var rest := r.robin[1..];
    assert x in rest;
    var i :| 0 <= i < |rest| && rest[i] == x;
    assert r.robin[i + 1] == x;
    assert L.Find(cache, x).None?;
  }

  lemma FullIsOld(c: Config, s: Shelf, r: Shelf, x: Id)
    requires Numbered(s) && c.size > 0 && s.nextId <= r.nextId && Full(At(c, s, x))
    ensures x < r.nextId
  {
    hide F.FirstFree;
    if s.nextId <= x {
      FreshHasRoom(c, s, x);
    }
  }

  lemma AddsNone(lru: Cache, from: Id)
    ensures Adds(lru, lru, from, from)
  {
  }

  /** The block is in a slot that was free, and every other used slot is as it was. */
  ghost predicate Holds(c: Config, s: Shelf, s': Shelf, data: Block, id: Id, slot: nat)
    requires SoundAll(c, s) && SoundAll(c, s')
  {
    && slot < c.size && !At(c, s, id).used[slot]
    && At(c, s', id).used[slot] && Read(At(c, s', id), slot) == Some(data)
    && (forall x, i | 0 <= i < c.size && At(c, s, x).used[i] ::
          At(c, s', x).used[i] && Read(At(c, s', x), i) == Read(At(c, s, x), i))
  }

  /** Saving a slot map is invisible. */
  lemma {:induction false} SaveInvisible(c: Config, capacity: nat, lru: Cache, disk: Disk, files: Files, i: nat)
    requires Coherent(c.size, capacity, lru, disk) && Filed(c, lru, disk, files) && i < |lru|
    ensures var lru' := lru[i := (lru[i].0, Loaded(lru[i].1.used, false))];
            var disk' := disk[lru[i].0 := lru[i].1.used];
            && Coherent(c.size, capacity, lru', disk') && Filed(c, lru', disk', files)
            && SlotsOf(c.size, lru', disk', files) == SlotsOf(c.size, lru, disk, files)
  {
    hide L.Find;
    var lru' := lru[i := (lru[i].0, Loaded(lru[i].1.used, false))];
    var disk' := disk[lru[i].0 := lru[i].1.used];
    forall x
      ensures UsedAt(c.size, lru', disk', x) == UsedAt(c.size, lru, disk, x)
    {
      if L.Find(lru, x).Some? {
        L.FindIs(lru', x, L.Find(lru, x).value);
      } else {
        assert L.Find(lru', x).None?;
      }
    }
  }

  lemma WrittenParts(slots: Slots, data: Block)
    requires Sound(slots) && !Full(slots)
    ensures F.FirstFree(slots.used).value <= |slots.file|
    ensures Written(slots, data) == var i := F.FirstFree(slots.used).value;
                                    Slots(slots.used[i := true], Place(slots.file, i, data))
    ensures Sound(Written(slots, data))
  {
    hide F.FirstFree;
    var i := F.FirstFree(slots.used).value;
    assert i > 0 ==> slots.used[i - 1];
    WriteKeepsOthers(slots, data);
  }

  lemma FrontSlots(c: Config, lru: Cache, disk: Disk, files: Files, robin: seq<Id>, nextId: Id, target: nat)
    requires lru != [] && Filed(c, lru, disk, files)
    requires lru[0].1.used == At(c, Shelf(SlotsOf(c.size, lru, disk, files), robin, nextId, target), lru[0].0).used
    ensures At(c, Shelf(SlotsOf(c.size, lru, disk, files), robin, nextId, target), lru[0].0) ==
            Slots(lru[0].1.used, if lru[0].0 in files then files[lru[0].0] else [])
  {
  }

  /** The section at the front of the cache gets new contents. */
  lemma {:induction false} FrontWritten(c: Config, capacity: nat, lru: Cache, disk: Disk, files: Files, s: Shelf,
                                        slots: Slots)
    requires Coherent(c.size, capacity, lru, disk) && Filed(c, lru, disk, files) && lru != []
    requires s.sections == SlotsOf(c.size, lru, disk, files) && SoundAll(c, s)
    requires Sound(slots) && |slots.used| == c.size
    ensures var id := lru[0].0;
            var lru', files' := lru[0 := (id, Loaded(slots.used, true))], files[id := slots.file];
            && Coherent(c.size, capacity, lru', disk) && Filed(c, lru', disk, files')
            && SlotsOf(c.size, lru', disk, files') == s.sections[id := slots]
            && SoundAll(c, s.(sections := s.sections[id := slots]))
  {
    hide L.Find, Coherent, UsedAt;
    FrontChanged(c.size, capacity, lru, disk, slots.used);
  }

  /** Soundness does not look at the robin. */
  lemma Resound(c: Config, s: Shelf, s': Shelf)
    requires SoundAll(c, s) && s'.sections == s.sections
    ensures SoundAll(c, s')
  {
  }

  lemma {:induction false} Rotation(c: Config, s: Shelf)
    requires s.robin != [] && Known(s)
    ensures Known(s.(robin := R.Rotated(s.robin))) && s.robin[0] in R.Rotated(s.robin)
    ensures FullCount(c, s.(robin := R.Rotated(s.robin)), R.Rotated(s.robin)) == FullCount(c, s, s.robin)
  {
    var r := R.Rotated(s.robin);
    assert r[|r| - 1] == s.robin[0];
    RotateCounts(c, s);
    FullCountSame(c, s, s.(robin := r), r);
  }

  lemma {:induction false} UnshiftedKnown(s: Shelf, n: nat)
    requires Known(s)
    ensures Known(Unshifted(s, n)) && s.nextId <= Unshifted(s, n).nextId
    decreases n - |s.robin|
  {
    if |s.robin| < n {
      UnshiftedKnown(s.(robin := [s.nextId] + s.robin, nextId := s.nextId + 1), n);
    }
  }

  lemma {:induction false} AppendedKnown(s: Shelf, n: nat)
    requires Known(s)
    ensures Known(Appended(s, n)) && s.nextId <= Appended(s, n).nextId
    decreases n - |s.robin|
  {
    if |s.robin| < n {
      AppendedKnown(s.(robin := s.robin + [s.nextId], nextId := s.nextId + 1), n);
    }
  }

  lemma {:induction false} RetiredKnown(c: Config, s: Shelf, id: Id)
    requires Known(s)
    ensures Known(Retired(c, s, id)) && s.nextId <= Retired(c, s, id).nextId
  {
    var s1 := s.(robin := R.Removed(s.robin, id));
    forall i | 0 <= i < |s1.robin|
      ensures s1.robin[i] < s.nextId
    {
      var p := R.Locate(s.robin, id);
      assert p.Some? ==> s1.robin[i] == s.robin[if i < p.value then i else i + 1];
    }
    UnshiftedKnown(s1, c.floor);
    var s2 := Unshifted(s1, c.floor);
    AppendedKnown(s2, Want(s.target, |s.robin|, |s2.robin|));
  }

  /** Retiring a full section leaves one full section less. */
  lemma {:induction false} Exhausted(c: Config, s: Shelf, id: Id)
    requires Known(s) && SoundAll(c, s) && c.size > 0 && id in s.robin && Full(At(c, s, id))
    ensures var r := Retired(c, s, id);
            Known(r) && FullCount(c, r, r.robin) == FullCount(c, s, s.robin) - 1
  {
    RetiredKnown(c, s, id);
    RetiredCounts(c, s, id);
    FullCountSame(c, s, Retired(c, s, id), Retired(c, s, id).robin);
  }

  lemma {:induction false} Grown(c: Config, s: Shelf)
    requires Known(s) && SoundAll(c, s) && c.size > 0
    ensures var s' := s.(robin := s.robin + [s.nextId], nextId := s.nextId + 1);
            Known(s') && FullCount(c, s', s'.robin) == FullCount(c, s, s.robin)
  {
    var s' := s.(robin := s.robin + [s.nextId], nextId := s.nextId + 1);
    FreshHasRoom(c, s, s.nextId);
    FullCountConcat(c, s, s.robin, [s.nextId]);
    FullCountSame(c, s, s', s'.robin);
  }

  lemma {:induction false} OneStored(c: Config, s: Shelf, s': Shelf, data: Block, id: Id, slot: nat)
    requires SoundAll(c, s) && SoundAll(c, s') && Sound(At(c, s, id))
    requires F.FirstFree(At(c, s, id).used) == Some(slot)
    requires s'.sections == s.sections[id := Written(At(c, s, id), data)]
    ensures Holds(c, s, s', data, id, slot)
  {
    hide F.FirstFree, Written;
    AtSound(c, s, id);
    WriteKeepsOthers(At(c, s, id), data);
    forall x, i | 0 <= i < c.size && At(c, s, x).used[i]
      ensures At(c, s', x).used[i] && Read(At(c, s', x), i) == Read(At(c, s, x), i)
    {
      AtSound(c, s, x);
    }
  }

  lemma FirstHasRoom(c: Config, s: Shelf)
    requires s.robin != []
    ensures Inv(c, s) ==> !Full(At(c, s, s.robin[0]))
  {
  }

  lemma DefragmentedStart(c: Config, s: Shelf, threshold: real)
    requires SoundAll(c, s)
    ensures Defragmented(c, s, [], threshold) == s
    ensures AllMoves(c, s, [], threshold) == []
  {
  }

  /** One more section compacted. */
  lemma {:induction false} DefragmentedStep(c: Config, s: Shelf, ids: seq<Id>, i: nat, threshold: real)
    requires SoundAll(c, s) && Distinct(ids) && i < |ids|
    ensures var before := Defragmented(c, s, ids[..i], threshold);
            var id, slots := ids[i], At(c, s, ids[i]);
            && Sound(slots) && At(c, before, id) == slots
            && Defragmented(c, s, ids[..i + 1], threshold) ==
               (if id in s.sections
                then before.(sections := before.sections[id := Squeezed(slots, threshold)])
                else before)
            && AllMoves(c, s, ids[..i + 1], threshold) ==
               AllMoves(c, s, ids[..i], threshold) +
               (if id in s.sections && Sparse(slots.used, threshold) && Compactable(slots.used)
                then MovesOf(id, F.Relocation(slots.used)) else [])
  {
    hide Squeezed, Sparse, Compactable, F.Relocation, MovesOf;
    assert ids[..i + 1][..i] == ids[..i];
    AtSound(c, s, ids[i]);
    DefragmentedAt(c, s, ids[..i], threshold, ids[i]);
    assert ids[i] !in ids[..i];
  }

  /** A loaded section is what the pool holds for it; without a file it is empty. */
  lemma {:induction false} LoadedSlots(c: Config, capacity: nat, lru: Cache, disk: Disk, files: Files, s: Shelf, i: nat)
    requires Coherent(c.size, capacity, lru, disk) && Filed(c, lru, disk, files) && i < |lru|
    requires s.sections == SlotsOf(c.size, lru, disk, files)
    ensures At(c, s, lru[i].0).used == lru[i].1.used
    ensures lru[i].0 in s.sections <==> lru[i].0 in files
    ensures lru[i].0 in files ==> s.sections[lru[i].0] == Slots(lru[i].1.used, files[lru[i].0])
    ensures lru[i].0 !in files ==> F.Count(lru[i].1.used) == 0
  {
    hide L.Find, F.Count;
    FoundAt(lru, i);
    if lru[i].0 !in files {
      F.CountFront(0, c.size);
    }
  }

  /** Changing and saving the map of a loaded section. */
  lemma {:induction false} LoadedMapChanged(size: nat, capacity: nat, lru: Cache, disk: Disk, i: nat, used: seq<bool>)
    requires Coherent(size, capacity, lru, disk) && i < |lru|
    ensures var id := lru[i].0;
            var lru', disk' := lru[i := (id, Loaded(used, true))], disk[id := used];
            && Coherent(size, capacity, lru', disk')
            && forall x :: UsedAt(size, lru', disk', x) == if x == id then used else UsedAt(size, lru, disk, x)
  {
    hide L.Find;
    var id := lru[i].0;
    var lru', disk' := lru[i := (id, Loaded(used, true))], disk[id := used];
    assert L.Unique(lru');
    forall x
      ensures UsedAt(size, lru', disk', x) == if x == id then used else UsedAt(size, lru, disk, x)
    {
      if x == id {
        L.FindIs(lru', x, i);
      } else if L.Find(lru, x).Some? {
        L.FindIs(lru', x, L.Find(lru, x).value);
      } else {
        assert L.Find(lru', x).None?;
      }
    }
  }

  /** A loaded section gets new contents, which are also saved. */
  lemma {:induction false} LoadedChanged(c: Config, capacity: nat, lru: Cache, disk: Disk, files: Files, s: Shelf,
                                         i: nat, slots: Slots)
    requires Coherent(c.size, capacity, lru, disk) && Filed(c, lru, disk, files) && i < |lru|
    requires s.sections == SlotsOf(c.size, lru, disk, files) && SoundAll(c, s) && lru[i].0 in files
    requires Sound(slots) && |slots.used| == c.size
    ensures var id := lru[i].0;
            var lru', disk' := lru[i := (id, Loaded(slots.used, true))], disk[id := slots.used];
            var files' := files[id := slots.file];
            && Coherent(c.size, capacity, lru', disk') && Filed(c, lru', disk', files')
            && SlotsOf(c.size, lru', disk', files') == s.sections[id := slots]
            && SoundAll(c, s.(sections := s.sections[id := slots]))
  {
    hide L.Find, Coherent, UsedAt;
    LoadedMapChanged(c.size, capacity, lru, disk, i, slots.used);
  }

  lemma IdsDistinct(size: nat, capacity: nat, lru: Cache, disk: Disk)
    requires Coherent(size, capacity, lru, disk)
    ensures Distinct(IdsOf(lru))
  {
  }

  lemma CompactIdle(s: Slots)
    requires Sound(s) && !Compactable(s.used)
    ensures Compacted(s) == s
  {
  }

  lemma Unchanged(m: map<Id, Slots>, id: Id)
    requires id in m
    ensures m[id := m[id]] == m
  {
  }
}
