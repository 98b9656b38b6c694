/**
 A section: a slot bitmap and a data file of equal-sized blocks, with the in-place
 compaction that moves the used slots to the front.
 */
module Section {
  import opened Entries
  import F = FreeMap

  type Block = seq<Byte>

  /** Slot i of the file is the block at offset i times the block size. */
  datatype Slots = Slots(used: seq<bool>, file: seq<Block>)

  /** Every used slot lies inside the file. */
  predicate Sound(s: Slots)
  {
    && |s.file| <= |s.used|
    && forall i | 0 <= i < |s.used| && s.used[i] :: i < |s.file|
  }

  function Read(s: Slots, i: nat): Option<Block>
  {
    if i < |s.file| then Some(s.file[i]) else None
  }

  /** Write a block into the file, at its end or over an old one. */
  function Place(file: seq<Block>, i: nat, data: Block): (r: seq<Block>)
    requires i <= |file|
    ensures |r| == if i < |file| then |file| else i + 1
    ensures forall j | 0 <= j < |file| && j != i :: r[j] == file[j]
    ensures r[i] == data
  {
    if i < |file| then file[i := data] else file + [data]
  }

  /** The slot a write takes: the lowest free one. */
  function Written(s: Slots, data: Block): (r: Slots)
    requires Sound(s)
  {
    match F.FirstFree(s.used)
    case None => s
    case Some(i) =>
      assert i > 0 ==> s.used[i - 1];
      Slots(s.used[i := true], Place(s.file, i, data))
  }

  /** A write keeps what every used slot reads, takes a slot that was free, and that
      slot then reads what was written. */
  lemma {:induction false} WriteKeepsOthers(s: Slots, data: Block)
    requires Sound(s)
    ensures Sound(Written(s, data))
    ensures F.FirstFree(s.used).None? <==> F.Count(s.used) == |s.used|
    ensures F.FirstFree(s.used).Some? ==>
              var i := F.FirstFree(s.used).value;
              && !s.used[i] && Written(s, data).used[i] && Read(Written(s, data), i) == Some(data)
              && F.Count(Written(s, data).used) == F.Count(s.used) + 1
    ensures forall j | 0 <= j < |s.used| && s.used[j] ::
              Written(s, data).used[j] && Read(Written(s, data), j) == Read(s, j)
  {
    if F.FirstFree(s.used).Some? {
      CountUpdate(s.used, F.FirstFree(s.used).value);
      CountBound(s.used, F.FirstFree(s.used).value);
    } else {
      F.CountAll(s.used);
    }
  }

  lemma {:induction false} CountUpdate(used: seq<bool>, i: nat)
    requires i < |used| && !used[i]
    ensures F.Count(used[i := true]) == F.Count(used) + 1
  {
    var used' := used[i := true];
    var rest := used[..|used| - 1];
    if i == |used| - 1 {
      assert used'[..|used| - 1] == rest;
    } else {
      assert used'[..|used| - 1] == rest[i := true];
      CountUpdate(rest, i);
    }
  }

  lemma {:induction false} CountBound(used: seq<bool>, i: nat)
    requires i < |used| && !used[i]
    ensures F.Count(used) < |used|
  {
    if i < |used| - 1 {
      CountBound(used[..|used| - 1], i);
    }
  }

  // ---- compaction ----

  /** Carry out the first m entries of a relocation, one copy after the other. */
  function Moved(file: seq<Block>, plan: seq<Option<nat>>, m: nat): (r: seq<Block>)
    requires m <= |plan|
    requires forall k | 0 <= k < m && plan[k].Some? :: plan[k].value <= k < |file|
    ensures |r| == |file|
  {
    if m == 0 then file
    else
      var before := Moved(file, plan, m - 1);
      match plan[m - 1]
      case None => before
      case Some(to) => if to == m - 1 then before else before[to := before[m - 1]]
  }

  /** A relocation that never moves up and never sends two slots to one place. */
  predicate Downward(plan: seq<Option<nat>>, size: nat)
  {
    && (forall k | 0 <= k < |plan| && plan[k].Some? :: plan[k].value <= k < size)
    && (forall j, k | 0 <= j < k < |plan| && plan[j].Some? && plan[k].Some? :: plan[j].value < plan[k].value)
  }

  /** A place nothing was copied to keeps its block. */
  lemma {:induction false} MovedElsewhere(file: seq<Block>, plan: seq<Option<nat>>, m: nat, p: nat)
    requires m <= |plan| && Downward(plan, |file|) && p < |file|
    requires forall k | 0 <= k < m :: plan[k] != Some(p)
    ensures Moved(file, plan, m)[p] == file[p]
  {
    if m > 0 {
      MovedElsewhere(file, plan, m - 1, p);
    }
  }

  /** The ascending copy never overwrites a source it still has to read. */
  lemma {:induction false} MovedSoFar(file: seq<Block>, plan: seq<Option<nat>>, m: nat)
    requires m <= |plan| && Downward(plan, |file|)
    ensures forall k | 0 <= k < m && plan[k].Some? :: Moved(file, plan, m)[plan[k].value] == file[k]
    ensures forall k | m <= k < |file| :: Moved(file, plan, m)[k] == file[k]
  {
    if m > 0 {
      MovedSoFar(file, plan, m - 1);
    }
  }

  /** Compaction is skipped when it would move nothing. */
  predicate Compactable(used: seq<bool>)
  {
    0 < F.Count(used) < |used| && F.Extent(used) > F.Count(used)
  }

  function Compacted(s: Slots): Slots
    requires Sound(s)
  {
    if !Compactable(s.used) then s
    else
      PlanIsDownward(s);
      var n := F.Count(s.used);
      FitsFile(s);
      Slots(F.Front(n, |s.used|), Moved(s.file, F.Relocation(s.used), |s.used|)[..n])
  }

  /** Where a block that was in slot i is afterwards. */
  function NewIndex(used: seq<bool>, i: nat): nat
  {
    if Compactable(used) && i < |used| && F.Relocation(used)[i].Some?
    then F.Relocation(used)[i].value else i
  }

  lemma {:induction false} PlanIsDownward(s: Slots)
    requires Sound(s)
    ensures Downward(F.Relocation(s.used), |s.file|)
  {
    hide F.Relocation;
    F.RelocationCompacts(s.used);
  }

  lemma {:induction false} FitsFile(s: Slots)
    requires Sound(s)
    ensures F.Count(s.used) <= |s.file|
  {
    F.CountEmpty(s.used, |s.file|);
  }

  /** Compaction is invisible: every used slot reads the same block under its new
      index, no two used slots share one, the used slots are the first ones, and none
      is lost. */
  lemma {:induction false} CompactKeepsReads(s: Slots)
    requires Sound(s)
    ensures Sound(Compacted(s)) && |Compacted(s).used| == |s.used|
    ensures F.Count(Compacted(s).used) == F.Count(s.used)
    ensures Compacted(s).used == F.Front(F.Count(s.used), |s.used|) ||
            (!Compactable(s.used) && Compacted(s) == s)
    ensures forall i | 0 <= i < |s.used| && s.used[i] ::
              var j := NewIndex(s.used, i);
              j < |s.used| && Compacted(s).used[j] && Read(Compacted(s), j) == Read(s, i)
    ensures forall i, j | 0 <= i < j < |s.used| && s.used[i] && s.used[j] ::
              NewIndex(s.used, i) < NewIndex(s.used, j)
  {
    if Compactable(s.used) {
      hide F.Relocation, Moved, F.Count, F.Extent, Compacted, NewIndex, F.Front;
      CompactedShape(s);
      forall i | 0 <= i < |s.used| && s.used[i]
        ensures var j := NewIndex(s.used, i);
                j < |s.used| && Compacted(s).used[j] && Read(Compacted(s), j) == Read(s, i)
      {
        CompactedRead(s, i);
      }
      forall i, j | 0 <= i < j < |s.used| && s.used[i] && s.used[j]
        ensures NewIndex(s.used, i) < NewIndex(s.used, j)
      {
        CompactedOrder(s.used, i, j);
      }
    }
  }

  lemma {:induction false} CompactedShape(s: Slots)
    requires Sound(s) && Compactable(s.used)
    ensures var n := F.Count(s.used);
            && Compacted(s).used == F.Front(n, |s.used|) && |Compacted(s).file| == n
            && Sound(Compacted(s)) && F.Count(Compacted(s).used) == n
  {
    hide F.Relocation, Moved, F.Count, F.Extent;
    PlanIsDownward(s);
    FitsFile(s);
    F.CountFront(F.Count(s.used), |s.used|);
  }

  lemma {:induction false} CompactedRead(s: Slots, i: nat)
    requires Sound(s) && Compactable(s.used) && i < |s.used| && s.used[i]
    ensures var j := NewIndex(s.used, i);
            && |Compacted(s).used| == |s.used| && j < |s.used|
            && Compacted(s).used[j] && Read(Compacted(s), j) == Read(s, i)
  {
    hide F.Relocation, Moved, F.Count, F.Extent;
    F.RelocationCompacts(s.used);
    PlanIsDownward(s);
    FitsFile(s);
    MovedSoFar(s.file, F.Relocation(s.used), |s.used|);
    assert F.Relocation(s.used)[i].Some?;
  }

  lemma {:induction false} CompactedOrder(used: seq<bool>, i: nat, j: nat)
    requires Compactable(used) && i < j < |used| && used[i] && used[j]
    ensures NewIndex(used, i) < NewIndex(used, j)
  {
    hide F.Relocation, F.Count, F.Extent;
    F.RelocationCompacts(used);
    assert F.Relocation(used)[i].Some? && F.Relocation(used)[j].Some?;
  }

  /** The skipped cases are exactly those in which the used slots are the first ones. */
  lemma {:induction false} CompactReachesFront(s: Slots)
    requires Sound(s)
    ensures Compacted(s).used == F.Front(F.Count(s.used), |s.used|)
  {
    hide F.Relocation, Moved;
    F.NoGap(s.used);
    if F.Count(s.used) == |s.used| {
      assert s.used[..|s.used|] == s.used;
      F.CountFull(s.used, |s.used|);
    } else if F.Count(s.used) == 0 {
      forall i | 0 <= i < |s.used|
        ensures !s.used[i]
      {
        F.CountTake(s.used, i);
        F.CountMonotone(s.used, i + 1, |s.used|);
        assert s.used[..|s.used|] == s.used;
      }
    }
  }

  // ---- replaying the plan after an interruption ----

  /** What recovery does with the plan of an interrupted compaction: nothing more if
      the file is already cut, else every copy from the start. */
  function Recovered(file: seq<Block>, used: seq<bool>): (r: Slots)
    requires Downward(F.Relocation(used), |file|) && F.Count(used) <= |file|
  {
    var n := F.Count(used);
    Slots(F.Front(n, |used|),
          if |file| <= n then file else Moved(file, F.Relocation(used), |used|)[..n])
  }

  /** Some copy among the first m landed on a used slot and changed it. */
  predicate Clobbered(s: Slots, m: nat)
    requires Sound(s) && m <= |s.used|
  {
    PlanIsDownward(s);
    var plan := F.Relocation(s.used);
    exists k | 0 <= k < m && plan[k].Some? :: s.used[plan[k].value] && s.file[k] != s.file[plan[k].value]
  }

  /** Recovery brings what is in a used slot to its new place. */
  lemma {:induction false} RecoveryMoves(s: Slots, partial: seq<Block>, i: nat)
    requires Sound(s) && Compactable(s.used) && |partial| == |s.file| && i < |s.used| && s.used[i]
    ensures Downward(F.Relocation(s.used), |partial|) && F.Count(s.used) <= |partial| && i < |partial|
    ensures Read(Recovered(partial, s.used), NewIndex(s.used, i)) == Some(partial[i])
  {
    hide F.Relocation, Moved, F.Count, F.Extent;
    PlanIsDownward(s);
    F.RelocationCompacts(s.used);
    assert s.used[F.Extent(s.used) - 1];
    MovedSoFar(partial, F.Relocation(s.used), |s.used|);
    assert F.Relocation(s.used)[i].Some?;
  }

  lemma {:induction false} ClobberedReads(s: Slots, m: nat)
    requires Sound(s) && m <= |s.used| && Downward(F.Relocation(s.used), |s.file|)
    ensures Clobbered(s, m) <==>
            exists i | 0 <= i < |s.used| && s.used[i] :: Moved(s.file, F.Relocation(s.used), m)[i] != s.file[i]
  {
    hide F.Relocation, Moved;
    var plan := F.Relocation(s.used);
    var partial := Moved(s.file, plan, m);
    MovedSoFar(s.file, plan, m);
    if Clobbered(s, m) {
      var k :| 0 <= k < m && plan[k].Some? && s.used[plan[k].value] && s.file[k] != s.file[plan[k].value];
      assert partial[plan[k].value] != s.file[plan[k].value];
    } else {
      forall i | 0 <= i < |s.used| && s.used[i]
        ensures partial[i] == s.file[i]
      {
        Unclobbered(s, m, i);
      }
    }
  }

  /** After a crash that follows the first m copies, recovery gives every block back
      if and only if none of them had changed a slot that was in use. */
  lemma {:induction false} RecoveryExact(s: Slots, m: nat)
    requires Sound(s) && Compactable(s.used) && m <= |s.used|
    ensures Downward(F.Relocation(s.used), |s.file|) && F.Count(s.used) <= |s.file|
    ensures var partial := Moved(s.file, F.Relocation(s.used), m);
            (forall i | 0 <= i < |s.used| && s.used[i] ::
               Read(Recovered(partial, s.used), NewIndex(s.used, i)) == Read(s, i))
            <==> !Clobbered(s, m)
  {
    PlanIsDownward(s);
    FitsFile(s);
    hide F.Relocation, Moved, F.Count, F.Extent, Recovered, NewIndex, Clobbered, Compactable, Downward;
    ClobberedReads(s, m);
    var partial := Moved(s.file, F.Relocation(s.used), m);
    forall i | 0 <= i < |s.used| && s.used[i]
      ensures Read(Recovered(partial, s.used), NewIndex(s.used, i)) == Some(partial[i])
    {
      RecoveryMoves(s, partial, i);
    }
  }

  lemma {:induction false} Unclobbered(s: Slots, m: nat, i: nat)
    requires Sound(s) && m <= |s.used| && !Clobbered(s, m) && i < |s.used| && s.used[i]
    requires Downward(F.Relocation(s.used), |s.file|)
    ensures Moved(s.file, F.Relocation(s.used), m)[i] == s.file[i]
  {
    hide F.Relocation, Moved;
    var plan := F.Relocation(s.used);
    MovedSoFar(s.file, plan, m);
    if k :| 0 <= k < m && plan[k] == Some(i) {
      assert s.file[k] == s.file[i];
    } else {
      MovedElsewhere(s.file, plan, m, i);
    }
  }

  /** With slots 1 and 2 in use, replaying the plan after its three steps loses the
      block of slot 1: its new place, slot 0, reads the block of slot 2. */
  lemma {:induction false} RecoveryLosesBlock(a: Block, b: Block, c: Block)
    requires b != c
    ensures var s := Slots([false, true, true], [a, b, c]);
            && Sound(s) && Compactable(s.used) && Downward(F.Relocation(s.used), 3) && F.Count(s.used) <= 3
            && NewIndex(s.used, 1) == 0 && Read(s, 1) == Some(b)
            && Read(Recovered(Moved(s.file, F.Relocation(s.used), 3), s.used), 0) == Some(c)
  {
    var s := Slots([false, true, true], [a, b, c]);
    var used := s.used;
    assert used[..2] == [false, true] && used[..2][..1] == [false] && used[..1][..0] == [];
    PlanIsDownward(s);
    var plan := F.Relocation(used);
    F.RelocationAt(used, 0);
    F.RelocationAt(used, 1);
    F.RelocationAt(used, 2);
    assert F.Count(used[..1]) == 0 && F.Count(used[..2]) == 1 && F.Count(used) == 2;
    F.ExtentIs(used, 3);
    assert plan[0] == None && plan[1] == Some(0) && plan[2] == Some(1);
    TwoMoves(s.file, plan, a, b, c);
    TwoMoves([b, c, c], plan, b, c, c);
  }

  lemma TwoMoves(file: seq<Block>, plan: seq<Option<nat>>, a: Block, b: Block, c: Block)
    requires file == [a, b, c] && |plan| == 3 && plan[0] == None && plan[1] == Some(0) && plan[2] == Some(1)
    ensures Downward(plan, 3) && Moved(file, plan, 3) == [b, c, c]
  {
    assert Moved(file, plan, 1) == [a, b, c];
    assert Moved(file, plan, 2) == [b, b, c];
  }

  class Section {
    const blockSize: nat
    var freeMap: F.FreeMap
    var file: seq<Block>
    var dirty: bool

    ghost predicate Valid()
      reads this, freeMap, freeMap.words
    {
      freeMap.Valid() && Sound(State())
    }

    ghost function State(): Slots
      requires freeMap.Valid()
      reads this, freeMap, freeMap.words
    {
      Slots(freeMap.Used(), file)
    }

    /** A new section: every slot free, no file yet. */
    constructor (size: nat, blockSize: nat)
      ensures Valid() && State() == Slots(F.Front(0, size), []) && !dirty
      ensures fresh(freeMap) && fresh(freeMap.words) && this.blockSize == blockSize
    {
      this.blockSize := blockSize;
      freeMap := new F.FreeMap(size);
      file := [];
      dirty := false;
    }

    /** Result 0 and the slot taken; 1 for a block of the wrong size; 2 for a full
        section. */
    method Write(data: Block) returns (result: nat, index: nat, full: bool)
      requires Valid()
      modifies this`file, this`dirty, freeMap.words
      ensures Valid()
      ensures result == if |data| != blockSize then 1 else if F.FirstFree(old(State()).used).None? then 2 else 0
      ensures State() == if result == 0 then Written(old(State()), data) else old(State())
      ensures result == 0 ==> F.FirstFree(old(State()).used) == Some(index)
      ensures full <==> F.Count(State().used) == |State().used|
      ensures dirty == (old(dirty) || result == 0)
    {
      hide F.FirstFree, F.Count, F.UsedOf;
      index := 0;
      WriteKeepsOthers(State(), data);
      if |data| != blockSize {
        full := freeMap.IsFull();
        return 1, 0, full;
      }
      var slot := freeMap.Alloc();
      if slot.None? {
        return 2, 0, true;
      }
      index := slot.value;
      assert index > 0 ==> old(State()).used[index - 1];
      file := Place(file, index, data);
      dirty := true;
      WriteKeepsOthers(State(), data);
      full := freeMap.IsFull();
      result := 0;
    }

    method ReadBlock(index: nat) returns (r: Option<Block>)
      requires Valid()
      ensures r == Read(State(), index)
    {
      if index < |file| {
        return Some(file[index]);
      }
      r := None;
    }

    method Deallocate(index: nat) returns (ok: bool)
      requires Valid()
      modifies this`dirty, freeMap.words
      ensures Valid()
      ensures ok <==> index < |old(State()).used| && old(State()).used[index]
      ensures State() == if ok then old(State()).(used := old(State()).used[index := false]) else old(State())
      ensures dirty == (old(dirty) || ok)
    {
      hide F.UsedOf;
      ok := freeMap.Dealloc(index);
      if ok {
        dirty := true;
      }
    }

    /** Compact the section; the result is the relocation, or nothing if the section
        was left alone. */
    method Defragment() returns (relocation: Option<seq<Option<nat>>>)
      requires Valid()
      modifies this`file, this`dirty, freeMap.words
      ensures Valid()
      ensures State() == Compacted(old(State()))
      ensures relocation == if Compactable(old(State()).used) then Some(F.Relocation(old(State()).used)) else None
      ensures dirty == (old(dirty) || relocation.Some?)
    {
      hide F.Relocation, Moved, F.Count, F.Extent, F.Front, F.UsedOf;
      ghost var s := State();
      CompactKeepsReads(s);
      F.NoGap(s.used);
      var free := freeMap.CountFree();
      var used := freeMap.total - free;
      var highest := freeMap.HighestUsed();
      if used == 0 || free == 0 || highest < used {
        return None;
      }
      PlanIsDownward(s);
      FitsFile(s);
      var plan, n := freeMap.Defragment();
      MoveData(plan);
      file := file[..n];
      dirty := true;
      relocation := Some(plan[..]);
    }

    /** The copy loop: each block is read and written again, lowest first. */
    method MoveData(plan: array<Option<nat>>)
      requires Downward(plan[..], |file|)
      modifies this`file
      ensures file == Moved(old(file), plan[..], plan.Length)
    {
      var i := 0;
      while i < plan.Length
        invariant 0 <= i <= plan.Length
        invariant file == Moved(old(file), plan[..], i)
      {
        if plan[i].Some? && plan[i].value != i {
          var block := file[i];
          file := file[plan[i].value := block];
        }
        i := i + 1;
      }
    }
  }
}
