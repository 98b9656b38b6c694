/**
 The pool of sections as its callers see it: which blocks each section holds, which
 sections the round robin hands out, and the next unused id.
 */
module Shelf {
  import opened Entries
  import opened Section
  import F = FreeMap
  import I = Listing
  import R = Robin

  type Id = nat

  /** Slots per section, bytes per block and the least number of sections in the robin. */
  datatype Config = Config(size: nat, blockSize: nat, floor: nat)

  /** `target` is the number of sections the byte limit allows, 0 when there is none. */
  datatype Shelf = Shelf(sections: map<Id, Slots>, robin: seq<Id>, nextId: Id, target: nat)

  /** A section nothing was written to is all free and has no file. */
  function At(c: Config, s: Shelf, id: Id): Slots
  {
    if id in s.sections then s.sections[id] else Slots(F.Front(0, c.size), [])
  }

  predicate Full(slots: Slots)
  {
    F.FirstFree(slots.used).None?
  }

  /** Fresh sections in front of the robin until it holds n. */
  function Unshifted(s: Shelf, n: nat): (r: Shelf)
    ensures r.sections == s.sections && r.target == s.target
    decreases n - |s.robin|
  {
    if |s.robin| >= n then s
    else Unshifted(s.(robin := [s.nextId] + s.robin, nextId := s.nextId + 1), n)
  }

  /** Fresh sections at the end of the robin until it holds n. */
  function Appended(s: Shelf, n: nat): (r: Shelf)
    ensures r.sections == s.sections && r.target == s.target
    decreases n - |s.robin|
  {
    if |s.robin| >= n then s
    else Appended(s.(robin := s.robin + [s.nextId], nextId := s.nextId + 1), n)
  }

  /** Enough sections for the limit and one more; no ceiling without a limit.  The sum
      that is rounded up is a 64-bit one. */
  function TargetFor(c: Config, limit: U64): nat
  {
    var bytes := c.size * c.blockSize;
    if limit == 0 || bytes == 0 then 0 else Wrap(limit + bytes - 1) / bytes + 1
  }

  /** The ceiling is the least number of sections that covers the limit, and one more,
      unless the limit is so near to the end of a word that the sum wraps: then it is a
      single section. */
  lemma {:induction false} TargetCovers(c: Config, limit: U64, bytes: nat)
    requires bytes == c.size * c.blockSize && limit > 0 && bytes > 0
    ensures limit + bytes <= TWO_TO_64 ==>
              && TargetFor(c, limit) > 1 && (TargetFor(c, limit) - 1) * bytes >= limit
              && (TargetFor(c, limit) - 2) * bytes < limit
    ensures limit + bytes > TWO_TO_64 && bytes < TWO_TO_64 ==> TargetFor(c, limit) == 1
  {
    var sum := limit + bytes - 1;
    if sum < TWO_TO_64 {
      Ceiling(limit, bytes);
    } else if bytes < TWO_TO_64 {
      assert Wrap(sum) == sum - TWO_TO_64 < bytes;
      Below(Wrap(sum), bytes);
    }
  }

  lemma Ceiling(limit: nat, bytes: nat)
    requires limit > 0 && bytes > 0
    ensures var n := (limit + bytes - 1) / bytes; n > 0 && n * bytes >= limit && (n - 1) * bytes < limit
  {
    var n := (limit + bytes - 1) / bytes;
    assert limit + bytes - 1 == n * bytes + (limit + bytes - 1) % bytes;
    assert (n - 1) * bytes == n * bytes - bytes;
  }

  lemma Below(x: nat, bytes: nat)
    requires x < bytes
    ensures x / bytes == 0
  {
  }

  /** How many sections a full event aims for: one more than before, within the
      capacity, or no growth at all. */
  function Want(target: nat, before: nat, now: nat): nat
  {
    if target == 0 || target <= now then 0
    else
      var want := (if before >= now then before else now) + 1;
      if want > target then target else want
  }

  /** A section was found full: it leaves the robin, the robin is refilled to the
      floor, and grows by one section while the capacity allows. */
  function Retired(c: Config, s: Shelf, id: Id): (r: Shelf)
    ensures r.sections == s.sections && r.target == s.target
  {
    var refilled := Unshifted(s.(robin := R.Removed(s.robin, id)), c.floor);
    Appended(refilled, Want(s.target, |s.robin|, |refilled.robin|))
  }

  predicate Distinct(ids: seq<Id>)
  {
    forall i, j | 0 <= i < j < |ids| :: ids[i] != ids[j]
  }

  predicate SoundAll(c: Config, s: Shelf)
  {
    forall id | id in s.sections :: Sound(s.sections[id]) && |s.sections[id].used| == c.size
  }

  /** No section has the next id or one after it. */
  predicate Numbered(s: Shelf)
  {
    forall id | id in s.sections :: id < s.nextId
  }

  /** The next id and those after it are unused. */
  predicate Known(s: Shelf)
  {
    Numbered(s) && forall i | 0 <= i < |s.robin| :: s.robin[i] < s.nextId
  }

  /** No section occurs twice in the robin, and every one has room, save for some
      not looked at yet. */
  predicate RoomyBut(c: Config, s: Shelf, pending: set<Id>)
  {
    && Known(s) && Distinct(s.robin)
    && forall i | 0 <= i < |s.robin| :: s.robin[i] in pending || !Full(At(c, s, s.robin[i]))
  }

  predicate Roomy(c: Config, s: Shelf)
  {
    RoomyBut(c, s, {})
  }

  /** What every operation keeps, once the start-up scrub is over. */
  predicate Inv(c: Config, s: Shelf)
  {
    SoundAll(c, s) && Roomy(c, s) && |s.robin| >= c.floor
  }

  lemma AtSound(c: Config, s: Shelf, id: Id)
    requires SoundAll(c, s)
    ensures Sound(At(c, s, id)) && |At(c, s, id).used| == c.size
  {
  }

  lemma {:induction false} FreshHasRoom(c: Config, s: Shelf, id: Id)
    requires id !in s.sections && c.size > 0
    ensures At(c, s, id) == Slots(F.Front(0, c.size), []) && !Full(At(c, s, id))
  {
    assert !F.Front(0, c.size)[0];
  }

  lemma {:induction false} UnshiftedKeeps(c: Config, s: Shelf, n: nat, pending: set<Id>)
    requires SoundAll(c, s) && RoomyBut(c, s, pending) && c.size > 0
    ensures SoundAll(c, Unshifted(s, n)) && RoomyBut(c, Unshifted(s, n), pending)
    ensures |Unshifted(s, n).robin| == if |s.robin| >= n then |s.robin| else n
    ensures s.nextId <= Unshifted(s, n).nextId
    decreases n - |s.robin|
  {
    if |s.robin| < n {
      FreshHasRoom(c, s, s.nextId);
      var s' := s.(robin := [s.nextId] + s.robin, nextId := s.nextId + 1);
      assert forall i | 0 < i < |s'.robin| :: s'.robin[i] == s.robin[i - 1];
      UnshiftedKeeps(c, s', n, pending);
    }
  }

  lemma {:induction false} AppendedKeeps(c: Config, s: Shelf, n: nat, pending: set<Id>)
    requires SoundAll(c, s) && RoomyBut(c, s, pending) && c.size > 0
    ensures SoundAll(c, Appended(s, n)) && RoomyBut(c, Appended(s, n), pending)
    ensures |Appended(s, n).robin| == if |s.robin| >= n then |s.robin| else n
    ensures s.nextId <= Appended(s, n).nextId
    decreases n - |s.robin|
  {
    if |s.robin| < n {
      FreshHasRoom(c, s, s.nextId);
      AppendedKeeps(c, s.(robin := s.robin + [s.nextId], nextId := s.nextId + 1), n, pending);
    }
  }

  /** Whatever happened to one section, retiring it leaves a robin in which every
      other section has room if it had, and which reaches the floor. */
  lemma {:induction false} RetiredKeeps(c: Config, s: Shelf, id: Id, pending: set<Id>)
    requires SoundAll(c, s) && c.size > 0 && RoomyBut(c, s, pending + {id})
    ensures SoundAll(c, Retired(c, s, id)) && RoomyBut(c, Retired(c, s, id), pending - {id})
    ensures |Retired(c, s, id).robin| >= c.floor && s.nextId <= Retired(c, s, id).nextId
  {
    var s' := s.(robin := R.Removed(s.robin, id));
    RemovedOthers(s.robin, id);
    UnshiftedKeeps(c, s', c.floor, pending - {id});
    var refilled := Unshifted(s', c.floor);
    AppendedKeeps(c, refilled, Want(s.target, |s.robin|, |refilled.robin|), pending - {id});
  }

  lemma {:induction false} RemovedOthers(ids: seq<Id>, id: Id)
    requires Distinct(ids)
    ensures Distinct(R.Removed(ids, id))
    ensures forall i | 0 <= i < |R.Removed(ids, id)| :: R.Removed(ids, id)[i] in ids && R.Removed(ids, id)[i] != id
  {
    var r := R.Removed(ids, id);
    match R.Locate(ids, id)
    case None =>
    case Some(p) =>
      forall i | 0 <= i < |r|
        ensures r[i] == ids[if i < p then i else i + 1]
      {
      }
  }

  /** A write that goes to the first section of the robin. */
  function Store(c: Config, s: Shelf, data: Block): (r: (Shelf, Id, nat))
    requires SoundAll(c, s) && Roomy(c, s) && s.robin != []
    requires c.size > 0
  {
    var id := s.robin[0];
    var slots := At(c, s, id);
    var slot := F.FirstFree(slots.used).value;
    var slots' := Written(slots, data);
    var s' := s.(robin := R.Rotated(s.robin), sections := s.sections[id := slots']);
    (if Full(slots') then Retired(c, s', id) else s', id, slot)
  }

  /** With a floor of at least one section, a write succeeds on its first attempt:
      it takes a free slot, that slot then holds the block, every used slot of every
      section still reads what it did, and the robin still has room. */
  lemma {:induction false} WriteSucceeds(c: Config, s: Shelf, data: Block)
    requires Inv(c, s) && c.size > 0 && c.floor > 0
    ensures var (s', id, slot) := Store(c, s, data);
            && Inv(c, s')
            && slot < c.size && !At(c, s, id).used[slot]
            && At(c, s', id).used[slot] && Read(At(c, s', id), slot) == Some(data)
            && (forall x, i | 0 <= i < c.size && At(c, s, x).used[i] ::
                  At(c, s', x).used[i] && Read(At(c, s', x), i) == Read(At(c, s, x), i))
            && (forall x, i | 0 <= i < c.size && At(c, s', x).used[i] ::
                  At(c, s, x).used[i] || (x == id && i == slot))
  {
    hide F.FirstFree, R.Removed, Retired, F.Front, Sound;
    var id := s.robin[0];
    var slots := At(c, s, id);
    AtSound(c, s, id);
    var slots' := Written(slots, data);
    var s1 := s.(robin := R.Rotated(s.robin), sections := s.sections[id := slots']);
    WriteKeepsOthers(slots, data);
    assert forall i | 0 <= i < |s.robin| - 1 :: s1.robin[i] == s.robin[i + 1];
    assert SoundAll(c, s1);
    if Full(slots') {
      RetiredKeeps(c, s1, id, {});
    }
  }

  // ---- writes go round ----

  /** Blocks written one after the other, and the sections they went to. */
  function Writes(c: Config, s: Shelf, blocks: seq<Block>): (r: (Shelf, seq<Id>))
    requires Inv(c, s) && c.size > 0 && c.floor > 0
    ensures Inv(c, r.0)
  {
    if blocks == [] then (s, [])
    else
      var (before, ids) := Writes(c, s, blocks[..|blocks| - 1]);
      WriteSucceeds(c, before, blocks[|blocks| - 1]);
      var (after, id, slot) := Store(c, before, blocks[|blocks| - 1]);
      (after, ids + [id])
  }

  /** Some section of the robin has two free slots at least. */
  predicate Spacious(c: Config, s: Shelf, id: Id)
  {
    F.Count(At(c, s, id).used) + 1 < c.size
  }

  /** A write to a section that it does not fill: the next write goes to the next one. */
  lemma {:induction false} WriteRotates(c: Config, s: Shelf, data: Block)
    requires Inv(c, s) && c.size > 0 && c.floor > 0 && Spacious(c, s, s.robin[0])
    ensures var (r, id, slot) := Store(c, s, data);
            && id == s.robin[0] && r.robin == s.robin[1..] + [s.robin[0]]
            && forall x | x != id :: At(c, r, x) == At(c, s, x)
  {
    hide F.FirstFree, F.Count, Retired;
    var id := s.robin[0];
    AtSound(c, s, id);
    WriteKeepsOthers(At(c, s, id), data);
    var after := Written(At(c, s, id), data);
    if Full(after) {
      WriteKeepsOthers(after, data);
    }
  }

  /** As long as no section fills up, writes go to the sections of the robin in turn, each
      one once in a round. */
  lemma {:induction false} RoundOfWrites(c: Config, s: Shelf, blocks: seq<Block>)
    requires Inv(c, s) && c.size > 0 && c.floor > 0 && |blocks| <= |s.robin|
    requires forall i | 0 <= i < |s.robin| :: Spacious(c, s, s.robin[i])
    ensures var n, (r, ids) := |blocks|, Writes(c, s, blocks);
            && ids == s.robin[..n] && r.robin == s.robin[n..] + s.robin[..n]
            && forall i | n <= i < |s.robin| :: At(c, r, s.robin[i]) == At(c, s, s.robin[i])
  {
    hide Store, Spacious, At, SoundAll;
    var n := |blocks|;
    if n == 0 {
      assert s.robin[0..] + s.robin[..0] == s.robin;
    } else {
      var init := blocks[..n - 1];
      RoundOfWrites(c, s, init);
      var (before, ids) := Writes(c, s, init);
      assert before.robin[0] == s.robin[n - 1];
      SameSpace(c, s, before, s.robin[n - 1]);
      WriteRotates(c, before, blocks[n - 1]);
      var (r, id, slot) := Store(c, before, blocks[n - 1]);
      assert ids + [id] == s.robin[..n];
      assert before.robin[1..] + [before.robin[0]] == s.robin[n..] + s.robin[..n];
    }
  }

  lemma SameSpace(c: Config, s: Shelf, t: Shelf, id: Id)
    requires At(c, t, id) == At(c, s, id)
    ensures Spacious(c, t, id) == Spacious(c, s, id)
  {
  }

  // ---- starting up ----

  /** Retire the full sections among the given ids, in order. */
  function Scrubbed(c: Config, s: Shelf, ids: seq<Id>): (r: Shelf)
    ensures r.sections == s.sections && r.target == s.target
  {
    if ids == [] then s
    else
      var rest := Scrubbed(c, s, ids[..|ids| - 1]);
      var id := ids[|ids| - 1];
      if Full(At(c, rest, id)) then Retired(c, rest, id) else rest
  }

  /** What a start makes of the saved robin, once the next id is chosen. */
  function Started(c: Config, s: Shelf): (r: Shelf)
    ensures r.sections == s.sections && r.target == s.target
  {
    Appended(Scrubbed(c, s, s.robin), c.floor)
  }

  /** The sections that have room, in order. */
  function WithRoom(c: Config, s: Shelf, ids: seq<Id>): (r: seq<Id>)
    ensures forall i | 0 <= i < |r| :: r[i] in ids && !Full(At(c, s, r[i]))
  {
    if ids == [] then []
    else
      var id := ids[|ids| - 1];
      WithRoom(c, s, ids[..|ids| - 1]) + if Full(At(c, s, id)) then [] else [id]
  }

  /** Distinct ids that were given out one after the other. */
  predicate Fresh(ids: seq<Id>, from: Id, to: Id)
  {
    from <= to && Distinct(ids) && forall i | 0 <= i < |ids| :: from <= ids[i] < to
  }

  lemma {:induction false} UnshiftedShape(s: Shelf, n: nat) returns (front: seq<Id>)
    ensures Unshifted(s, n).robin == front + s.robin && Fresh(front, s.nextId, Unshifted(s, n).nextId)
    decreases n - |s.robin|
  {
    front := [];
    if |s.robin| < n {
      var rest := UnshiftedShape(s.(robin := [s.nextId] + s.robin, nextId := s.nextId + 1), n);
      front := rest + [s.nextId];
      assert rest + ([s.nextId] + s.robin) == front + s.robin;
    }
  }

  lemma {:induction false} AppendedShape(s: Shelf, n: nat) returns (back: seq<Id>)
    ensures Appended(s, n).robin == s.robin + back && Fresh(back, s.nextId, Appended(s, n).nextId)
    decreases n - |s.robin|
  {
    back := [];
    if |s.robin| < n {
      var rest := AppendedShape(s.(robin := s.robin + [s.nextId], nextId := s.nextId + 1), n);
      back := [s.nextId] + rest;
      assert (s.robin + [s.nextId]) + rest == s.robin + back;
    }
  }

  lemma {:induction false} LocateIs(ids: seq<Id>, id: Id, p: nat)
    requires p < |ids| && ids[p] == id && id !in ids[..p]
    ensures R.Locate(ids, id) == Some(p)
  {
    if p > 0 {
      assert ids[..p] == [ids[0]] + ids[1..][..p - 1];
      LocateIs(ids[1..], id, p - 1);
    }
  }

  lemma ScrubbedPush(c: Config, s: Shelf, n: nat)
    requires 0 < n <= |s.robin|
    ensures var r, id := Scrubbed(c, s, s.robin[..n - 1]), s.robin[n - 1];
            && Scrubbed(c, s, s.robin[..n]) == (if Full(At(c, s, id)) then Retired(c, r, id) else r)
            && WithRoom(c, s, s.robin[..n]) ==
               WithRoom(c, s, s.robin[..n - 1]) + (if Full(At(c, s, id)) then [] else [id])
            && s.robin[n - 1..] == [id] + s.robin[n..]
  {
    hide Full, Retired, At;
    assert s.robin[..n][..n - 1] == s.robin[..n - 1];
    SameAt(c, s, Scrubbed(c, s, s.robin[..n - 1]), s.robin[n - 1]);
  }

  lemma ScrubbedNone(c: Config, s: Shelf)
    ensures s.robin[..0] == [] && s.robin[0..] == s.robin
    ensures Scrubbed(c, s, []) == s && WithRoom(c, s, []) == []
  {
  }

  lemma {:induction false} ScrubbedShape(c: Config, s: Shelf, n: nat) returns (front: seq<Id>, back: seq<Id>)
    requires n <= |s.robin| && forall i | 0 <= i < |s.robin| :: s.robin[i] < s.nextId
    ensures var r := Scrubbed(c, s, s.robin[..n]);
            && r.robin == front + WithRoom(c, s, s.robin[..n]) + s.robin[n..] + back
            && Fresh(front + back, s.nextId, r.nextId)
  {
    hide Full, Retired, Fresh, At, Scrubbed, WithRoom;
    if n == 0 {
      front, back := [], [];
      NoneFresh(s.nextId);
      ScrubbedNone(c, s);
      assert [] + [] + s.robin + [] == s.robin;
    } else {
      front, back := ScrubbedShape(c, s, n - 1);
      ScrubbedPush(c, s, n);
      var r, id, rest := Scrubbed(c, s, s.robin[..n - 1]), s.robin[n - 1], s.robin[n..];
      var done := WithRoom(c, s, s.robin[..n - 1]);
      if Full(At(c, s, id)) {
        assert id !in done;
        front, back := ScrubStep(c, r, id, front, done, rest, back, s.nextId);
        assert done + [] == done;
      } else {
        assert front + done + ([id] + rest) + back == front + (done + [id]) + rest + back;
      }
    }
  }

  lemma {:induction false} ScrubStep(c: Config, r: Shelf, id: Id, front: seq<Id>, done: seq<Id>, rest: seq<Id>,
                                     back: seq<Id>, from: Id)
    returns (front': seq<Id>, back': seq<Id>)
    requires r.robin == front + done + ([id] + rest) + back
    requires Fresh(front + back, from, r.nextId) && id < from && id !in done
    ensures Retired(c, r, id).robin == front' + done + rest + back'
    ensures Fresh(front' + back', from, Retired(c, r, id).nextId)
  {
    hide Retired, Fresh;
    FreshNot(front + back, from, r.nextId, id);
    assert r.robin == (front + done) + [id] + (rest + back);
    var x, y := RetiredExact(c, r, id, front + done, rest + back);
    FreshAround(front, back, x, y, from, r.nextId, Retired(c, r, id).nextId);
    front', back' := x + front, back + y;
    assert x + (front + done) + (rest + back) + y == (x + front) + done + rest + (back + y);
  }

  lemma SameAt(c: Config, s: Shelf, r: Shelf, id: Id)
    requires r.sections == s.sections
    ensures At(c, r, id) == At(c, s, id)
  {
  }

  lemma NoneFresh(from: Id)
    ensures Fresh([], from, from)
  {
  }

  lemma FreshNot(ids: seq<Id>, from: Id, to: Id, id: Id)
    requires Fresh(ids, from, to) && id < from
    ensures id !in ids
  {
  }

  lemma {:induction false} FreshAround(front: seq<Id>, back: seq<Id>, x: seq<Id>, y: seq<Id>, from: Id, mid: Id, to: Id)
    requires Fresh(front + back, from, mid) && Fresh(x + y, mid, to)
    ensures Fresh((x + front) + (back + y), from, to)
  {
    var inner, outer, all := front + back, x + y, (x + front) + (back + y);
    var a, b := |x|, |x| + |inner|;
    forall i | 0 <= i < |all|
      ensures a <= i < b ==> all[i] == inner[i - a] < mid
      ensures !(a <= i < b) ==> all[i] == outer[if i < a then i else i - |inner|] >= mid
    {
    }
  }

  /** The ids of sections with a file and of those in the robin. */
  function InUse(s: Shelf): set<Id>
  {
    s.sections.Keys + set id | id in s.robin
  }

  /** A start that finds the maps of the listed sections, whatever was saved and also with
      repetitions.  The ids it gives out are unused, if and only if the last listed name
      in string order is that of the greatest id in use.  Then the pool starts with enough
      sections and with room in every one of them, and no section is in the robin twice,
      so that every write succeeds, if and only if no section with room was saved twice. */
  lemma {:induction false} StartHasRoom(c: Config, s: Shelf, listed: set<Id>)
    requires SoundAll(c, s) && c.size > 0 && listed <= s.sections.Keys
    ensures var s0 := s.(nextId := I.NextId(listed));
            var fine := InUse(s) == {} || exists g :: I.Greatest(listed, InUse(s), g);
            var r := Started(c, s0);
            && (Known(s0) <==> fine)
            && SoundAll(c, r) && (fine ==> |r.robin| >= c.floor && (Inv(c, r) <==> Distinct(WithRoom(c, s, s.robin))))
            && (fine ==> forall i | 0 <= i < |r.robin| :: r.robin[i] < r.nextId && !Full(At(c, r, r.robin[i])))
  {
    hide Started, WithRoom, Full, Inv;
    var s0 := s.(nextId := I.NextId(listed));
    I.NextUnused(listed, InUse(s));
    KnownIsUnused(s0);
    SameRoom(c, s, s0, s.robin);
    if Known(s0) {
      KnownHasRoom(c, s0);
    }
  }

  lemma KnownIsUnused(s: Shelf)
    ensures Known(s) <==> forall id | id in InUse(s) :: id < s.nextId
  {
    if forall id | id in InUse(s) :: id < s.nextId {
      forall i | 0 <= i < |s.robin|
        ensures s.robin[i] < s.nextId
      {
        assert s.robin[i] in InUse(s);
      }
      forall id | id in s.sections
        ensures id < s.nextId
      {
        assert id in InUse(s);
      }
    }
  }

  lemma {:induction false} SameRoom(c: Config, s: Shelf, r: Shelf, ids: seq<Id>)
    requires r.sections == s.sections
    ensures WithRoom(c, r, ids) == WithRoom(c, s, ids)
  {
    if ids != [] {
      SameRoom(c, s, r, ids[..|ids| - 1]);
    }
  }

  /** The sections with room stay in the robin in their order, among fresh ones. */
  lemma {:induction false} StartKeeps(c: Config, s: Shelf) returns (front: seq<Id>, back: seq<Id>)
    requires Known(s)
    ensures var r := Started(c, s);
            r.robin == front + WithRoom(c, s, s.robin) + back && Fresh(front + back, s.nextId, r.nextId)
  {
    hide Scrubbed, WithRoom, F.FirstFree, Appended, Fresh;
    var ids := s.robin;
    assert ids[..|ids|] == ids && ids[|ids|..] == [];
    var before, after := ScrubbedShape(c, s, |ids|);
    var mid := Scrubbed(c, s, ids);
    var more := AppendedShape(mid, c.floor);
    assert [] + more == more && [] + before == before;
    FreshAround(before, after, [], more, s.nextId, mid.nextId, Started(c, s).nextId);
    front, back := before, after + more;
  }

  /** Eleven listed sections, the last one in the robin with room, and a floor of two:
      the start puts that section into the robin a second time. */
  lemma {:induction false} EleventhSectionTwice(c: Config, s: Shelf)
    requires c.floor == 2 && s.sections.Keys == I.Upto(10) && s.robin == [10] && !Full(At(c, s, 10))
    ensures var r := Started(c, s.(nextId := I.NextId(I.Upto(10))));
            r.robin == [10, 10] && !Inv(c, r)
  {
    hide Full, Inv;
    I.ElevenSections();
    var s0 := s.(nextId := 10);
    assert [10][..0] == [] && Scrubbed(c, s0, []) == s0;
    assert Scrubbed(c, s0, [10]) == s0;
    assert Appended(s0.(robin := [10] + [10], nextId := 11), 2).robin == [10] + [10];
    TwiceIn(c, Started(c, s0), 10);
  }

  lemma TwiceIn(c: Config, s: Shelf, id: Id)
    requires s.robin == [id] + [id]
    ensures !Inv(c, s)
  {
    assert s.robin[0] == s.robin[1];
  }

  /** A robin that was saved before anything was written has ids that are not listed.  The
      section that is filled first then comes back to the front of the robin, full. */
  lemma {:induction false} UnlistedSectionReturns(c: Config, s: Shelf)
    requires c.floor == 2 && s.target == 0 && s.robin == [1, 0] && s.nextId == I.NextId({}) && Full(At(c, s, 0))
    ensures Retired(c, s, 0).robin == [0, 1] && !Roomy(c, Retired(c, s, 0))
  {
    hide Full, Known;
    var r := Retired(c, s, 0);
    assert R.Removed([1, 0], 0) == [1];
    assert Unshifted(s.(robin := [1]), 2) == s.(robin := [0] + [1], nextId := 1);
    assert r.robin[0] == 0;
    SameAt(c, s, r, 0);
  }

  /** With ids that are unused. */
  lemma {:induction false} KnownHasRoom(c: Config, s: Shelf)
    requires SoundAll(c, s) && c.size > 0 && Known(s)
    ensures var r := Started(c, s);
            && SoundAll(c, r) && |r.robin| >= c.floor
            && (forall i | 0 <= i < |r.robin| :: r.robin[i] < r.nextId && !Full(At(c, r, r.robin[i])))
            && (Inv(c, r) <==> Distinct(WithRoom(c, s, s.robin)))
  {
    hide Scrubbed, WithRoom, F.FirstFree;
    var ids := s.robin;
    assert ids[..|ids|] == ids && ids[|ids|..] == [];
    var front, back := ScrubbedShape(c, s, |ids|);
    var mid := Scrubbed(c, s, ids);
    var more := AppendedShape(mid, c.floor);
    AppendedLength(mid, c.floor);
    var r, done := Started(c, s), WithRoom(c, s, ids);
    FreshAround(front, back, [], more, s.nextId, mid.nextId, r.nextId);
    assert [] + front == front;
    assert r.robin == front + done + (back + more);
    forall i | 0 <= i < |r.robin|
      ensures r.robin[i] < r.nextId && !Full(At(c, r, r.robin[i]))
    {
      StartedAt(c, s, front, done, back + more, r.nextId, i);
    }
    AroundDistinct(front, done, back + more, s.nextId, r.nextId);
  }

  /** A place of the new robin is fresh, or had room when it was saved. */
  lemma {:induction false} StartedAt(c: Config, s: Shelf, front: seq<Id>, done: seq<Id>, back: seq<Id>, to: Id, i: nat)
    requires Numbered(s) && c.size > 0 && Fresh(front + back, s.nextId, to)
    requires forall j | 0 <= j < |done| :: done[j] < s.nextId && !Full(At(c, s, done[j]))
    requires i < |front + done + back|
    ensures var id := (front + done + back)[i]; id < to && !Full(At(c, s, id))
  {
    hide F.FirstFree;
    var id := (front + done + back)[i];
    if |front| <= i < |front + done| {
      assert id == done[i - |front|];
    } else {
      assert id == (front + back)[if i < |front| then i else i - |done|];
      FreshHasRoom(c, s, id);
    }
  }

  lemma {:induction false} AroundDistinct(front: seq<Id>, done: seq<Id>, back: seq<Id>, from: Id, to: Id)
    requires Fresh(front + back, from, to) && forall i | 0 <= i < |done| :: done[i] < from
    ensures Distinct(front + done + back) <==> Distinct(done)
  {
    var all, outer := front + done + back, front + back;
    var a, b := |front|, |front| + |done|;
    assert forall j | 0 <= j < |done| :: all[j + a] == done[j];
    forall i | 0 <= i < |all|
      ensures a <= i < b ==> all[i] == done[i - a] < from
      ensures !(a <= i < b) ==> all[i] == outer[if i < a then i else i - |done|] >= from
    {
    }
  }

  // ---- the number of full sections in the robin ----

  function FullCount(c: Config, s: Shelf, ids: seq<Id>): nat
  {
    if ids == [] then 0
    else FullCount(c, s, ids[..|ids| - 1]) + if Full(At(c, s, ids[|ids| - 1])) then 1 else 0
  }

  lemma {:induction false} FullCountConcat(c: Config, s: Shelf, a: seq<Id>, b: seq<Id>)
    ensures FullCount(c, s, a + b) == FullCount(c, s, a) + FullCount(c, s, b)
  {
    if b == [] {
      assert a + b == a;
    } else {
      assert (a + b)[..|a + b| - 1] == a + b[..|b| - 1];
      FullCountConcat(c, s, a, b[..|b| - 1]);
    }
  }

  lemma {:induction false} FullCountSame(c: Config, s: Shelf, s': Shelf, ids: seq<Id>)
    requires s.sections == s'.sections
    ensures FullCount(c, s, ids) == FullCount(c, s', ids)
  {
    if ids != [] {
      FullCountSame(c, s, s', ids[..|ids| - 1]);
    }
  }

  /** Handing out a section does not change how many are full. */
  lemma {:induction false} RotateCounts(c: Config, s: Shelf)
    requires s.robin != []
    ensures FullCount(c, s, R.Rotated(s.robin)) == FullCount(c, s, s.robin)
  {
    FullCountConcat(c, s, s.robin[1..], [s.robin[0]]);
    FullCountConcat(c, s, [s.robin[0]], s.robin[1..]);
    assert [s.robin[0]] + s.robin[1..] == s.robin;
  }

  lemma {:induction false} UnshiftedCounts(c: Config, s: Shelf, n: nat)
    requires Numbered(s) && c.size > 0
    ensures FullCount(c, s, Unshifted(s, n).robin) == FullCount(c, s, s.robin)
    ensures Numbered(Unshifted(s, n))
    decreases n - |s.robin|
  {
    if |s.robin| < n {
      FreshHasRoom(c, s, s.nextId);
      var s' := s.(robin := [s.nextId] + s.robin, nextId := s.nextId + 1);
      FullCountConcat(c, s, [s.nextId], s.robin);
      UnshiftedCounts(c, s', n);
      FullCountSame(c, s, s', Unshifted(s', n).robin);
      FullCountSame(c, s, s', s'.robin);
    }
  }

  lemma {:induction false} AppendedCounts(c: Config, s: Shelf, n: nat)
    requires Numbered(s) && c.size > 0
    ensures FullCount(c, s, Appended(s, n).robin) == FullCount(c, s, s.robin)
    ensures Numbered(Appended(s, n))
    decreases n - |s.robin|
  {
    if |s.robin| < n {
      FreshHasRoom(c, s, s.nextId);
      var s' := s.(robin := s.robin + [s.nextId], nextId := s.nextId + 1);
      FullCountConcat(c, s, s.robin, [s.nextId]);
      AppendedCounts(c, s', n);
      FullCountSame(c, s, s', Appended(s', n).robin);
      FullCountSame(c, s, s', s'.robin);
    }
  }

  /** Each retry takes one full section out of the robin and adds only empty ones,
      so from any robin the attempts come to an end. */
  lemma {:induction false} RetiredCounts(c: Config, s: Shelf, id: Id)
    requires Numbered(s) && c.size > 0 && id in s.robin && Full(At(c, s, id))
    ensures Numbered(Retired(c, s, id))
    ensures FullCount(c, s, Retired(c, s, id).robin) == FullCount(c, s, s.robin) - 1
  {
    var p := R.Locate(s.robin, id).value;
    var a, b := s.robin[..p], s.robin[p + 1..];
    assert s.robin == a + [id] + b;
    FullCountConcat(c, s, a + [id], b);
    FullCountConcat(c, s, a, [id]);
    FullCountConcat(c, s, a, b);
    var s1 := s.(robin := a + b);
    var s2 := Unshifted(s1, c.floor);
    UnshiftedCounts(c, s1, c.floor);
    AppendedCounts(c, s2, Want(s.target, |s.robin|, |s2.robin|));
    FullCountSame(c, s, s1, s1.robin);
    FullCountSame(c, s1, s2, s2.robin);
    FullCountSame(c, s, s2, Retired(c, s, id).robin);
  }

  // ---- how long a write keeps trying ----

  function Max(a: int, b: int): int
  {
    if a >= b then a else b
  }

  /** How many full sections the robin would hand out first. */
  function Lead(c: Config, s: Shelf, ids: seq<Id>): (k: nat)
    ensures k <= |ids|
    ensures forall i | 0 <= i < k :: Full(At(c, s, ids[i]))
    ensures k < |ids| ==> !Full(At(c, s, ids[k]))
  {
    if ids == [] || !Full(At(c, s, ids[0])) then 0
    else
      var rest := Lead(c, s, ids[1..]);
      assert forall i | 0 < i < rest + 1 :: ids[i] == ids[1..][i - 1];
      rest + 1
  }

  /** How many attempts a write spends on full sections.  When the robin falls to its
      floor a fresh section comes to its front, unless the byte limit allows more. */
  function Spent(c: Config, s: Shelf): int
  {
    var k, refill := Lead(c, s, s.robin), Max(1, |s.robin| - c.floor + 1);
    if s.target > c.floor || k <= refill then k else refill
  }

  /** The budget, the size of the robin and its floor, outlasts these attempts. */
  predicate InBudget(c: Config, s: Shelf)
  {
    s.robin != [] && Spent(c, s) < Max(|s.robin| - Spent(c, s), Max(c.floor, s.target)) + c.floor
  }

  /** What j attempts on full sections leave: the rest of the robin, with fresh sections
      behind it. */
  predicate Steady(c: Config, s: Shelf, j: nat, r: Shelf)
  {
    var n, most := |s.robin|, Max(c.floor, s.target);
    && j <= n <= j + |r.robin| && r.robin[..n - j] == s.robin[j..]
    && (forall i | n - j <= i < |r.robin| :: s.nextId <= r.robin[i]) && (j == 0 ==> |r.robin| == n)
    && if n > most then |r.robin| == Max(n - j, most) && (s.target <= c.floor ==> j <= n - c.floor)
       else |r.robin| >= n && (n <= c.floor ==> j == 0)
  }

  /** Or the robin fell to its floor, and a fresh section is in front. */
  predicate Refilled(c: Config, s: Shelf, j: nat, r: Shelf)
  {
    var n, most := |s.robin|, Max(c.floor, s.target);
    && r.robin != [] && s.nextId <= r.robin[0]
    && if n > most then |r.robin| == most == c.floor && j == n - c.floor + 1 else j == 1
  }

  predicate PassedOver(c: Config, s: Shelf, j: nat, r: Shelf)
  {
    && r.sections == s.sections && r.target == s.target && s.nextId <= r.nextId
    && Distinct(r.robin) && (forall i | 0 <= i < |r.robin| :: r.robin[i] < r.nextId)
    && j <= Lead(c, s, s.robin) && (Steady(c, s, j, r) || Refilled(c, s, j, r))
  }

  lemma {:induction false} PassedNone(c: Config, s: Shelf)
    requires Distinct(s.robin) && forall i | 0 <= i < |s.robin| :: s.robin[i] < s.nextId
    ensures PassedOver(c, s, 0, s)
  {
    assert s.robin[..|s.robin|] == s.robin[0..] == s.robin;
  }

  lemma {:induction false} RetiredSize(c: Config, s: Shelf, id: Id, a: seq<Id>)
    requires s.robin == a + [id] && id !in a
    ensures var m := Max(|a|, c.floor); |Retired(c, s, id).robin| == Max(m, Want(s.target, |s.robin|, m))
  {
    hide Unshifted, Appended;
    assert s.robin[..|a|] == a;
    LocateIs(s.robin, id, |a|);
    assert R.Removed(s.robin, id) == a;
    var s1 := s.(robin := a);
    UnshiftedLength(s1, c.floor);
    var s2 := Unshifted(s1, c.floor);
    AppendedLength(s2, Want(s.target, |s.robin|, |s2.robin|));
  }

  /** One more full section is passed over. */
  lemma {:induction false} PassMore(c: Config, s: Shelf, j: nat, r: Shelf)
    requires PassedOver(c, s, j, r) && Steady(c, s, j, r) && j < Lead(c, s, s.robin) && c.floor > 0
    requires forall i | 0 <= i < |s.robin| :: s.robin[i] < s.nextId
    ensures r.robin != []
    ensures PassedOver(c, s, j + 1, Retired(c, r.(robin := R.Rotated(r.robin)), r.robin[0]))
  {
    hide Lead, Retired, Steady, Refilled, Fresh, Distinct, Want;
    SteadySome(c, s, j, r);
    var id, a := r.robin[0], r.robin[1..];
    FirstOnce(r.robin);
    var rotated := r.(robin := R.Rotated(r.robin));
    assert rotated.robin == a + [id] + [] == a + [id];
    var front, back := RetiredExact(c, rotated, id, a, []);
    RetiredSize(c, rotated, id, a);
    assert a + [] == a;
    var r' := Retired(c, rotated, id);
    assert front + a + [] + back == front + a + back;
    PassShape(a, front, back, r.nextId, r'.nextId);
    if front == [] {
      assert front + back == back && front + a + back == a + back;
      FreshFrom(back, r.nextId, r'.nextId);
      PassSteady(c, s, j, r, r', back);
    } else {
      PassRefilled(c, s, j, r, r');
    }
  }

  lemma SteadySome(c: Config, s: Shelf, j: nat, r: Shelf)
    requires Steady(c, s, j, r) && j < |s.robin|
    ensures r.robin != []
  {
  }

  lemma FirstOnce(ids: seq<Id>)
    requires Distinct(ids) && ids != []
    ensures ids[0] !in ids[1..] && Distinct(ids[1..])
  {
  }

  lemma FreshFrom(ids: seq<Id>, from: Id, to: Id)
    requires Fresh(ids, from, to)
    ensures from <= to && forall i | 0 <= i < |ids| :: from <= ids[i]
  {
  }

  lemma {:induction false} PassRefilled(c: Config, s: Shelf, j: nat, r: Shelf, r': Shelf)
    requires Steady(c, s, j, r) && j < |s.robin| && 0 < |r.robin| <= c.floor
    requires r'.robin != [] && s.nextId <= r'.robin[0]
    requires |r'.robin| == Max(c.floor, Want(s.target, |r.robin|, c.floor))
    ensures Refilled(c, s, j + 1, r')
  {
  }

  lemma {:induction false} PassSteady(c: Config, s: Shelf, j: nat, r: Shelf, r': Shelf, back: seq<Id>)
    requires Steady(c, s, j, r) && j < |s.robin| && r.robin != [] && |r.robin| > c.floor
    requires r'.robin == r.robin[1..] + back && forall i | 0 <= i < |back| :: s.nextId <= back[i]
    requires |r'.robin| == Max(|r.robin| - 1, Want(s.target, |r.robin|, |r.robin| - 1))
    ensures Steady(c, s, j + 1, r')
  {
    var n := |s.robin|;
    assert r'.robin[..n - j - 1] == r.robin[..n - j][1..] == s.robin[j + 1..];
    forall i | n - j - 1 <= i < |r'.robin|
      ensures s.nextId <= r'.robin[i]
    {
      assert r'.robin[i] == if i < |r.robin| - 1 then r.robin[i + 1] else back[i - |r.robin| + 1];
    }
  }

  lemma {:induction false} PassShape(a: seq<Id>, front: seq<Id>, back: seq<Id>, from: Id, to: Id)
    requires Distinct(a) && (forall i | 0 <= i < |a| :: a[i] < from) && Fresh(front + back, from, to)
    ensures Distinct(front + a + back) && forall i | 0 <= i < |front + a + back| :: (front + a + back)[i] < to
    ensures front != [] ==> from <= (front + a + back)[0]
  {
    AroundDistinct(front, a, back, from, to);
    var all, outer := front + a + back, front + back;
    forall i | 0 <= i < |all|
      ensures all[i] < to
    {
      assert all[i] == if |front| <= i < |front| + |a| then a[i - |front|]
                       else outer[if i < |front| then i else i - |a|];
    }
    if front != [] {
      assert all[0] == outer[0];
    }
  }

  /** The attempt after which the budget is spent. */
  lemma {:induction false} BudgetSpent(c: Config, s: Shelf, j: nat, r: Shelf)
    requires PassedOver(c, s, j, r) && c.floor > 0 && j >= |r.robin| + c.floor
    ensures !InBudget(c, s)
  {
    hide Lead;
  }

  lemma {:induction false} PassedSome(c: Config, s: Shelf, j: nat, r: Shelf)
    requires PassedOver(c, s, j, r) && c.floor > 0
    ensures r.robin == [] ==> s.robin == []
  {
    hide Lead;
  }

  /** A full section at the front is the next of the old robin. */
  lemma {:induction false} FullIsNext(c: Config, s: Shelf, j: nat, r: Shelf)
    requires PassedOver(c, s, j, r) && Numbered(s) && c.size > 0 && r.robin != [] && Full(At(c, s, r.robin[0]))
    ensures Steady(c, s, j, r) && j < Lead(c, s, s.robin)
  {
    hide Lead, F.FirstFree;
    if s.nextId <= r.robin[0] {
      FreshHasRoom(c, s, r.robin[0]);
    }
    if Steady(c, s, j, r) && j < |s.robin| {
      assert r.robin[0] == s.robin[j..][0] == s.robin[j];
    }
  }

  /** The attempt that finds room. */
  lemma {:induction false} BudgetLasts(c: Config, s: Shelf, j: nat, r: Shelf)
    requires PassedOver(c, s, j, r) && c.floor > 0 && j < |r.robin| + c.floor
    requires r.robin != [] && !Full(At(c, s, r.robin[0]))
    ensures InBudget(c, s)
  {
    hide Lead, F.FirstFree;
    if Steady(c, s, j, r) && j < |s.robin| {
      assert r.robin[0] == s.robin[j..][0] == s.robin[j];
    }
  }

  /** A robin of full sections only, with no ceiling above the floor: the write gives up
      if and only if there are at least three times as many as the floor, less one. */
  lemma {:induction false} FullRobinExhausts(c: Config, s: Shelf)
    requires 0 < c.floor <= |s.robin| && s.target <= c.floor && Lead(c, s, s.robin) == |s.robin|
    ensures InBudget(c, s) <==> |s.robin| < 3 * c.floor - 1
  {
    hide Lead;
  }

  // ---- reading, and compaction ----

  /** Loading a section for a read puts it back into the robin if it has room. */
  function Touched(c: Config, s: Shelf, id: Id): Shelf
  {
    if !Full(At(c, s, id)) && id !in s.robin then s.(robin := s.robin + [id]) else s
  }

  /** A section that is loaded rejoins the robin, at its end, exactly if it is not in it and
      has a free slot; the invariant is kept. */
  lemma {:induction false} TouchedKeeps(c: Config, s: Shelf, id: Id)
    requires Inv(c, s) && id < s.nextId
    ensures Inv(c, Touched(c, s, id))
    ensures var r, used := Touched(c, s, id), At(c, s, id).used;
            && r == s.(robin := r.robin)
            && r.robin == if id !in s.robin && (exists i | 0 <= i < |used| :: !used[i]) then s.robin + [id] else s.robin
  {
    var used := At(c, s, id).used;
    if F.FirstFree(used).Some? {
      assert !used[F.FirstFree(used).value];
    }
  }

  /** Worth compacting: more than one used slot, and occupancy below the threshold. */
  predicate Sparse(used: seq<bool>, threshold: real)
  {
    |used| > 0 && F.Count(used) > 1 && F.Count(used) as real / |used| as real < threshold
  }

  function Squeezed(slots: Slots, threshold: real): Slots
    requires Sound(slots)
  {
    if Sparse(slots.used, threshold) then Compacted(slots) else slots
  }

  /** Compact the sparse ones among some sections, one after the other. */
  function Defragmented(c: Config, s: Shelf, ids: seq<Id>, threshold: real): (r: Shelf)
    requires SoundAll(c, s)
    ensures SoundAll(c, r) && r.robin == s.robin && r.nextId == s.nextId && r.target == s.target
    ensures r.sections.Keys == s.sections.Keys
  {
    if ids == [] then s
    else
      var rest := Defragmented(c, s, ids[..|ids| - 1], threshold);
      var id := ids[|ids| - 1];
      if id !in rest.sections then rest
      else
        CompactKeepsReads(rest.sections[id]);
        rest.(sections := rest.sections[id := Squeezed(rest.sections[id], threshold)])
  }

  /** Each section is compacted at most once, on its own. */
  lemma {:induction false} DefragmentedAt(c: Config, s: Shelf, ids: seq<Id>, threshold: real, id: Id)
    requires SoundAll(c, s) && Distinct(ids)
    ensures Sound(At(c, s, id))
    ensures At(c, Defragmented(c, s, ids, threshold), id) ==
            if id in ids && id in s.sections then Squeezed(At(c, s, id), threshold) else At(c, s, id)
  {
    AtSound(c, s, id);
    if ids != [] {
      var init, last := ids[..|ids| - 1], ids[|ids| - 1];
      DefragmentedAt(c, s, init, threshold, id);
      assert ids == init + [last];
      assert last !in init;
    }
  }

  /** Where compaction takes the block in a slot. */
  function Relocated(c: Config, s: Shelf, ids: seq<Id>, threshold: real, id: Id, i: nat): nat
  {
    var used := At(c, s, id).used;
    if id in ids && id in s.sections && Sparse(used, threshold) then NewIndex(used, i) else i
  }

  /** One section of a compaction: reads kept, order kept, room kept. */
  ghost predicate SectionKept(c: Config, s: Shelf, ids: seq<Id>, threshold: real, id: Id)
    requires SoundAll(c, s)
  {
    var before, after := At(c, s, id), At(c, Defragmented(c, s, ids, threshold), id);
    && |before.used| == c.size == |after.used| && (Full(before) <==> Full(after))
    && (forall i | 0 <= i < c.size && before.used[i] ::
          var j := Relocated(c, s, ids, threshold, id, i);
          j < c.size && after.used[j] && Read(after, j) == Read(before, i))
    && (forall i, k | 0 <= i < k < c.size && before.used[i] && before.used[k] ::
          Relocated(c, s, ids, threshold, id, i) < Relocated(c, s, ids, threshold, id, k))
  }

  lemma {:induction false} SectionIsKept(c: Config, s: Shelf, ids: seq<Id>, threshold: real, id: Id)
    requires SoundAll(c, s) && Distinct(ids)
    ensures SectionKept(c, s, ids, threshold, id)
  {
    hide Defragmented, Sparse, Compacted, NewIndex, Sound, F.FirstFree;
    DefragmentedAt(c, s, ids, threshold, id);
    AtSound(c, s, id);
    CompactKeepsReads(At(c, s, id));
    RoomIsCount(At(c, s, id).used);
    RoomIsCount(At(c, Defragmented(c, s, ids, threshold), id).used);
  }

  /** The place of one block after a compaction. */
  lemma {:induction false} DefragmentKeepsRead(c: Config, s: Shelf, ids: seq<Id>, threshold: real, id: Id, i: nat)
    requires SoundAll(c, s) && Distinct(ids) && i < |At(c, s, id).used| && At(c, s, id).used[i]
    ensures var j, t := Relocated(c, s, ids, threshold, id, i), At(c, Defragmented(c, s, ids, threshold), id);
            j < |t.used| && t.used[j] && Read(t, j) == Read(At(c, s, id), i)
  {
    hide Relocated, Defragmented, At;
    SectionIsKept(c, s, ids, threshold, id);
  }

  lemma {:induction false} DefragmentKeepsOrder(c: Config, s: Shelf, ids: seq<Id>, threshold: real, id: Id, i: nat,
                                                k: nat)
    requires SoundAll(c, s) && Distinct(ids) && i < k < |At(c, s, id).used|
    requires At(c, s, id).used[i] && At(c, s, id).used[k]
    ensures Relocated(c, s, ids, threshold, id, i) < Relocated(c, s, ids, threshold, id, k)
  {
    hide Relocated, Defragmented, At;
    SectionIsKept(c, s, ids, threshold, id);
  }

  lemma {:induction false} DefragmentKeepsInv(c: Config, s: Shelf, ids: seq<Id>, threshold: real)
    requires Inv(c, s) && Distinct(ids)
    ensures Inv(c, Defragmented(c, s, ids, threshold))
  {
    hide Defragmented, Relocated, Full, At;
    var r := Defragmented(c, s, ids, threshold);
    forall i | 0 <= i < |r.robin|
      ensures !Full(At(c, r, r.robin[i]))
    {
      SectionIsKept(c, s, ids, threshold, r.robin[i]);
    }
  }

  /** Compaction is invisible through the relocation: every used slot reads the same
      block at its new place, distinct slots stay distinct, and the robin keeps its
      room. */
  lemma {:induction false} DefragmentKeepsReads(c: Config, s: Shelf, ids: seq<Id>, threshold: real)
    requires Inv(c, s) && Distinct(ids)
    ensures Inv(c, Defragmented(c, s, ids, threshold))
    ensures forall id, i | 0 <= i < |At(c, s, id).used| && At(c, s, id).used[i] ::
              var j, t := Relocated(c, s, ids, threshold, id, i), At(c, Defragmented(c, s, ids, threshold), id);
              j < |t.used| && t.used[j] && Read(t, j) == Read(At(c, s, id), i)
    ensures forall id, i, k | 0 <= i < k < |At(c, s, id).used| && At(c, s, id).used[i] && At(c, s, id).used[k] ::
              Relocated(c, s, ids, threshold, id, i) < Relocated(c, s, ids, threshold, id, k)
  {
    DefragmentKeepsInv(c, s, ids, threshold);
    hide Defragmented, Relocated, At, SoundAll, RoomyBut;
    forall id, i | 0 <= i < |At(c, s, id).used| && At(c, s, id).used[i]
      ensures var j, t := Relocated(c, s, ids, threshold, id, i), At(c, Defragmented(c, s, ids, threshold), id);
              j < |t.used| && t.used[j] && Read(t, j) == Read(At(c, s, id), i)
    {
      DefragmentKeepsRead(c, s, ids, threshold, id, i);
    }
    forall id, i, k | 0 <= i < k < |At(c, s, id).used| && At(c, s, id).used[i] && At(c, s, id).used[k]
      ensures Relocated(c, s, ids, threshold, id, i) < Relocated(c, s, ids, threshold, id, k)
    {
      DefragmentKeepsOrder(c, s, ids, threshold, id, i, k);
    }
  }

  /** A defragmentation compacts every listed section that has more than one block and is
      less full than the threshold: its used slots are then the first ones and its file
      ends behind them.  It leaves every other section alone. */
  lemma {:induction false} DefragmentCompacts(c: Config, s: Shelf, ids: seq<Id>, threshold: real, id: Id)
    requires SoundAll(c, s) && Distinct(ids)
    ensures var before, after := At(c, s, id), At(c, Defragmented(c, s, ids, threshold), id);
            var n := F.Count(before.used);
            if id in ids && id in s.sections && n > 1 && n as real < threshold * |before.used| as real then
              && after.used == F.Front(n, |before.used|)
              && (before.used != F.Front(n, |before.used|) ==> |after.file| == n)
            else after == before
  {
    hide Defragmented, Compacted, F.Count, F.Front, Compactable;
    DefragmentedAt(c, s, ids, threshold, id);
    var slots := At(c, s, id);
    SparseIs(slots.used, threshold);
    CompactReachesFront(slots);
    if id in ids && id in s.sections && Sparse(slots.used, threshold) && Compactable(slots.used) {
      CompactedShape(slots);
    }
    if !Compactable(slots.used) {
      NotCompacted(slots);
    }
  }

  lemma NotCompacted(slots: Slots)
    requires Sound(slots) && !Compactable(slots.used)
    ensures Compacted(slots) == slots
  {
  }

  lemma SparseIs(used: seq<bool>, threshold: real)
    ensures Sparse(used, threshold) <==> F.Count(used) > 1 && F.Count(used) as real < threshold * |used| as real
  {
    hide F.Count;
    if |used| > 0 {
      Quotient(F.Count(used) as real, |used| as real, threshold);
    } else {
      NoneUsed(used);
    }
  }

  lemma NoneUsed(used: seq<bool>)
    requires used == []
    ensures F.Count(used) == 0
  {
  }

  lemma Quotient(a: real, b: real, t: real)
    requires b > 0.0
    ensures a / b < t <==> a < t * b
  {
    var q := a / b;
    assert a == q * b;
    if q < t {
      assert q * b < t * b;
    } else {
      assert q * b >= t * b;
    }
  }

  lemma {:induction false} RoomIsCount(used: seq<bool>)
    ensures F.FirstFree(used).None? <==> F.Count(used) == |used|
  {
    if F.FirstFree(used).Some? {
      CountBound(used, F.FirstFree(used).value);
    } else {
      F.CountAll(used);
    }
  }

  // ---- the list of moves ----

  datatype Move = Move(id: Id, from: nat, to: nat)

  /** The slots of one section that change place. */
  function MovesOf(id: Id, plan: seq<Option<nat>>): (r: seq<Move>)
    ensures forall k | 0 <= k < |r| :: r[k].id == id && r[k].from < |plan| && plan[r[k].from] == Some(r[k].to)
  {
    if plan == [] then []
    else
      var n := |plan| - 1;
      MovesOf(id, plan[..n]) + if plan[n].Some? && plan[n].value != n then [Move(id, n, plan[n].value)] else []
  }

  /** The moves of one section. */
  function MovesIn(c: Config, s: Shelf, id: Id, threshold: real): (r: seq<Move>)
    ensures forall k | 0 <= k < |r| :: r[k].id == id
  {
    var used := At(c, s, id).used;
    if id in s.sections && Sparse(used, threshold) && Compactable(used) then MovesOf(id, F.Relocation(used)) else []
  }

  /** The moves of all compacted sections, one after the other. */
  function AllMoves(c: Config, s: Shelf, ids: seq<Id>, threshold: real): (r: seq<Move>)
    ensures forall k | 0 <= k < |r| :: r[k].id in ids
  {
    if ids == [] then []
    else AllMoves(c, s, ids[..|ids| - 1], threshold) + MovesIn(c, s, ids[|ids| - 1], threshold)
  }

  /** The new index of a block: the first move that names its place, or no change. */
  function Follow(moves: seq<Move>, id: Id, i: nat): nat
  {
    if moves == [] then i
    else if moves[0].id == id && moves[0].from == i then moves[0].to
    else Follow(moves[1..], id, i)
  }

  /** Some move names the place. */
  predicate Names(moves: seq<Move>, id: Id, i: nat)
  {
    exists k | 0 <= k < |moves| :: moves[k].id == id && moves[k].from == i
  }

  lemma {:induction false} FollowConcat(a: seq<Move>, b: seq<Move>, id: Id, i: nat)
    ensures Follow(a + b, id, i) == if Names(a, id, i) then Follow(a, id, i) else Follow(b, id, i)
    ensures !Names(a, id, i) ==> Follow(a, id, i) == i
  {
    if a == [] {
      assert a + b == b;
    } else {
      assert (a + b)[1..] == a[1..] + b;
      FollowConcat(a[1..], b, id, i);
      NamesRest(a, id, i);
    }
  }

  lemma NamesRest(a: seq<Move>, id: Id, i: nat)
    requires a != []
    ensures Names(a, id, i) <==> (a[0].id == id && a[0].from == i) || Names(a[1..], id, i)
  {
    if Names(a[1..], id, i) {
      var k :| 0 <= k < |a[1..]| && a[1..][k].id == id && a[1..][k].from == i;
      assert a[k + 1] == a[1..][k];
    }
    if Names(a, id, i) {
      var k :| 0 <= k < |a| && a[k].id == id && a[k].from == i;
      assert k > 0 ==> a[1..][k - 1] == a[k];
    }
  }

  lemma FollowOne(m: Move, id: Id, i: nat)
    ensures Follow([m], id, i) == (if m.id == id && m.from == i then m.to else i) && Follow([], id, i) == i
  {
  }

  lemma MovesPush(id: Id, plan: seq<Option<nat>>)
    requires plan != []
    ensures var n := |plan| - 1;
            MovesOf(id, plan) == MovesOf(id, plan[..n]) +
              if plan[n].Some? && plan[n].value != n then [Move(id, n, plan[n].value)] else []
    ensures !Names(MovesOf(id, plan[..|plan| - 1]), id, |plan| - 1)
  {
  }

  lemma {:induction false} FollowPlan(id: Id, plan: seq<Option<nat>>, i: nat)
    ensures Follow(MovesOf(id, plan), id, i) == if i < |plan| && plan[i].Some? then plan[i].value else i
  {
    if plan == [] {
      FollowOne(Move(id, 0, 0), id, i);
    } else {
      hide Follow, MovesOf, Names;
      var n := |plan| - 1;
      var a := MovesOf(id, plan[..n]);
      FollowPlan(id, plan[..n], i);
      MovesPush(id, plan);
      if plan[n].Some? && plan[n].value != n {
        FollowConcat(a, [Move(id, n, plan[n].value)], id, i);
        FollowOne(Move(id, n, plan[n].value), id, i);
      } else {
        assert a + [] == a;
      }
    }
  }

  lemma {:induction false} FollowSection(c: Config, s: Shelf, id: Id, threshold: real, i: nat)
    ensures Follow(MovesIn(c, s, id, threshold), id, i) == Relocated(c, s, [id], threshold, id, i)
  {
    hide Sparse, F.Relocation, MovesOf, Follow, F.Count, F.Extent;
    FollowPlan(id, F.Relocation(At(c, s, id).used), i);
    FollowOne(Move(id, 0, 0), id, i);
  }

  lemma MovesElsewhere(c: Config, s: Shelf, other: Id, threshold: real, id: Id, i: nat)
    requires other != id
    ensures !Names(MovesIn(c, s, other, threshold), id, i)
  {
    hide Sparse, Compactable, F.Relocation, MovesOf;
  }

  lemma MovesBefore(c: Config, s: Shelf, ids: seq<Id>, threshold: real, id: Id, i: nat)
    requires id !in ids
    ensures !Names(AllMoves(c, s, ids, threshold), id, i)
  {
    hide AllMoves;
  }

  lemma AllMovesPush(c: Config, s: Shelf, ids: seq<Id>, threshold: real)
    requires ids != []
    ensures AllMoves(c, s, ids, threshold) ==
            AllMoves(c, s, ids[..|ids| - 1], threshold) + MovesIn(c, s, ids[|ids| - 1], threshold)
  {
    hide Sparse, Compactable, F.Relocation, MovesOf;
  }

  lemma RelocatedPush(c: Config, s: Shelf, ids: seq<Id>, threshold: real, id: Id, i: nat)
    requires ids != [] && Distinct(ids)
    ensures var init, last := ids[..|ids| - 1], ids[|ids| - 1];
            && last !in init
            && Relocated(c, s, ids, threshold, id, i) ==
               if id == last then Relocated(c, s, [last], threshold, id, i) else Relocated(c, s, init, threshold, id, i)
  {
    hide Sparse, NewIndex, At;
    var init, last := ids[..|ids| - 1], ids[|ids| - 1];
    assert ids == init + [last];
  }

  lemma RelocatedNone(c: Config, s: Shelf, threshold: real, id: Id, i: nat)
    ensures Relocated(c, s, [], threshold, id, i) == i && AllMoves(c, s, [], threshold) == []
  {
  }

  /** Looking a place up in the list of moves gives its relocation. */
  lemma {:induction false} FollowIsRelocated(c: Config, s: Shelf, ids: seq<Id>, threshold: real, id: Id, i: nat)
    requires Distinct(ids)
    ensures Follow(AllMoves(c, s, ids, threshold), id, i) == Relocated(c, s, ids, threshold, id, i)
  {
    hide AllMoves, Relocated, MovesIn, Follow, Names;
    FollowOne(Move(id, 0, 0), id, i);
    if ids == [] {
      RelocatedNone(c, s, threshold, id, i);
    } else {
      var init, last := ids[..|ids| - 1], ids[|ids| - 1];
      var a, b := AllMoves(c, s, init, threshold), MovesIn(c, s, last, threshold);
      AllMovesPush(c, s, ids, threshold);
      RelocatedPush(c, s, ids, threshold, id, i);
      FollowIsRelocated(c, s, init, threshold, id, i);
      FollowConcat(a, b, id, i);
      if id == last {
        FollowSection(c, s, id, threshold, i);
        MovesBefore(c, s, init, threshold, id, i);
      } else {
        MovesElsewhere(c, s, last, threshold, id, i);
        FollowConcat(b, [], id, i);
      }
    }
  }

  /** What a full event makes of the robin: the section leaves it at its first place, the
      others keep their order, fresh sections in front of them fill it up to the floor, and
      fresh ones behind them bring it to one more than before, within the capacity. */
  lemma {:induction false} RetiredExact(c: Config, s: Shelf, id: Id, a: seq<Id>, b: seq<Id>)
    returns (front: seq<Id>, back: seq<Id>)
    requires s.robin == a + [id] + b && id !in a
    ensures var r := Retired(c, s, id);
            && r == s.(robin := front + a + b + back, nextId := s.nextId + |front| + |back|)
            && Fresh(front + back, s.nextId, r.nextId)
    ensures var left, n := |a| + |b|, |s.robin|;
            var filled := if left < c.floor then c.floor else left;
            var wanted := (if n >= filled then n else filled) + 1;
            && |front| == filled - left
            && |back| == if s.target <= filled then 0 else (if wanted > s.target then s.target else wanted) - filled
  {
    hide Unshifted, Appended;
    assert s.robin[..|a|] == a;
    LocateIs(s.robin, id, |a|);
    assert R.Removed(s.robin, id) == a + b;
    var s1 := s.(robin := a + b);
    front := UnshiftedShape(s1, c.floor);
    UnshiftedLength(s1, c.floor);
    UnshiftedIds(s1, c.floor);
    var s2 := Unshifted(s1, c.floor);
    var want := Want(s.target, |s.robin|, |s2.robin|);
    back := AppendedShape(s2, want);
    AppendedLength(s2, want);
    AppendedIds(s2, want);
    assert front + (a + b) + back == front + a + b + back;
  }

  lemma {:induction false} UnshiftedIds(s: Shelf, n: nat)
    ensures Unshifted(s, n).nextId == s.nextId + |Unshifted(s, n).robin| - |s.robin|
    decreases n - |s.robin|
  {
    if |s.robin| < n {
      UnshiftedIds(s.(robin := [s.nextId] + s.robin, nextId := s.nextId + 1), n);
    }
  }

  lemma {:induction false} AppendedIds(s: Shelf, n: nat)
    ensures Appended(s, n).nextId == s.nextId + |Appended(s, n).robin| - |s.robin|
    decreases n - |s.robin|
  {
    if |s.robin| < n {
      AppendedIds(s.(robin := s.robin + [s.nextId], nextId := s.nextId + 1), n);
    }
  }

  /** A full event adds at most one section net, and none beyond what the floor and the
      capacity allow. */
  lemma {:induction false} GrowthBounded(c: Config, s: Shelf, id: Id)
    ensures |Retired(c, s, id).robin| >= c.floor
    ensures |Retired(c, s, id).robin| <= (if |s.robin| >= c.floor then |s.robin| else c.floor) + 1
    ensures s.target == 0 && |s.robin| >= c.floor ==> |Retired(c, s, id).robin| <= |s.robin|
    ensures c.floor <= s.target && |s.robin| <= s.target ==> |Retired(c, s, id).robin| <= s.target
    ensures id in s.robin && c.floor < |s.robin| <= s.target ==> |Retired(c, s, id).robin| >= |s.robin|
  {
    var s1 := s.(robin := R.Removed(s.robin, id));
    UnshiftedLength(s1, c.floor);
    var s2 := Unshifted(s1, c.floor);
    AppendedLength(s2, Want(s.target, |s.robin|, |s2.robin|));
  }

  lemma {:induction false} UnshiftedLength(s: Shelf, n: nat)
    ensures |Unshifted(s, n).robin| == if |s.robin| >= n then |s.robin| else n
    decreases n - |s.robin|
  {
    if |s.robin| < n {
      UnshiftedLength(s.(robin := [s.nextId] + s.robin, nextId := s.nextId + 1), n);
    }
  }

  lemma {:induction false} AppendedLength(s: Shelf, n: nat)
    ensures |Appended(s, n).robin| == if |s.robin| >= n then |s.robin| else n
    decreases n - |s.robin|
  {
    if |s.robin| < n {
      AppendedLength(s.(robin := s.robin + [s.nextId], nextId := s.nextId + 1), n);
    }
  }

  // ---- freeing a slot ----

  /** Free a used slot of a section, which then has room and rejoins the robin. */
  function Freed(c: Config, s: Shelf, id: Id, slot: nat): Shelf
  {
    var slots := At(c, s, id);
    if slot >= |slots.used| || !slots.used[slot] then s
    else s.(sections := s.sections[id := slots.(used := slots.used[slot := false])],
            robin := if id in s.robin then s.robin else s.robin + [id])
  }

  /** Freeing keeps the room in the robin and every other slot, and frees that one. */
  lemma {:induction false} FreedKeeps(c: Config, s: Shelf, id: Id, slot: nat)
    requires Inv(c, s) && id < s.nextId
    ensures Inv(c, Freed(c, s, id, slot))
    ensures forall x, i | 0 <= i < c.size :: (x != id || i != slot) ==>
              (At(c, Freed(c, s, id, slot), x).used[i] == At(c, s, x).used[i])
    ensures slot < c.size ==> !At(c, Freed(c, s, id, slot), id).used[slot]
    ensures forall x :: At(c, Freed(c, s, id, slot), x).file == At(c, s, x).file
  {
    hide F.FirstFree;
    AtSound(c, s, id);
    var s' := Freed(c, s, id, slot);
    forall i | 0 <= i < |s'.robin|
      ensures s'.robin[i] < s'.nextId && !Full(At(c, s', s'.robin[i]))
    {
      assert s' != s ==> !At(c, s', id).used[slot];
      assert s'.robin[i] == id || s'.robin[i] in s.robin;
    }
  }

  /** Freeing the slot a write took undoes it: every section has the slot map it had, what
      is in use reads as it did, and the robin has room, also when the write had filled
      its section and retired it. */
  lemma {:induction false} FreeUndoesWrite(c: Config, s: Shelf, data: Block)
    requires Inv(c, s) && c.size > 0 && c.floor > 0
    ensures var (s', id, slot) := Store(c, s, data);
            var r := Freed(c, s', id, slot);
            && Inv(c, r) && id in r.robin
            && (forall x :: At(c, r, x).used == At(c, s, x).used)
            && (forall x, i | 0 <= i < c.size && At(c, s, x).used[i] :: Read(At(c, r, x), i) == Read(At(c, s, x), i))
  {
    hide Store, SoundAll, RoomyBut, At;
    var (s', id, slot) := Store(c, s, data);
    WriteSucceeds(c, s, data);
    StoreGrows(c, s, data);
    FreedKeeps(c, s', id, slot);
    FreedJoins(c, s', id, slot);
    var r := Freed(c, s', id, slot);
    forall x
      ensures |At(c, s, x).used| == |At(c, s', x).used| == |At(c, r, x).used| == c.size
      ensures At(c, r, x).used == At(c, s, x).used
    {
      SizeAt(c, s, x);
      SizeAt(c, s', x);
      SizeAt(c, r, x);
    }
  }

  lemma SizeAt(c: Config, s: Shelf, x: Id)
    requires Inv(c, s)
    ensures |At(c, s, x).used| == c.size
  {
    AtSound(c, s, x);
  }

  lemma {:induction false} StoreGrows(c: Config, s: Shelf, data: Block)
    requires Inv(c, s) && c.size > 0 && c.floor > 0
    ensures Store(c, s, data).1 < s.nextId <= Store(c, s, data).0.nextId
  {
    hide Retired, F.FirstFree, Written, SoundAll, R.Rotated;
    var id := s.robin[0];
    AtSound(c, s, id);
    WriteKeepsOthers(At(c, s, id), data);
    var s1 := s.(robin := R.Rotated(s.robin), sections := s.sections[id := Written(At(c, s, id), data)]);
    RetiredLater(c, s1, id);
  }

  lemma RetiredLater(c: Config, s: Shelf, id: Id)
    ensures s.nextId <= Retired(c, s, id).nextId
  {
    hide Unshifted, Appended;
    var s1 := s.(robin := R.Removed(s.robin, id));
    var front := UnshiftedShape(s1, c.floor);
    var s2 := Unshifted(s1, c.floor);
    var back := AppendedShape(s2, Want(s.target, |s.robin|, |s2.robin|));
  }

  lemma FreedJoins(c: Config, s: Shelf, id: Id, slot: nat)
    requires slot < |At(c, s, id).used| && At(c, s, id).used[slot]
    ensures id in Freed(c, s, id, slot).robin
  {
    assert (s.robin + [id])[|s.robin|] == id;
  }
}
