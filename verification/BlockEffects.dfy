/**
 What single messages do to the block cache, each said in full: which fields change, to
 what, and that nothing else does.
 */
module BlockEffects {
  import opened Entries
  import opened Section
  import opened Shelf
  import opened BlockStore
  import S = Shelf
  import L = Lru
  import B = BlockRuns

  // ---- put ----

  /** A put of a hash that is there: a claim is added if one was asked for and the counter
      is not full, and nothing else changes, whatever the bytes and the limit. */
  lemma {:induction false} PutKnown(c: Settings, s: Store, h: Digest, data: Block, group: nat, claim: bool)
    requires StoreInv(c, s) && h in s.index
    ensures var t := Step(c, s, Put(h, data, group, claim));
            && t == s.(index := t.index) && t.index.Keys == s.index.Keys
            && (forall k | k in s.index && k != h :: t.index[k] == s.index[k])
            && t.index[h].id == s.index[h].id && t.index[h].slot == s.index[h].slot
            && t.index[h].pins == s.index[h].pins
            && t.index[h].claims == s.index[h].claims + if claim && s.index[h].claims < MAX_CLAIMS then 1 else 0
  {
    hide Placed, Tidy, Counted, Receipted, S.Inv;
  }

  /** A new hash is refused, with nothing changed, if there is a limit and one more block
      would exceed it, or if its group has ended. */
  lemma {:induction false} PutRefused(c: Settings, s: Store, h: Digest, data: Block, group: nat, claim: bool)
    requires StoreInv(c, s) && h !in s.index
    requires (s.limit > 0 && Wrap(s.bytes + c.pool.blockSize) > s.limit) || (group != 0 && group in s.ended)
    ensures Step(c, s, Put(h, data, group, claim)) == s
  {
    hide Placed, Tidy, Counted, Receipted, S.Inv, Wrap;
  }

  /** A block of the wrong size uses up a turn of the robin and nothing else. */
  lemma {:induction false} PutMisfit(c: Settings, s: Store, h: Digest, data: Block, group: nat, claim: bool)
    requires StoreInv(c, s) && h !in s.index && !Refused(c, s, group) && |data| != c.pool.blockSize
    ensures s.shelf.robin != []
    ensures Step(c, s, Put(h, data, group, claim)) ==
            s.(shelf := s.shelf.(robin := s.shelf.robin[1..] + [s.shelf.robin[0]]))
  {
    hide Placed, Tidy, Counted, Receipted, SoundAll, RoomyBut;
  }

  /** Any other new block is stored in a slot that was free, under a record with the claim
      asked for and no pin; it is counted once, is first in the cache, and is on the
      receipt of its group; nothing else changes. */
  lemma {:induction false} PutStores(c: Settings, s: Store, h: Digest, data: Block, group: nat, claim: bool)
    requires StoreInv(c, s) && h !in s.index && !Refused(c, s, group) && |data| == c.pool.blockSize
    requires Allowed(c, s, Put(h, data, group, claim))
    ensures var t := Step(c, s, Put(h, data, group, claim));
            && t.index.Keys == s.index.Keys + {h} && (forall k | k in s.index :: t.index[k] == s.index[k])
            && t.index[h].claims == (if claim then 1 else 0) && t.index[h].pins == 0
            && t.index[h].slot < |At(c.pool, s.shelf, t.index[h].id).used|
            && !At(c.pool, s.shelf, t.index[h].id).used[t.index[h].slot]
            && ReadAt(c.pool, t.shelf, Spot(t.index[h].id, t.index[h].slot)) == Some(data)
            && t.count == Wrap(s.count + 1) && t.bytes == Wrap(s.bytes + c.pool.blockSize)
            && (L.Find(s.cached, h).None? ==> t.cached != [] && t.cached[0] == (h, Cell(data, Live)))
            && (forall g | g != 0 :: Listed(t.receipts, g) == Listed(s.receipts, g) + if g == group then [h] else [])
            && t.pending == s.pending && t.asked == s.asked && t.answers == s.answers && t.replies == s.replies
            && t.limit == s.limit && t.ended == s.ended && t.next == s.next && t.ends == s.ends && t.lag == s.lag
  {
    PutSlot(c, s, h, data, group, claim);
    PutRest(c, s, h, data, group, claim);
    hide Step, Placed, Tidy, Counted, S.Inv, At, ReadAt, Recorded, Listed, Ring, Complete;
    forall g | g != 0
      ensures Listed(Recorded(s.receipts, group, h), g) == Listed(s.receipts, g) + if g == group then [h] else []
    {
      RecordedListed(s.receipts, s.ended, group, h, g);
    }
  }

  lemma {:induction false} PutSlot(c: Settings, s: Store, h: Digest, data: Block, group: nat, claim: bool)
    requires StoreInv(c, s) && h !in s.index && !Refused(c, s, group) && |data| == c.pool.blockSize
    ensures Ready(c, s)
    ensures var t := Step(c, s, Put(h, data, group, claim));
            && t.index.Keys == s.index.Keys + {h} && (forall k | k in s.index :: t.index[k] == s.index[k])
            && t.index[h].claims == (if claim then 1 else 0) && t.index[h].pins == 0
            && t.index[h].slot < |At(c.pool, s.shelf, t.index[h].id).used|
            && !At(c.pool, s.shelf, t.index[h].id).used[t.index[h].slot]
            && ReadAt(c.pool, t.shelf, Spot(t.index[h].id, t.index[h].slot)) == Some(data)
  {
    hide Placed, Tidy, Counted, Receipted, SoundAll, RoomyBut, L.Admitted, S.Store, Recorded, At, Refused;
    WriteSucceeds(c.pool, s.shelf, data);
    StoreKnown(c.pool, s.shelf, data, S.Store(c.pool, s.shelf, data).1);
  }

  lemma {:induction false} PutRest(c: Settings, s: Store, h: Digest, data: Block, group: nat, claim: bool)
    requires StoreInv(c, s) && h !in s.index && !Refused(c, s, group) && |data| == c.pool.blockSize
    ensures Ready(c, s)
    ensures var t := Step(c, s, Put(h, data, group, claim));
            && t.count == Wrap(s.count + 1) && t.bytes == Wrap(s.bytes + c.pool.blockSize)
            && t.receipts == Recorded(s.receipts, group, h)
            && (L.Find(s.cached, h).None? ==> t.cached != [] && t.cached[0] == (h, Cell(data, Live)))
            && t.pending == s.pending && t.asked == s.asked && t.answers == s.answers && t.replies == s.replies
            && t.limit == s.limit && t.ended == s.ended && t.next == s.next && t.ends == s.ends && t.lag == s.lag
  {
    hide Placed, Counted, Receipted, SoundAll, RoomyBut, S.Store, Recorded, L.Unique, L.Find, Refused, Wrap;
  }

  // ---- the end of a group ----

  /** A put that ends well, or whose blocks are not to be deleted, loses its receipt and
      nothing else: every block stays, with its claims and pins. */
  lemma {:induction false} CommitKeeps(c: Settings, s: Store, g: nat, abort: bool)
    requires StoreInv(c, s) && (!abort || !c.deleteOnAbort)
    ensures var t := Step(c, s, GroupEnd(g, abort));
            && t == s.(receipts := t.receipts, ended := t.ended, next := t.next, ends := s.ends + [g])
            && Listed(t.receipts, g) == [] && (forall x | x != g :: Listed(t.receipts, x) == Listed(s.receipts, x))
            && g in t.ended
  {
    hide Placed, Tidy, Counted, S.Inv, FindGroup, DroppedAll, Listed, Complete;
    var t := Step(c, s, GroupEnd(g, abort));
    B.EndOwed(c, s, g, abort, g, 0);
    forall x | x != g
      ensures Listed(t.receipts, x) == Listed(s.receipts, x)
    {
      B.EndOwed(c, s, g, abort, x, 0);
    }
    EndedHas(c, s, g, abort);
  }

  lemma EndedHas(c: Settings, s: Store, g: nat, abort: bool)
    requires Ring(s.ended, s.next, s.ends)
    ensures g in Tombstoned(s, g).ended
  {
    var t := Tombstoned(s, g);
    RingKept(s, g);
    RingIsRecent(t.ended, t.next, t.ends, g);
    var recent := Recent(t.ends);
    assert recent[|recent| - 1] == g;
  }

  // ---- resize ----

  /** A resize sets the limit and the number of sections the pool may grow to; a positive
      one sets the counters to those of the index.  Nothing else changes. */
  lemma {:induction false} ResizeExact(c: Settings, s: Store, limit: U64)
    requires StoreInv(c, s)
    ensures var t := Step(c, s, Resize(limit));
            && t.limit == limit && t.shelf == s.shelf.(target := TargetFor(c.pool, limit))
            && (limit == 0 ==> t.count == s.count && t.bytes == s.bytes && t.lag == s.lag)
            && (limit > 0 ==>
                  && t.count == Wrap(|s.index|) && t.bytes == Wrap(|s.index| * c.pool.blockSize) && t.lag == 0)
            && t == s.(limit := t.limit, shelf := t.shelf, count := t.count, bytes := t.bytes, lag := t.lag)
  {
    hide Placed, Tidy, Counted, Receipted, S.Inv, TargetFor, Wrap;
  }

  // ---- get ----

  /** A get of an indexed hash whose block can be read leaves that block first in the
      cache, and changes no entry, no counter and no section; of any other hash it does
      nothing. */
  lemma {:induction false} GetCaches(c: Settings, s: Store, h: Digest, loaded: bool)
    requires StoreInv(c, s)
    ensures var t := Step(c, s, Get(h, loaded));
            && t == s.(cached := t.cached, shelf := t.shelf) && t.shelf.sections == s.shelf.sections
            && (h !in s.index ==> t == s)
            && (h in s.index && Answer(c, s, h).Some? ==>
                  && t.cached != [] && t.cached[0].0 == h && Some(t.cached[0].1.block) == Answer(c, s, h)
                  && Answer(c, t, h) == Answer(c, s, h))
            && (h in s.index && Answer(c, s, h).None? ==> t.cached == s.cached)
  {
    hide Placed, Counted, Receipted, S.Inv, Fetched, Touched, L.Got, L.Admitted, L.Unique, L.Find, L.Put, L.Deleted;
    TouchedSame(c.pool, s.shelf, if h in s.index then s.index[h].id else 0);
    if h in s.index {
      match L.Find(s.cached, h) {
        case Some(p) =>
          GotFirst(s.cached, h);
          L.KeepsUnique(s.cached, h, Cell([], Live), c.lruSize);
          FirstFound(L.Got(s.cached, h), h);
        case None =>
          if Fetched(c, s, h).Some? {
            B.NotReused(s.cached, h, c.lruSize);
            L.AdmittedKeeps(s.cached, h, Cell(Fetched(c, s, h).value, Live), c.lruSize);
          }
      }
    }
  }

  lemma TouchedSame(c: Config, s: Shelf, id: Id)
    ensures Touched(c, s, id).sections == s.sections
  {
  }

  lemma GotFirst(cached: seq<(Digest, Cell)>, h: Digest)
    requires L.Find(cached, h).Some?
    ensures L.Got(cached, h) != [] && L.Got(cached, h)[0] == cached[L.Find(cached, h).value]
  {
    hide L.Find;
  }

  lemma FirstFound(cached: seq<(Digest, Cell)>, h: Digest)
    requires L.Unique(cached) && cached != [] && cached[0].0 == h
    ensures L.Find(cached, h) == Some(0)
  {
    L.FindIs(cached, h, 0);
  }

  /** An asynchronous get is answered at once if the hash is not indexed or its block is
      cached, and else waits, with one more read asked for; nothing else changes. */
  lemma {:induction false} LaterExact(c: Settings, s: Store, h: Digest)
    requires StoreInv(c, s)
    ensures var t := Step(c, s, GetLater(h));
            if h !in s.index then t == s.(replies := s.replies + [Reply(h, None, false)])
            else match L.Find(s.cached, h)
              case Some(i) =>
                && t == s.(cached := t.cached, replies := s.replies + [Reply(h, Some(s.cached[i].1.block), true)])
                && t.cached != [] && t.cached[0] == s.cached[i]
              case None =>
                t == s.(pending := [Wait(h, Live)] + s.pending,
                        asked := s.asked + [Spot(s.index[h].id, s.index[h].slot)])
  {
    hide Placed, Tidy, Counted, Receipted, S.Inv, L.Find;
    if L.Find(s.cached, h).Some? {
      GotFirst(s.cached, h);
    }
  }

  /** The pool reads the oldest request and answers it; no section and nothing else changes. */
  lemma {:induction false} FetchExact(c: Settings, s: Store, loaded: bool)
    requires StoreInv(c, s)
    ensures var t := Step(c, s, Fetch(loaded));
            && t == s.(shelf := t.shelf, asked := t.asked, answers := t.answers)
            && t.shelf.sections == s.shelf.sections
            && (s.asked == [] ==> t == s)
            && (s.asked != [] ==>
                  && s.asked == [s.asked[0]] + t.asked
                  && t.answers == s.answers + [Result(s.asked[0], ReadAt(c.pool, s.shelf, s.asked[0]))])
  {
    hide Placed, Tidy, Counted, Receipted, S.Inv;
    if s.asked != [] {
      TouchedSame(c.pool, s.shelf, s.asked[0].id);
      assert s.asked == [s.asked[0]] + s.asked[1..];
    }
  }

  /** A get that waits for this spot. */
  predicate WaitsFor(s: Store, w: Wait, spot: Spot)
  {
    Where(s.index, w.h, w.held) == Some(spot)
  }

  /** The newest get that waits for this spot. */
  predicate NewestWait(s: Store, i: nat, spot: Spot)
  {
    && i < |s.pending| && WaitsFor(s, s.pending[i], spot)
    && forall j | 0 <= j < i :: !WaitsFor(s, s.pending[j], spot)
  }

  lemma {:induction false} WaitsExact(s: Store, pending: seq<Wait>, spot: Spot)
    ensures var at, elsewhere := WaitingAt(pending, s.index, spot), WaitingElsewhere(pending, s.index, spot);
            && (forall w | w in pending :: if WaitsFor(s, w, spot) then w in at else w in elsewhere)
            && (forall w | w in at :: w in pending && WaitsFor(s, w, spot))
            && (forall w | w in elsewhere :: w in pending && !WaitsFor(s, w, spot))
  {
    if pending != [] {
      var init, last := pending[..|pending| - 1], pending[|pending| - 1];
      WaitsExact(s, init, spot);
      assert pending == init + [last];
    }
  }

  lemma {:induction false} NewestFirst(s: Store, pending: seq<Wait>, spot: Spot, i: nat)
    requires i < |pending| && WaitsFor(s, pending[i], spot)
    requires forall j | 0 <= j < i :: !WaitsFor(s, pending[j], spot)
    ensures WaitingAt(pending, s.index, spot) != [] && WaitingAt(pending, s.index, spot)[0] == pending[i]
  {
    var init := pending[..|pending| - 1];
    if i < |init| {
      NewestFirst(s, init, spot, i);
    } else {
      NoneWait(s, init, spot);
    }
  }

  lemma {:induction false} NoneWait(s: Store, pending: seq<Wait>, spot: Spot)
    requires forall j | 0 <= j < |pending| :: !WaitsFor(s, pending[j], spot)
    ensures WaitingAt(pending, s.index, spot) == []
  {
    if pending != [] {
      NoneWait(s, pending[..|pending| - 1], spot);
    }
  }

  /** What the newest waiting get makes of a read result: the data if they have its hash. */
  function Sent(c: Settings, w: Wait, data: Option<Block>): Option<Block>
  {
    if data.Some? && c.hash(data.value) == w.h then data else None
  }

  /** A read result answers every get that waits for its spot, and no other; these stop waiting
      and the others go on.  Entries, counters, sections and groups stay as they are. */
  lemma {:induction false} ResultExact(c: Settings, s: Store, i: nat)
    requires StoreInv(c, s) && s.answers != []
    ensures var t, a := Step(c, s, ReadResult), s.answers[0];
            && t == s.(answers := s.answers[1..], pending := t.pending, replies := t.replies, cached := t.cached)
            && (forall w :: w in t.pending <==> w in s.pending && !WaitsFor(s, w, a.spot))
            && s.replies <= t.replies
            && ((forall w | w in s.pending :: !WaitsFor(s, w, a.spot)) ==> t.replies == s.replies)
            && (NewestWait(s, i, a.spot) ==>
                  var block := Sent(c, s.pending[i], a.data);
                  forall r :: r in t.replies[|s.replies|..] <==>
                              r.block == block && r.existed && WaitedUnder(s, r.h, a.spot))
  {
    hide Placed, Tidy, Counted, Receipted, S.Inv, L.Find, L.Admitted, WaitingAt, WaitingElsewhere, Where;
    var t, a := Step(c, s, ReadResult), s.answers[0];
    var waits := WaitingAt(s.pending, s.index, a.spot);
    WaitsExact(s, s.pending, a.spot);
    if waits == [] {
      assert s.replies + [] == s.replies;
    } else {
      assert waits[0] in s.pending;
    }
    if NewestWait(s, i, a.spot) {
      NewestFirst(s, s.pending, a.spot, i);
      var block := Sent(c, s.pending[i], a.data);
      assert t.replies[|s.replies|..] == RepliesTo(waits, block);
      forall r
        ensures r in RepliesTo(waits, block) <==> r.block == block && r.existed && WaitedUnder(s, r.h, a.spot)
      {
        RepliesAre(waits, block, r);
      }
    }
  }

  /** Some get of this hash waits for the spot. */
  predicate WaitedUnder(s: Store, h: Digest, spot: Spot)
  {
    exists w | w in s.pending :: w.h == h && WaitsFor(s, w, spot)
  }

  lemma RepliesAre(waits: seq<Wait>, block: Option<Block>, r: Reply)
    ensures r in RepliesTo(waits, block) <==>
            r.block == block && r.existed && exists w | w in waits :: w.h == r.h
  {
    var more := RepliesTo(waits, block);
    if r in more {
      var k :| 0 <= k < |more| && more[k] == r;
      assert waits[k] in waits;
    }
    if w :| w in waits && w.h == r.h && r.block == block && r.existed {
      var k :| 0 <= k < |waits| && waits[k] == w;
      assert more[k] == r;
    }
  }

  /** A read result that has the hash of the newest get waiting for it is then first in the
      cache, under the record that get holds, unless the cache had the block; any other leaves
      the cache alone. */
  lemma {:induction false} ResultCaches(c: Settings, s: Store, i: nat)
    requires StoreInv(c, s) && s.answers != [] && Allowed(c, s, ReadResult)
    ensures var t, a := Step(c, s, ReadResult), s.answers[0];
            && ((forall w | w in s.pending :: !WaitsFor(s, w, a.spot)) ==> t.cached == s.cached)
            && (NewestWait(s, i, a.spot) ==>
                  var w := s.pending[i];
                  match Sent(c, w, a.data)
                  case None => t.cached == s.cached
                  case Some(block) =>
                    && t.cached != [] && t.cached[0].0 == w.h
                    && (L.Find(s.cached, w.h).None? ==> t.cached[0].1 == Cell(block, w.held))
                    && (L.Find(s.cached, w.h).Some? ==> t.cached[0] in s.cached))
  {
    hide Placed, Counted, Receipted, S.Inv, L.Find, L.Unique, L.Admitted, WaitingAt, WaitingElsewhere, Where;
    var a := s.answers[0];
    var waits := WaitingAt(s.pending, s.index, a.spot);
    WaitsExact(s, s.pending, a.spot);
    if waits != [] {
      assert waits[0] in s.pending;
    }
    if NewestWait(s, i, a.spot) {
      NewestFirst(s, s.pending, a.spot, i);
      var block := Sent(c, waits[0], a.data);
      if block.Some? {
        L.AdmittedKeeps(s.cached, waits[0].h, Cell(block.value, waits[0].held), c.lruSize);
        FindFirst(L.Admitted(s.cached, waits[0].h, Cell(block.value, waits[0].held), c.lruSize), waits[0].h);
      }
    }
  }

  lemma FindFirst(cached: seq<(Digest, Cell)>, h: Digest)
    requires L.Find(cached, h) == Some(0)
    ensures cached != [] && cached[0].0 == h
  {
  }

  // ---- release ----

  /** A release takes one claim off the record it finds; with the last one the block is
      deleted, whatever its pins; without a claim nothing happens. */
  lemma {:induction false} ReleaseExact(c: Settings, s: Store, h: Digest)
    requires StoreInv(c, s)
    ensures var t := Step(c, s, Release(h));
            match Record(s, h)
            case None => t == s
            case Some(r) =>
              if r.claims == 0 then t == s
              else if r.claims == 1 then
                && h !in t.index && t.index.Keys == s.index.Keys - {h}
                && (forall k | k in t.index :: t.index[k] == s.index[k])
                && L.Find(t.cached, h).None? && t.shelf == s.shelf && t.receipts == s.receipts
              else
                && Record(t, h) == Some(r.(claims := r.claims - 1)) && t.index.Keys == s.index.Keys
                && (forall k | k in s.index && k != h :: t.index[k] == s.index[k])
                && t == s.(index := t.index, cached := t.cached)
  {
    hide Placed, Counted, Receipted, S.Inv, Record, Updated, L.Find, L.Without, L.Unique;
    match Record(s, h)
    case None =>
    case Some(r) =>
      if r.claims > 0 {
        ReleasedRecord(c, s, h, r);
        if r.claims == 1 {
          var s1 := Updated(s, h, r.(claims := 0));
          UpdatedTidy(c, s, h, r.(claims := 0));
          DeletedCached(s1.cached, h);
        }
      }
  }

  lemma {:induction false} ReleasedRecord(c: Settings, s: Store, h: Digest, r: Rec)
    requires Record(s, h) == Some(r) && r.claims > 0
    ensures var s1 := Updated(s, h, r.(claims := r.claims - 1));
            && Record(s1, h) == Some(r.(claims := r.claims - 1)) && s1.index.Keys == s.index.Keys
            && (forall k | k in s.index && k != h :: s1.index[k] == s.index[k])
            && s1 == s.(index := s1.index, cached := s1.cached)
  {
    hide L.Find;
    B.UpdatedTwice(s, h, r.(claims := r.claims - 1), r);
  }

  lemma {:induction false} DeletedCached(cached: seq<(Digest, Cell)>, h: Digest)
    ensures L.Find(L.Without(cached, {h}), h).None?
  {
    hide L.Find, L.Without;
    L.WithoutIs(cached, {h});
    var r := L.Without(cached, {h});
    forall i | 0 <= i < |r|
      ensures r[i].0 != h
    {
      assert r[i] in r;
    }
  }
}
