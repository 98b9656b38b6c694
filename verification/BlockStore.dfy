/**
 The block cache: one actor that handles one message at a time over the index, the
 pool of sections, the cache of blocks read last, the gets that wait for the pool, the
 receipts of unfinished puts and the byte and entry counters.
 */
module BlockStore {
  import opened Entries
  import opened Section
  import opened Shelf
  import S = Shelf
  import L = Lru
  import R = Robin

  /** A 32-byte hash, read as a number. */
  type Digest = nat

  /** What the index keeps for a block: its place, its claims and its pins. */
  datatype Rec = Rec(id: Id, slot: nat, claims: nat, pins: nat)

  /** The index shares its records with the cache and with the gets that wait.  A record
      that was taken out of the index lives on with whoever still holds it. */
  datatype Held = Live | Detached(rec: Rec)

  datatype Cell = Cell(block: Block, held: Held)

  /** A get that waits for the pool. */
  datatype Wait = Wait(h: Digest, held: Held)

  datatype Spot = Spot(id: Id, slot: nat)

  /** What the pool read for the cache. */
  datatype Result = Result(spot: Spot, data: Option<Block>)

  /** The answer to an asynchronous get, and whether the hash was indexed. */
  datatype Reply = Reply(h: Digest, block: Option<Block>, existed: bool)

  /** The blocks a put with this group id has created so far. */
  datatype Receipt = Receipt(group: nat, hashes: seq<Digest>)

  datatype Settings = Settings(pool: Config, lruSize: nat, deleteOnAbort: bool, hash: Block -> Digest)

  const TOMBSTONES: nat := 1024
  const MAX_CLAIMS: nat := 0xFFFF
  const MAX_PINS: nat := 0xFFFF_FFFF

  datatype Store = Store(
    shelf: Shelf,
    index: map<Digest, Rec>,
    cached: seq<(Digest, Cell)>,
    pending: seq<Wait>,                // newest first
    asked: seq<Spot>,                  // reads on their way to the pool
    answers: seq<Result>,              // and back
    replies: seq<Reply>,               // everything asynchronous gets were answered
    count: U64,
    bytes: U64,
    limit: U64,                       // 0 is no limit
    receipts: seq<Receipt>,
    ended: seq<nat>,                   // ring of ended groups
    next: nat,
    blocks: map<Digest, Block>,        // what was stored last under each hash
    creator: map<Digest, nat>,         // the group that stored it
    ends: seq<nat>,                    // every group ended, oldest first
    lag: nat)                          // how far the counters are behind the index

  datatype Msg =
    | Put(h: Digest, data: Block, group: nat, claim: bool)
    | GroupEnd(group: nat, abort: bool)
    | Resize(limit: U64)
    | Gc(keep: set<Digest>, force: bool)
    | Get(h: Digest, loaded: bool)                       // answered at once
    | GetLater(h: Digest)                                // answered when the pool has read
    | Fetch(loaded: bool)                                // the pool reads for the oldest one asked
    | ReadResult                                         // and the oldest result arrives
    | Remove(h: Digest, force: bool)
    | Defragment(ids: seq<Id>, threshold: real)
    | Acquire(h: Digest)
    | Release(h: Digest)
    | Clear(h: Digest)
    | Pin(h: Digest)
    | Unpin(h: Digest)

  // ---- deletion ----

  /** Where the record somebody holds says the block is. */
  function Where(index: map<Digest, Rec>, h: Digest, held: Held): Option<Spot>
  {
    match held
    case Detached(r) => Some(Spot(r.id, r.slot))
    case Live => if h in index then Some(Spot(index[h].id, index[h].slot)) else None
  }

  /** Gets that wait for a deleted block keep its record. */
  function Detach(pending: seq<Wait>, index: map<Digest, Rec>, gone: set<Digest>): (r: seq<Wait>)
    ensures |r| == |pending|
  {
    seq(|pending|, i requires 0 <= i < |pending| =>
      var w := pending[i];
      if w.held.Live? && w.h in gone && w.h in index then Wait(w.h, Detached(index[w.h])) else w)
  }

  /** Take blocks out of the index, the cache and the counters; their slots stay in use. */
  function Dropped(c: Settings, s: Store, gone: set<Digest>): (r: Store)
    requires gone <= s.index.Keys
  {
    s.(index := s.index - gone,
       count := Wrap(s.count - |gone|),
       bytes := Wrap(s.bytes - Bytes(|gone|, c.pool.blockSize)),
       cached := L.Without(s.cached, gone),
       pending := Detach(s.pending, s.index, gone))
  }

  /** The deletion of a block that the index does not have is counted all the same. */
  function Missed(c: Settings, s: Store, h: Digest): (r: Store)
  {
    s.(count := Wrap(s.count - 1),
       bytes := Wrap(s.bytes - c.pool.blockSize),
       cached := L.Without(s.cached, {h}),
       lag := s.lag + 1)
  }

  function Deleted(c: Settings, s: Store, h: Digest): (r: Store)
  {
    if h in s.index then Dropped(c, s, {h}) else Missed(c, s, h)
  }

  function Bytes(blocks: int, size: nat): int
  {
    blocks * size
  }

  // ---- groups ----

  function FindGroup(receipts: seq<Receipt>, g: nat): (r: Option<nat>)
    ensures r.Some? ==> r.value < |receipts| && receipts[r.value].group == g
    ensures r.Some? ==> forall i | 0 <= i < r.value :: receipts[i].group != g
    ensures r.None? ==> forall i | 0 <= i < |receipts| :: receipts[i].group != g
  {
    if receipts == [] then None
    else if receipts[0].group == g then Some(0)
    else match FindGroup(receipts[1..], g)
      case Some(i) =>
        assert forall k | 0 < k < i + 1 :: receipts[k] == receipts[1..][k - 1];
        Some(i + 1)
      case None =>
        assert forall k | 0 < k < |receipts| :: receipts[k] == receipts[1..][k - 1];
        None
  }

  /** Note a new block on the receipt of its group; group 0 has none. */
  function Recorded(receipts: seq<Receipt>, g: nat, h: Digest): (r: seq<Receipt>)
  {
    if g == 0 then receipts
    else match FindGroup(receipts, g)
      case Some(i) => receipts[i := Receipt(g, receipts[i].hashes + [h])]
      case None => receipts + [Receipt(g, [h])]
  }

  /** The hashes on the receipt of a group. */
  function Listed(receipts: seq<Receipt>, g: nat): seq<Digest>
  {
    match FindGroup(receipts, g)
    case Some(i) => receipts[i].hashes
    case None => []
  }

  /** The pins of some entries are cleared. */
  function Unpinned(index: map<Digest, Rec>, hashes: set<Digest>): map<Digest, Rec>
  {
    map h | h in index :: if h in hashes then index[h].(pins := 0) else index[h]
  }

  /** What of these blocks is still indexed. */
  function Indexed(index: map<Digest, Rec>, hashes: seq<Digest>): (r: set<Digest>)
    ensures r <= index.Keys
  {
    set h | h in hashes && h in index
  }

  /** Delete whatever of these blocks is still indexed, pinned or not. */
  function DroppedAll(c: Settings, s: Store, hashes: seq<Digest>): Store
  {
    var gone := Indexed(s.index, hashes);
    Dropped(c, s.(index := Unpinned(s.index, gone)), gone)
  }

  /** Remember an ended group, over the oldest one when the ring is full. */
  function Tombstoned(s: Store, g: nat): Store
  {
    var s := s.(ends := s.ends + [g]);
    if |s.ended| < TOMBSTONES then s.(ended := s.ended + [g])
    else if s.next < |s.ended| then s.(ended := s.ended[s.next := g], next := (s.next + 1) % TOMBSTONES)
    else s
  }

  /** The receipt of a put goes, and with it its blocks if the put was aborted. */
  function Closed(c: Settings, s: Store, g: nat, abort: bool): Store
  {
    match FindGroup(s.receipts, g)
    case None => s
    case Some(i) =>
      var swept := if abort && c.deleteOnAbort then DroppedAll(c, s, s.receipts[i].hashes) else s;
      swept.(receipts := L.Drop(s.receipts, i))
  }

  function Ended(c: Settings, s: Store, g: nat, abort: bool): Store
  {
    Tombstoned(Closed(c, s, g, abort), g)
  }

  // ---- the sweep ----

  predicate Spared(r: Rec, force: bool)
  {
    !force && (r.claims > 0 || r.pins > 0)
  }

  /** The entries the keep list does not name, unless they are claimed or pinned. */
  function Doomed(index: map<Digest, Rec>, keep: set<Digest>, force: bool): (r: set<Digest>)
    ensures r <= index.Keys
  {
    set h | h in index && h !in keep && !Spared(index[h], force)
  }

  function Swept(c: Settings, s: Store, keep: set<Digest>, force: bool): Store
  {
    Dropped(c, s, Doomed(s.index, keep, force))
  }

  // ---- records ----

  function Rewritten(index: map<Digest, Rec>, moves: seq<Move>): map<Digest, Rec>
  {
    map h | h in index :: index[h].(slot := Follow(moves, index[h].id, index[h].slot))
  }

  /** The record in the cache has been taken out of the index: the cached block of a
      hash that was removed while a get for it was waiting. */
  predicate Orphaned(cached: seq<(Digest, Cell)>, h: Digest)
  {
    var at := L.Find(cached, h);
    at.Some? && cached[at.value].1.held.Detached?
  }

  function Orphan(cached: seq<(Digest, Cell)>, h: Digest): Rec
    requires Orphaned(cached, h)
  {
    cached[L.Find(cached, h).value].1.held.rec
  }

  /** The record a message about a hash works on: that of the cache, then that of the
      index. */
  function Record(s: Store, h: Digest): Option<Rec>
  {
    if Orphaned(s.cached, h) then Some(Orphan(s.cached, h))
    else if h in s.index then Some(s.index[h])
    else None
  }

  function Reheld(cached: seq<(Digest, Cell)>, h: Digest, r: Rec): (cached': seq<(Digest, Cell)>)
    requires Orphaned(cached, h)
    ensures |cached'| == |cached|
  {
    var i := L.Find(cached, h).value;
    cached[i := (h, Cell(cached[i].1.block, Detached(r)))]
  }

  function Updated(s: Store, h: Digest, r: Rec): Store
  {
    if Orphaned(s.cached, h) then s.(cached := Reheld(s.cached, h, r))
    else if h in s.index then s.(index := s.index[h := r])
    else s
  }

  // ---- the messages ----

  /** The pool can store blocks. */
  predicate Ready(c: Settings, s: Store)
  {
    S.Inv(c.pool, s.shelf) && c.pool.size > 0 && c.pool.floor > 0 && c.lruSize > 0
  }

  function Stored(c: Settings, s: Store, h: Digest, data: Block, group: nat, claim: bool): Store
    requires Ready(c, s)
  {
    var (shelf, id, slot) := S.Store(c.pool, s.shelf, data);
    s.(shelf := shelf,
       index := s.index[h := Rec(id, slot, if claim then 1 else 0, 0)],
       cached := L.Admitted(s.cached, h, Cell(data, Live), c.lruSize),
       count := Wrap(s.count + 1),
       bytes := Wrap(s.bytes + c.pool.blockSize),
       receipts := Recorded(s.receipts, group, h),
       blocks := s.blocks[h := data],
       creator := s.creator[h := group])
  }

  predicate Refused(c: Settings, s: Store, group: nat)
  {
    || (s.limit > 0 && Wrap(s.bytes + c.pool.blockSize) > s.limit)
    || (group != 0 && group in s.ended)
  }

  function AfterPut(c: Settings, s: Store, h: Digest, data: Block, group: nat, claim: bool): Store
    requires Ready(c, s)
  {
    if h in s.index then
      var r := s.index[h];
      if claim && r.claims < MAX_CLAIMS then s.(index := s.index[h := r.(claims := r.claims + 1)]) else s
    else if Refused(c, s, group) then s
    else if |data| != c.pool.blockSize then s.(shelf := s.shelf.(robin := R.Rotated(s.shelf.robin)))
    else Stored(c, s, h, data, group, claim)
  }

  /** The pool after reading a section that was, or was not, in memory. */
  function AfterRead(c: Settings, s: Store, id: Id, loaded: bool): Store
  {
    if loaded then s else s.(shelf := Touched(c.pool, s.shelf, id))
  }

  function ReadAt(c: Config, s: Shelf, spot: Spot): Option<Block>
  {
    Read(At(c, s, spot.id), spot.slot)
  }

  /** What was read counts only if it has the hash asked for. */
  function Verified(c: Settings, h: Digest, data: Option<Block>): (r: Option<Block>)
    ensures r.Some? ==> c.hash(r.value) == h
  {
    if data.Some? && c.hash(data.value) == h then data else None
  }

  /** The block a read of the index entry gives. */
  function Fetched(c: Settings, s: Store, h: Digest): Option<Block>
    requires h in s.index
  {
    Verified(c, h, ReadAt(c.pool, s.shelf, Spot(s.index[h].id, s.index[h].slot)))
  }

  function AfterGet(c: Settings, s: Store, h: Digest, loaded: bool): Store
  {
    if h !in s.index then s
    else if L.Find(s.cached, h).Some? then s.(cached := L.Got(s.cached, h))
    else
      match Fetched(c, s, h)
      case None => AfterRead(c, s, s.index[h].id, loaded)
      case Some(b) =>
        AfterRead(c, s, s.index[h].id, loaded).(cached := L.Admitted(s.cached, h, Cell(b, Live), c.lruSize))
  }

  /** What the caller of a get receives. */
  function Answer(c: Settings, s: Store, h: Digest): Option<Block>
  {
    if h !in s.index then None
    else match L.Find(s.cached, h)
      case Some(i) => Some(s.cached[i].1.block)
      case None => Fetched(c, s, h)
  }

  /** The first half of an asynchronous get: answer at once, or wait for the pool. */
  function AfterGetLater(s: Store, h: Digest): Store
  {
    if h !in s.index then s.(replies := s.replies + [Reply(h, None, false)])
    else match L.Find(s.cached, h)
      case Some(i) =>
        s.(cached := L.Got(s.cached, h), replies := s.replies + [Reply(h, Some(s.cached[i].1.block), true)])
      case None =>
        s.(pending := [Wait(h, Live)] + s.pending, asked := s.asked + [Spot(s.index[h].id, s.index[h].slot)])
  }

  /** The pool reads. */
  function AfterFetch(c: Settings, s: Store, loaded: bool): Store
  {
    if s.asked == [] then s
    else
      var spot := s.asked[0];
      AfterRead(c, s, spot.id, loaded).(asked := s.asked[1..],
                                        answers := s.answers + [Result(spot, ReadAt(c.pool, s.shelf, spot))])
  }

  /** The gets that wait for a spot, and the others; both newest first. */
  function WaitingAt(pending: seq<Wait>, index: map<Digest, Rec>, spot: Spot): (r: seq<Wait>)
  {
    if pending == [] then []
    else
      var n := |pending| - 1;
      WaitingAt(pending[..n], index, spot) +
        if Where(index, pending[n].h, pending[n].held) == Some(spot) then [pending[n]] else []
  }

  function WaitingElsewhere(pending: seq<Wait>, index: map<Digest, Rec>, spot: Spot): (r: seq<Wait>)
  {
    if pending == [] then []
    else
      var n := |pending| - 1;
      WaitingElsewhere(pending[..n], index, spot) +
        if Where(index, pending[n].h, pending[n].held) == Some(spot) then [] else [pending[n]]
  }

  function RepliesTo(waits: seq<Wait>, block: Option<Block>): (r: seq<Reply>)
    ensures |r| == |waits|
  {
    seq(|waits|, i requires 0 <= i < |waits| => Reply(waits[i].h, block, true))
  }

  /** The result of a read arrives.  It is checked against the hash of the newest get
      that waits for its spot, goes into the cache with the record that get holds, and
      is sent to every get that waits for the spot. */
  function AfterReadResult(c: Settings, s: Store): Store
  {
    if s.answers == [] then s
    else
      var spot := s.answers[0].spot;
      var waits := WaitingAt(s.pending, s.index, spot);
      var block := if waits == [] then None else Verified(c, waits[0].h, s.answers[0].data);
      s.(answers := s.answers[1..],
         pending := WaitingElsewhere(s.pending, s.index, spot),
         replies := s.replies + RepliesTo(waits, block),
         cached := if block.None? then s.cached
                   else L.Admitted(s.cached, waits[0].h, Cell(block.value, waits[0].held), c.lruSize))
  }

  function Resized(c: Settings, s: Store, limit: U64): Store
  {
    var s1 := s.(limit := limit, shelf := s.shelf.(target := TargetFor(c.pool, limit)));
    if limit == 0 then s1
    else s1.(count := Wrap(|s.index|), bytes := Wrap(Bytes(|s.index|, c.pool.blockSize)), lag := 0)
  }

  /** A removal clears the pins it overrides. */
  function Removed(c: Settings, s: Store, h: Digest, force: bool): Store
  {
    match Record(s, h)
    case None => s
    case Some(r) =>
      if Spared(r, force) then s
      else Deleted(c, if r.pins > 0 then Updated(s, h, r.(pins := 0)) else s, h)
  }

  /** Give a claim back; the last one takes the block with it. */
  function Released(c: Settings, s: Store, h: Digest): Store
  {
    match Record(s, h)
    case None => s
    case Some(r) =>
      if r.claims == 0 then s
      else
        var s1 := Updated(s, h, r.(claims := r.claims - 1));
        if r.claims == 1 then Deleted(c, s1, h) else s1
  }

  function Step(c: Settings, s: Store, m: Msg): Store
    requires Ready(c, s)
  {
    match m
    case Put(h, data, group, claim) => AfterPut(c, s, h, data, group, claim)
    case GroupEnd(group, abort) => Ended(c, s, group, abort)
    case Resize(limit) => Resized(c, s, limit)
    case Gc(keep, force) => Swept(c, s, keep, force)
    case Get(h, loaded) => AfterGet(c, s, h, loaded)
    case GetLater(h) => AfterGetLater(s, h)
    case Fetch(loaded) => AfterFetch(c, s, loaded)
    case ReadResult => AfterReadResult(c, s)
    case Remove(h, force) => Removed(c, s, h, force)
    case Defragment(ids, threshold) =>
      s.(shelf := Defragmented(c.pool, s.shelf, ids, threshold),
         index := Rewritten(s.index, AllMoves(c.pool, s.shelf, ids, threshold)))
    case Acquire(h) =>
      (match Record(s, h)
       case Some(r) => if r.claims < MAX_CLAIMS then Updated(s, h, r.(claims := r.claims + 1)) else s
       case None => s)
    case Release(h) => Released(c, s, h)
    case Clear(h) =>
      (match Record(s, h)
       case Some(r) => Updated(s, h, r.(claims := 0))
       case None => s)
    case Pin(h) =>
      (match Record(s, h)
       case Some(r) => if r.pins < MAX_PINS then Updated(s, h, r.(pins := r.pins + 1)) else s
       case None => s)
    case Unpin(h) =>
      (match Record(s, h)
       case Some(r) => if r.pins > 0 then Updated(s, h, r.(pins := r.pins - 1)) else s
       case None => s)
  }

  /** The message caches a hash that is already in the last place of the full cache: the
      cache would go on with a node that it has released. */
  predicate Dangles(c: Settings, s: Store, m: Msg)
  {
    match m
    case Put(h, data, group, claim) =>
      && h !in s.index && !Refused(c, s, group) && |data| == c.pool.blockSize
      && L.Reused(s.cached, h, c.lruSize)
    case ReadResult =>
      && s.answers != []
      && var waits := WaitingAt(s.pending, s.index, s.answers[0].spot);
         && waits != [] && Verified(c, waits[0].h, s.answers[0].data).Some?
         && L.Reused(s.cached, waits[0].h, c.lruSize)
    case _ => false
  }

  // ---- placement: no two blocks share a slot, and each slot holds its block ----

  predicate Backed(c: Config, shelf: Shelf, r: Rec, b: Block)
  {
    var slots := At(c, shelf, r.id);
    r.id < shelf.nextId && r.slot < |slots.used| && slots.used[r.slot] && Read(slots, r.slot) == Some(b)
  }

  predicate Exclusive(index: map<Digest, Rec>)
  {
    forall h, k | h in index && k in index && h != k :: index[h].id != index[k].id || index[h].slot != index[k].slot
  }

  predicate Placed(c: Config, shelf: Shelf, index: map<Digest, Rec>, blocks: map<Digest, Block>)
  {
    && Exclusive(index)
    && forall h | h in index :: h in blocks && Backed(c, shelf, index[h], blocks[h])
  }

  /** The cache and the gets that wait refer to indexed blocks unless their record is
      detached, and the pool is only asked for sections it knows. */
  predicate Tidy(c: Settings, s: Store)
  {
    && L.Unique(s.cached) && |s.cached| <= c.lruSize
    && (forall e | e in s.cached :: e.1.held.Live? ==> e.0 in s.index)
    && (forall w | w in s.pending :: w.held.Live? ==> w.h in s.index)
    && (forall p | p in s.asked :: p.id < s.shelf.nextId)
  }

  predicate Kept(c: Settings, s: Store)
  {
    Ready(c, s) && Placed(c.pool, s.shelf, s.index, s.blocks) && Tidy(c, s)
  }

  lemma {:induction false} StoredPlaced(c: Settings, s: Store, h: Digest, data: Block, group: nat, claim: bool)
    requires Ready(c, s) && Placed(c.pool, s.shelf, s.index, s.blocks) && h !in s.index
    ensures var s' := Stored(c, s, h, data, group, claim);
            Ready(c, s') && Placed(c.pool, s'.shelf, s'.index, s'.blocks)
  {
    hide S.Store, At, SoundAll, RoomyBut, L.Admitted, Recorded;
    var s' := Stored(c, s, h, data, group, claim);
    WriteSucceeds(c.pool, s.shelf, data);
    var (shelf, id, slot) := S.Store(c.pool, s.shelf, data);
    forall k | k in s.index
      ensures Backed(c.pool, shelf, s.index[k], s.blocks[k])
      ensures s.index[k].id != id || s.index[k].slot != slot
    {
      StoreKnown(c.pool, s.shelf, data, s.index[k].id);
    }
    StoreKnown(c.pool, s.shelf, data, id);
  }

  lemma StoreKnown(c: Config, s: Shelf, data: Block, x: Id)
    requires S.Inv(c, s) && c.size > 0 && c.floor > 0
    ensures |At(c, s, x).used| == c.size && |At(c, S.Store(c, s, data).0, x).used| == c.size
    ensures s.nextId <= S.Store(c, s, data).0.nextId && S.Store(c, s, data).1 < s.nextId
  {
    hide S.Store, SoundAll, RoomyBut, At;
    WriteSucceeds(c, s, data);
    StoreGrows(c, s, data);
    SizeAt(c, s, x);
    SizeAt(c, S.Store(c, s, data).0, x);
  }

  /** One entry after a compaction. */
  lemma {:induction false} MovedEntry(c: Settings, s: Store, ids: seq<Id>, threshold: real, h: Digest)
    requires Ready(c, s) && Placed(c.pool, s.shelf, s.index, s.blocks) && Distinct(ids) && h in s.index
    ensures var s', r := Step(c, s, Defragment(ids, threshold)), s.index[h];
            && h in s'.index && h in s.blocks && s'.index[h].id == r.id
            && s'.index[h].slot == Relocated(c.pool, s.shelf, ids, threshold, r.id, r.slot)
            && Backed(c.pool, s'.shelf, s'.index[h], s.blocks[h])
  {
    hide At, SoundAll, RoomyBut, Defragmented, AllMoves, Follow, Relocated, Exclusive;
    assert Backed(c.pool, s.shelf, s.index[h], s.blocks[h]);
    DefragmentKeepsRead(c.pool, s.shelf, ids, threshold, s.index[h].id, s.index[h].slot);
    FollowIsRelocated(c.pool, s.shelf, ids, threshold, s.index[h].id, s.index[h].slot);
  }

  /** Two entries in one section keep their order. */
  lemma {:induction false} MovedApart(c: Settings, s: Store, ids: seq<Id>, threshold: real, h: Digest, k: Digest)
    requires Ready(c, s) && Placed(c.pool, s.shelf, s.index, s.blocks) && Distinct(ids)
    requires h in s.index && k in s.index && s.index[h].id == s.index[k].id && s.index[h].slot < s.index[k].slot
    ensures var id := s.index[h].id;
            Relocated(c.pool, s.shelf, ids, threshold, id, s.index[h].slot) <
            Relocated(c.pool, s.shelf, ids, threshold, id, s.index[k].slot)
  {
    hide At, SoundAll, RoomyBut, Relocated, Exclusive;
    assert Backed(c.pool, s.shelf, s.index[h], s.blocks[h]) && Backed(c.pool, s.shelf, s.index[k], s.blocks[k]);
    DefragmentKeepsOrder(c.pool, s.shelf, ids, threshold, s.index[h].id, s.index[h].slot, s.index[k].slot);
  }

  lemma {:induction false} MovedReady(c: Settings, s: Store, ids: seq<Id>, threshold: real)
    requires Ready(c, s) && Distinct(ids)
    ensures Ready(c, Step(c, s, Defragment(ids, threshold)))
    ensures Step(c, s, Defragment(ids, threshold)).index.Keys == s.index.Keys
    ensures Step(c, s, Defragment(ids, threshold)).blocks == s.blocks
  {
    hide At, S.Inv, Defragmented, AllMoves, Follow;
    DefragmentKeepsInv(c.pool, s.shelf, ids, threshold);
  }

  /** Compaction moves blocks, and the rewritten index finds each one again. */
  lemma {:induction false} DefragmentPlaced(c: Settings, s: Store, ids: seq<Id>, threshold: real)
    requires Ready(c, s) && Placed(c.pool, s.shelf, s.index, s.blocks) && Distinct(ids)
    ensures var s' := Step(c, s, Defragment(ids, threshold));
            Ready(c, s') && Placed(c.pool, s'.shelf, s'.index, s'.blocks)
  {
    hide Step, Ready, Backed, Relocated;
    MovedReady(c, s, ids, threshold);
    var s' := Step(c, s, Defragment(ids, threshold));
    forall h | h in s.index
      ensures h in s.blocks && Backed(c.pool, s'.shelf, s'.index[h], s.blocks[h])
    {
      MovedEntry(c, s, ids, threshold, h);
    }
    forall h, k | h in s'.index && k in s'.index && h != k
      ensures s'.index[h].id != s'.index[k].id || s'.index[h].slot != s'.index[k].slot
    {
      MovedEntry(c, s, ids, threshold, h);
      MovedEntry(c, s, ids, threshold, k);
      if s.index[h].id == s.index[k].id {
        if s.index[h].slot < s.index[k].slot {
          MovedApart(c, s, ids, threshold, h, k);
        } else {
          MovedApart(c, s, ids, threshold, k, h);
        }
      }
    }
  }

  /** Fewer entries, at the same places. */
  predicate Within(index': map<Digest, Rec>, index: map<Digest, Rec>)
  {
    forall h | h in index' :: h in index && index'[h].id == index[h].id && index'[h].slot == index[h].slot
  }

  lemma PlacedWithin(c: Config, shelf: Shelf, index: map<Digest, Rec>, index': map<Digest, Rec>, blocks: map<Digest,
                     Block>)
    requires Placed(c, shelf, index, blocks) && Within(index', index)
    ensures Placed(c, shelf, index', blocks)
  {
  }

  lemma PlacedSameSections(c: Config, shelf: Shelf, shelf': Shelf, index: map<Digest, Rec>, blocks: map<Digest, Block>)
    requires Placed(c, shelf, index, blocks) && shelf'.sections == shelf.sections && shelf'.nextId == shelf.nextId
    ensures Placed(c, shelf', index, blocks)
  {
  }

  lemma {:induction false} RotatedReady(c: Config, s: Shelf)
    requires S.Inv(c, s)
    ensures S.Inv(c, s.(robin := R.Rotated(s.robin)))
  {
    var s' := s.(robin := R.Rotated(s.robin));
    forall i | 0 <= i < |s'.robin|
      ensures s'.robin[i] == s.robin[if i < |s.robin| - 1 then i + 1 else 0]
    {
    }
  }

  /** What a message other than a put and a defragmentation leaves: entries at the places
      they had, in the same sections. */
  predicate Quiet(s: Store, s': Store)
  {
    && Within(s'.index, s.index) && s'.blocks == s.blocks
    && s'.shelf.sections == s.shelf.sections && s'.shelf.nextId == s.shelf.nextId
  }

  lemma {:induction false} RecordPlace(s: Store, h: Digest, r: Rec)
    requires Record(s, h).Some? && r.id == Record(s, h).value.id && r.slot == Record(s, h).value.slot
    ensures Quiet(s, Updated(s, h, r)) && Updated(s, h, r).index.Keys == s.index.Keys
  {
    hide L.Find;
  }

  lemma DeletedQuiet(c: Settings, s: Store, h: Digest)
    ensures Quiet(s, Deleted(c, s, h))
  {
    hide L.Without;
  }

  lemma {:induction false} RemovedQuiet(c: Settings, s: Store, h: Digest, force: bool)
    ensures Quiet(s, Removed(c, s, h, force)) && Quiet(s, Released(c, s, h))
  {
    hide Updated, Deleted, Record, Quiet;
    match Record(s, h) {
      case None =>
        SelfQuiet(s);
      case Some(r) =>
        RecordPlace(s, h, r.(pins := 0));
        var s1, s2 := Updated(s, h, r.(pins := 0)), if r.pins > 0 then Updated(s, h, r.(pins := 0)) else s;
        SelfQuiet(s);
        DeletedQuiet(c, s2, h);
        QuietTrans(s, s2, Deleted(c, s2, h));
        if r.claims > 0 {
          var s3 := Updated(s, h, r.(claims := r.claims - 1));
          RecordPlace(s, h, r.(claims := r.claims - 1));
          DeletedQuiet(c, s3, h);
          QuietTrans(s, s3, Deleted(c, s3, h));
        }
    }
  }

  lemma SelfQuiet(s: Store)
    ensures Quiet(s, s)
  {
  }

  lemma QuietTrans(s: Store, t: Store, u: Store)
    requires Quiet(s, t) && Quiet(t, u)
    ensures Quiet(s, u)
  {
  }

  lemma EndQuiet(c: Settings, s: Store, g: nat, abort: bool)
    ensures Quiet(s, Ended(c, s, g, abort)) && Ended(c, s, g, abort).shelf == s.shelf
  {
    hide FindGroup, L.Without;
  }

  lemma {:induction false} StepQuiet(c: Settings, s: Store, m: Msg)
    requires Ready(c, s) && !m.Put? && !m.Defragment?
    ensures Quiet(s, Step(c, s, m))
  {
    hide S.Inv, Removed, Released, Ended, Updated, Record, AfterGet, AfterGetLater, AfterFetch, AfterReadResult;
    hide Resized, Swept, Quiet;
    SelfQuiet(s);
    match m
    case GroupEnd(group, abort) => EndQuiet(c, s, group, abort);
    case Remove(h, force) => RemovedQuiet(c, s, h, force);
    case Release(h) => RemovedQuiet(c, s, h, false);
    case Acquire(h) => RecordQuiet(s, h);
    case Clear(h) => RecordQuiet(s, h);
    case Pin(h) => RecordQuiet(s, h);
    case Unpin(h) => RecordQuiet(s, h);
    case Get(h, loaded) => GetQuiet(c, s, h, loaded);
    case GetLater(h) => GetQuiet(c, s, h, false);
    case Fetch(loaded) => FetchQuiet(c, s, loaded);
    case ReadResult => ResultQuiet(c, s);
    case Resize(limit) => ResizeQuiet(c, s, limit);
    case Gc(keep, force) => SweptQuiet(c, s, keep, force);
  }

  lemma GetQuiet(c: Settings, s: Store, h: Digest, loaded: bool)
    ensures Quiet(s, AfterGet(c, s, h, loaded)) && Quiet(s, AfterGetLater(s, h))
  {
    hide L.Find, L.Admitted, L.Got, Fetched;
  }

  lemma SweptQuiet(c: Settings, s: Store, keep: set<Digest>, force: bool)
    ensures Quiet(s, Swept(c, s, keep, force))
  {
    hide L.Without;
  }

  lemma FetchQuiet(c: Settings, s: Store, loaded: bool)
    ensures Quiet(s, AfterFetch(c, s, loaded))
  {
    hide ReadAt;
  }

  lemma ResultQuiet(c: Settings, s: Store)
    ensures Quiet(s, AfterReadResult(c, s))
  {
    hide L.Admitted, WaitingAt, WaitingElsewhere, Verified;
  }

  lemma ResizeQuiet(c: Settings, s: Store, limit: U64)
    ensures Quiet(s, Resized(c, s, limit))
  {
    hide TargetFor;
  }

  lemma RecordQuiet(s: Store, h: Digest)
    ensures forall r: Rec | Record(s, h).Some? && r.id == Record(s, h).value.id && r.slot == Record(s, h).value.slot ::
              Quiet(s, Updated(s, h, r)) && Updated(s, h, r).index.Keys == s.index.Keys
  {
    hide Quiet, Updated, Record;
    forall r: Rec | Record(s, h).Some? && r.id == Record(s, h).value.id && r.slot == Record(s, h).value.slot
      ensures Quiet(s, Updated(s, h, r)) && Updated(s, h, r).index.Keys == s.index.Keys
    {
      RecordPlace(s, h, r);
    }
  }

  lemma {:induction false} TouchReady(c: Settings, s: Store, id: Id, loaded: bool)
    requires Ready(c, s) && id < s.shelf.nextId
    ensures Ready(c, AfterRead(c, s, id, loaded))
  {
    hide S.Inv;
    TouchedKeeps(c.pool, s.shelf, id);
  }

  /** The pool stays ready. */
  lemma {:induction false} StepReady(c: Settings, s: Store, m: Msg)
    requires Kept(c, s) && !m.Put? && !m.Defragment?
    ensures Ready(c, Step(c, s, m))
  {
    hide S.Inv, At, L.Find, L.Admitted, L.Got, L.Without, Removed, Released, Ended, Updated, Record, Placed, Touched;
    match m
    case GroupEnd(group, abort) => EndQuiet(c, s, group, abort);
    case Remove(h, force) => RecordShelf(c, s, h, force);
    case Release(h) => RecordShelf(c, s, h, false);
    case Resize(limit) => TargetReady(c.pool, s.shelf, TargetFor(c.pool, limit));
    case Get(h, loaded) =>
      if h in s.index {
        KnownPlace(c, s, h);
        TouchReady(c, s, s.index[h].id, loaded);
      }
    case Fetch(loaded) =>
      if s.asked != [] {
        assert s.asked[0] in s.asked;
        TouchReady(c, s, s.asked[0].id, loaded);
      }
    case Acquire(h) => UpdatedShelf(s, h);
    case Clear(h) => UpdatedShelf(s, h);
    case Pin(h) => UpdatedShelf(s, h);
    case Unpin(h) => UpdatedShelf(s, h);
    case _ =>
  }

  lemma UpdatedShelf(s: Store, h: Digest)
    ensures forall r :: Updated(s, h, r).shelf == s.shelf
  {
    hide L.Find;
  }

  lemma RecordShelf(c: Settings, s: Store, h: Digest, force: bool)
    ensures Removed(c, s, h, force).shelf == s.shelf && Released(c, s, h).shelf == s.shelf
  {
    UpdatedShelf(s, h);
    hide Updated, Record, L.Without;
  }

  lemma TargetReady(c: Config, s: Shelf, target: nat)
    requires S.Inv(c, s)
    ensures S.Inv(c, s.(target := target))
  {
  }

  lemma KnownPlace(c: Settings, s: Store, h: Digest)
    requires Placed(c.pool, s.shelf, s.index, s.blocks) && h in s.index
    ensures s.index[h].id < s.shelf.nextId
  {
    assert Backed(c.pool, s.shelf, s.index[h], s.blocks[h]);
  }

  lemma PlacedQuiet(c: Config, s: Store, s': Store)
    requires Placed(c, s.shelf, s.index, s.blocks) && Quiet(s, s')
    ensures Placed(c, s'.shelf, s'.index, s'.blocks)
  {
    PlacedWithin(c, s.shelf, s.index, s'.index, s.blocks);
    PlacedSameSections(c, s.shelf, s'.shelf, s'.index, s.blocks);
  }

  /** Every message keeps the blocks where the index says, one block to a slot. */
  lemma {:induction false} StepPlaced(c: Settings, s: Store, m: Msg)
    requires Kept(c, s) && (m.Defragment? ==> Distinct(m.ids))
    ensures var s' := Step(c, s, m);
            Ready(c, s') && Placed(c.pool, s'.shelf, s'.index, s'.blocks)
  {
    hide Ready, Placed, Quiet, Step;
    match m
    case Put(h, data, group, claim) => PutPlaced(c, s, h, data, group, claim);
    case Defragment(ids, threshold) => DefragmentPlaced(c, s, ids, threshold);
    case _ =>
      StepReady(c, s, m);
      StepQuiet(c, s, m);
      PlacedQuiet(c.pool, s, Step(c, s, m));
  }

  lemma {:induction false} PutPlaced(c: Settings, s: Store, h: Digest, data: Block, group: nat, claim: bool)
    requires Ready(c, s) && Placed(c.pool, s.shelf, s.index, s.blocks)
    ensures var s' := Step(c, s, Put(h, data, group, claim));
            Ready(c, s') && Placed(c.pool, s'.shelf, s'.index, s'.blocks)
  {
    hide Placed, S.Inv, Stored;
    var s' := AfterPut(c, s, h, data, group, claim);
    if h in s.index {
      PlacedWithin(c.pool, s.shelf, s.index, s'.index, s.blocks);
    } else {
      RotatedReady(c.pool, s.shelf);
      PlacedSameSections(c.pool, s.shelf, s.shelf.(robin := R.Rotated(s.shelf.robin)), s.index, s.blocks);
      StoredPlaced(c, s, h, data, group, claim);
    }
  }

  // ---- the cache and the gets that wait ----

  lemma {:induction false} DroppedTidy(c: Settings, s: Store, gone: set<Digest>)
    requires Tidy(c, s) && gone <= s.index.Keys
    ensures Tidy(c, Dropped(c, s, gone))
  {
    hide L.Without, L.Unique;
    L.WithoutIs(s.cached, gone);
    L.WithoutUnique(s.cached, gone);
    var pending := Detach(s.pending, s.index, gone);
    forall w | w in pending
      ensures w.held.Live? ==> w.h in s.index && w.h !in gone
    {
      var i :| 0 <= i < |pending| && pending[i] == w;
      assert s.pending[i] in s.pending;
    }
  }

  lemma {:induction false} DeletedTidy(c: Settings, s: Store, h: Digest)
    requires Tidy(c, s)
    ensures Tidy(c, Deleted(c, s, h))
  {
    hide Dropped, L.Without, L.Unique;
    if h in s.index {
      DroppedTidy(c, s, {h});
    } else {
      L.WithoutIs(s.cached, {h});
      L.WithoutUnique(s.cached, {h});
    }
  }

  /** Changing a record changes no key. */
  lemma {:induction false} UpdatedTidy(c: Settings, s: Store, h: Digest, r: Rec)
    requires Tidy(c, s)
    ensures Tidy(c, Updated(s, h, r))
  {
    hide L.Find;
    if Orphaned(s.cached, h) {
      var i := L.Find(s.cached, h).value;
      var cached := Reheld(s.cached, h, r);
      forall e | e in cached
        ensures e.1.held.Live? ==> e.0 in s.index
      {
        var j :| 0 <= j < |cached| && cached[j] == e;
        assert j != i ==> s.cached[j] in s.cached;
      }
    }
  }

  lemma {:induction false} RecordTidy(c: Settings, s: Store, h: Digest, force: bool)
    requires Tidy(c, s)
    ensures Tidy(c, Removed(c, s, h, force)) && Tidy(c, Released(c, s, h))
  {
    hide Tidy, Updated, Deleted, Record;
    match Record(s, h) {
      case None =>
      case Some(r) =>
        UpdatedTidy(c, s, h, r.(pins := 0));
        DeletedTidy(c, Updated(s, h, r.(pins := 0)), h);
        DeletedTidy(c, s, h);
        if r.claims > 0 {
          UpdatedTidy(c, s, h, r.(claims := r.claims - 1));
          DeletedTidy(c, Updated(s, h, r.(claims := r.claims - 1)), h);
        }
    }
  }

  /** Caching a block, with a record that is in the index or detached. */
  lemma {:induction false} CacheTidy(c: Settings, s: Store, h: Digest, cell: Cell)
    requires Tidy(c, s) && c.lruSize > 0 && (cell.held.Live? ==> h in s.index)
    requires !L.Reused(s.cached, h, c.lruSize)
    ensures Tidy(c, s.(cached := L.Admitted(s.cached, h, cell, c.lruSize)))
  {
    hide L.Find, L.Unique, L.Admitted, L.Reused;
    L.AdmittedKeeps(s.cached, h, cell, c.lruSize);
  }

  lemma {:induction false} RaiseTidy(c: Settings, s: Store, h: Digest)
    requires Tidy(c, s)
    ensures Tidy(c, s.(cached := L.Got(s.cached, h)))
  {
    hide L.Find, L.Unique, L.Got, L.Put, L.Deleted;
    L.KeepsUnique(s.cached, h, Cell([], Live), c.lruSize);
    L.OpsFrom(s.cached, h, Cell([], Live), c.lruSize);
  }

  lemma {:induction false} WaitingFrom(pending: seq<Wait>, index: map<Digest, Rec>, spot: Spot)
    ensures forall w | w in WaitingAt(pending, index, spot) ::
              w in pending && Where(index, w.h, w.held) == Some(spot)
    ensures forall w | w in WaitingElsewhere(pending, index, spot) ::
              w in pending && Where(index, w.h, w.held) != Some(spot)
    ensures forall w | w in pending ::
              if Where(index, w.h, w.held) == Some(spot) then w in WaitingAt(pending, index, spot)
              else w in WaitingElsewhere(pending, index, spot)
  {
    if pending != [] {
      var n := |pending| - 1;
      WaitingFrom(pending[..n], index, spot);
      assert pending == pending[..n] + [pending[n]];
    }
  }

  lemma {:induction false} PutTidy(c: Settings, s: Store, h: Digest, data: Block, group: nat, claim: bool)
    requires Ready(c, s) && Tidy(c, s) && !Dangles(c, s, Put(h, data, group, claim))
    ensures Tidy(c, AfterPut(c, s, h, data, group, claim))
  {
    hide S.Inv, S.Store, L.Admitted, Recorded, L.Unique;
    var s' := AfterPut(c, s, h, data, group, claim);
    if h in s.index {
      assert s'.index.Keys == s.index.Keys;
    } else if s' == Stored(c, s, h, data, group, claim) {
      assert s'.index.Keys == s.index.Keys + {h};
      StoreLater(c.pool, s.shelf, data);
      CacheTidy(c, s.(index := s'.index), h, Cell(data, Live));
    }
  }

  lemma StoreLater(c: Config, s: Shelf, data: Block)
    requires S.Inv(c, s) && c.size > 0 && c.floor > 0
    ensures s.nextId <= S.Store(c, s, data).0.nextId
  {
    StoreKnown(c, s, data, 0);
  }

  lemma {:induction false} GetTidy(c: Settings, s: Store, h: Digest, loaded: bool)
    requires Kept(c, s)
    ensures Tidy(c, AfterGet(c, s, h, loaded)) && Tidy(c, AfterGetLater(s, h))
  {
    hide S.Inv, L.Find, L.Admitted, L.Got, Fetched, Touched, Placed, L.Unique;
    if h in s.index {
      KnownPlace(c, s, h);
      RaiseTidy(c, s, h);
      if L.Find(s.cached, h).None? && Fetched(c, s, h).Some? {
        CacheTidy(c, s, h, Cell(Fetched(c, s, h).value, Live));
      }
      assert Touched(c.pool, s.shelf, s.index[h].id).nextId == s.shelf.nextId by {
        TouchedLater(c.pool, s.shelf, s.index[h].id);
      }
    }
  }

  lemma TouchedLater(c: Config, s: Shelf, id: Id)
    ensures Touched(c, s, id).nextId == s.nextId
  {
  }

  lemma {:induction false} ReadTidy(c: Settings, s: Store, loaded: bool)
    requires Kept(c, s)
    ensures Tidy(c, AfterFetch(c, s, loaded)) && (!Dangles(c, s, ReadResult) ==> Tidy(c, AfterReadResult(c, s)))
  {
    hide S.Inv, L.Find, L.Admitted, L.Got, Touched, Placed, L.Unique, At, WaitingAt, WaitingElsewhere, Where;
    if s.asked != [] {
      TouchedLater(c.pool, s.shelf, s.asked[0].id);
    }
    if s.answers != [] {
      var spot := s.answers[0].spot;
      WaitingFrom(s.pending, s.index, spot);
      var waits := WaitingAt(s.pending, s.index, spot);
      if waits != [] {
        assert waits[0] in waits;
        if Verified(c, waits[0].h, s.answers[0].data).Some? && !Dangles(c, s, ReadResult) {
          CacheTidy(c, s, waits[0].h, Cell(s.answers[0].data.value, waits[0].held));
        }
      }
    }
  }

  /** Every message that does not cache the last of a full cache again keeps the keys of
      the cache distinct and within its size, and its records and those of the gets that
      wait in the index or detached. */
  lemma {:induction false} StepTidy(c: Settings, s: Store, m: Msg)
    requires Kept(c, s) && !Dangles(c, s, m)
    ensures Tidy(c, Step(c, s, m))
  {
    hide S.Inv, Placed, Tidy, Removed, Released, Ended, Updated, Record, AfterGet, AfterGetLater, AfterFetch;
    hide AfterReadResult, Resized, Swept, AfterPut, AllMoves, Defragmented, Dropped;
    match m
    case Put(h, data, group, claim) => PutTidy(c, s, h, data, group, claim);
    case GroupEnd(group, abort) => EndTidy(c, s, group, abort);
    case Resize(limit) => ResizeTidy(c, s, limit);
    case Gc(keep, force) => SweptTidy(c, s, keep, force);
    case Get(h, loaded) => GetTidy(c, s, h, loaded);
    case GetLater(h) => GetTidy(c, s, h, false);
    case Fetch(loaded) => ReadTidy(c, s, loaded);
    case ReadResult => ReadTidy(c, s, false);
    case Remove(h, force) => RecordTidy(c, s, h, force);
    case Release(h) => RecordTidy(c, s, h, false);
    case Defragment(ids, threshold) => RewrittenTidy(c, s, ids, threshold);
    case _ =>
      if Record(s, m.h).Some? {
        var r := Record(s, m.h).value;
        UpdatedTidy(c, s, m.h, r.(claims := r.claims + 1));
        UpdatedTidy(c, s, m.h, r.(claims := 0));
        UpdatedTidy(c, s, m.h, r.(pins := r.pins + 1));
        if r.pins > 0 {
          UpdatedTidy(c, s, m.h, r.(pins := r.pins - 1));
        }
      }
  }

  lemma EndTidy(c: Settings, s: Store, g: nat, abort: bool)
    requires Tidy(c, s)
    ensures Tidy(c, Ended(c, s, g, abort))
  {
    hide FindGroup, Dropped, L.Unique;
    var gone := Indexed(s.index, Listed(s.receipts, g));
    var s1 := s.(index := Unpinned(s.index, gone));
    assert s1.index.Keys == s.index.Keys;
    DroppedTidy(c, s1, gone);
  }

  lemma SweptTidy(c: Settings, s: Store, keep: set<Digest>, force: bool)
    requires Tidy(c, s)
    ensures Tidy(c, Swept(c, s, keep, force))
  {
    hide Tidy, Dropped, Doomed;
    DroppedTidy(c, s, Doomed(s.index, keep, force));
  }

  lemma ResizeTidy(c: Settings, s: Store, limit: U64)
    requires Tidy(c, s)
    ensures Tidy(c, Resized(c, s, limit))
  {
    hide L.Unique, TargetFor;
  }

  lemma RewrittenTidy(c: Settings, s: Store, ids: seq<Id>, threshold: real)
    requires Kept(c, s)
    ensures Tidy(c, Step(c, s, Defragment(ids, threshold)))
  {
    hide L.Unique, AllMoves, Defragmented, Placed, Follow;
    var s' := Step(c, s, Defragment(ids, threshold));
    assert s'.index.Keys == s.index.Keys;
    assert s'.shelf.nextId == s.shelf.nextId;
  }

  // ---- the counters ----

  /** The counters are those of the index less what they have missed. */
  predicate Counted(c: Settings, s: Store)
  {
    && s.count == Wrap(|s.index| - s.lag)
    && s.bytes == Wrap(Bytes(|s.index| - s.lag, c.pool.blockSize))
  }

  /** Counting up or down by whole blocks. */
  lemma CountBy(count: int, d: int, size: nat)
    ensures Wrap(Wrap(count) + d) == Wrap(count + d)
    ensures Wrap(Wrap(Bytes(count, size)) + Bytes(d, size)) == Wrap(Bytes(count + d, size))
    ensures Bytes(1, size) == size && Bytes(-d, size) == -Bytes(d, size)
  {
    WrapAdd(count, d);
    WrapAdd(Bytes(count, size), Bytes(d, size));
  }

  lemma {:induction false} RemoveKeys(m: map<Digest, Rec>, gone: set<Digest>)
    requires gone <= m.Keys
    ensures |m - gone| == |m| - |gone|
  {
    assert (m - gone).Keys == m.Keys - gone;
  }

  lemma AddKey(m: map<Digest, Rec>, h: Digest, r: Rec)
    requires h !in m
    ensures |m[h := r]| == |m| + 1
  {
    assert m[h := r].Keys == m.Keys + {h};
  }

  lemma SameKeys(m: map<Digest, Rec>, n: map<Digest, Rec>)
    requires m.Keys == n.Keys
    ensures |m| == |n|
  {
    assert |m.Keys| == |m| && |n.Keys| == |n|;
  }

  lemma {:induction false} DroppedCounted(c: Settings, s: Store, gone: set<Digest>)
    requires Counted(c, s) && gone <= s.index.Keys
    ensures Counted(c, Dropped(c, s, gone)) && Dropped(c, s, gone).lag == s.lag
  {
    hide Bytes, L.Without, Wrap;
    RemoveKeys(s.index, gone);
    CountBy(|s.index| - s.lag, -|gone|, c.pool.blockSize);
    CountBy(0, |gone|, c.pool.blockSize);
  }

  lemma {:induction false} DeletedCounted(c: Settings, s: Store, h: Digest)
    requires Counted(c, s)
    ensures Counted(c, Deleted(c, s, h))
    ensures Deleted(c, s, h).lag == s.lag + if h in s.index then 0 else 1
  {
    hide Bytes, Dropped, L.Without, Wrap;
    if h in s.index {
      DroppedCounted(c, s, {h});
    } else {
      CountBy(|s.index| - s.lag, -1, c.pool.blockSize);
      CountBy(0, 1, c.pool.blockSize);
    }
  }

  lemma {:induction false} UpdatedCounted(c: Settings, s: Store, h: Digest, r: Rec)
    requires Counted(c, s)
    ensures var s' := Updated(s, h, r);
            Counted(c, s') && s'.lag == s.lag && s'.bytes == s.bytes && s'.index.Keys == s.index.Keys
  {
    hide Bytes, L.Find;
    var s' := Updated(s, h, r);
    assert s'.index.Keys == s.index.Keys;
    SameKeys(s'.index, s.index);
  }

  /** The message deletes a hash of which only the cache has a record. */
  predicate Phantom(s: Store, m: Msg)
  {
    match m
    case Remove(h, force) => h !in s.index && Orphaned(s.cached, h) && !Spared(Orphan(s.cached, h), force)
    case Release(h) => h !in s.index && Orphaned(s.cached, h) && Orphan(s.cached, h).claims == 1
    case _ => false
  }

  lemma {:induction false} RecordCounted(c: Settings, s: Store, h: Digest, force: bool)
    requires Counted(c, s)
    ensures var s' := Removed(c, s, h, force);
            Counted(c, s') && s'.lag == s.lag + if Phantom(s, Remove(h, force)) then 1 else 0
    ensures var s' := Released(c, s, h);
            Counted(c, s') && s'.lag == s.lag + if Phantom(s, Release(h)) then 1 else 0
  {
    hide Counted, Updated, Deleted, Orphaned, Orphan;
    match Record(s, h) {
      case None =>
      case Some(r) =>
        UpdatedCounted(c, s, h, r.(pins := 0));
        DeletedCounted(c, Updated(s, h, r.(pins := 0)), h);
        DeletedCounted(c, s, h);
        if r.claims > 0 {
          UpdatedCounted(c, s, h, r.(claims := r.claims - 1));
          DeletedCounted(c, Updated(s, h, r.(claims := r.claims - 1)), h);
        }
    }
  }

  lemma {:induction false} PutCounted(c: Settings, s: Store, h: Digest, data: Block, group: nat, claim: bool)
    requires Ready(c, s) && Counted(c, s)
    ensures var s' := AfterPut(c, s, h, data, group, claim);
            && Counted(c, s') && s'.lag == s.lag
            && (s.limit > 0 ==> s'.bytes <= s.limit || s'.bytes == s.bytes)
  {
    hide SoundAll, RoomyBut, L.Admitted, S.Store, Recorded, Bytes, Wrap;
    CountBy(|s.index| - s.lag, 1, c.pool.blockSize);
    var s' := AfterPut(c, s, h, data, group, claim);
    if h in s.index {
      SameKeys(s'.index, s.index);
    } else {
      var (shelf, id, slot) := S.Store(c.pool, s.shelf, data);
      AddKey(s.index, h, Rec(id, slot, if claim then 1 else 0, 0));
    }
  }

  lemma {:induction false} EndCounted(c: Settings, s: Store, g: nat, abort: bool)
    requires Counted(c, s)
    ensures Counted(c, Ended(c, s, g, abort)) && Ended(c, s, g, abort).lag == s.lag
  {
    hide FindGroup, Dropped, Bytes, Wrap;
    var gone := Indexed(s.index, Listed(s.receipts, g));
    var s1 := s.(index := Unpinned(s.index, gone));
    assert s1.index.Keys == s.index.Keys;
    SameKeys(s1.index, s.index);
    DroppedCounted(c, s1, gone);
  }

  lemma {:induction false} ReadCounted(c: Settings, s: Store, m: Msg)
    requires Ready(c, s) && Counted(c, s) && (m.Get? || m.GetLater? || m.Fetch? || m.ReadResult?)
    ensures Counted(c, Step(c, s, m)) && Step(c, s, m).lag == s.lag
  {
    hide S.Inv, L.Find, L.Admitted, L.Got, At, Touched, WaitingAt, WaitingElsewhere, Wrap, Bytes;
  }

  lemma {:induction false} OtherCounted(c: Settings, s: Store, m: Msg)
    requires Ready(c, s) && Counted(c, s) && (m.Resize? || m.Gc? || m.Defragment?)
    ensures Counted(c, Step(c, s, m))
    ensures Step(c, s, m).lag == if m.Resize? && m.limit > 0 then 0 else s.lag
  {
    hide S.Inv, AllMoves, Defragmented, Dropped, TargetFor, Doomed, Bytes;
    match m
    case Gc(keep, force) => DroppedCounted(c, s, Doomed(s.index, keep, force));
    case Defragment(ids, threshold) => SameKeys(Step(c, s, m).index, s.index);
    case Resize(_) =>
  }

  /** Every message keeps the counters, they fall behind by one at each deletion of what
      only the cache had, a positive resize sets them right, and a put that counts leaves
      the bytes within the limit. */
  lemma {:induction false} StepCounted(c: Settings, s: Store, m: Msg)
    requires Ready(c, s) && Counted(c, s)
    ensures var s' := Step(c, s, m);
            && Counted(c, s')
            && s'.lag == (if m.Resize? && m.limit > 0 then 0 else s.lag + if Phantom(s, m) then 1 else 0)
            && (m.Put? && s.limit > 0 ==> s'.bytes <= s.limit || s'.bytes == s.bytes)
  {
    hide S.Inv, Counted, Removed, Released, Ended, Updated, Record, AfterGet, AfterGetLater, AfterFetch;
    hide AfterReadResult, Resized, Swept, AfterPut, AllMoves, Defragmented, Orphaned, Orphan;
    match m
    case Put(h, data, group, claim) => PutCounted(c, s, h, data, group, claim);
    case GroupEnd(group, abort) => EndCounted(c, s, group, abort);
    case Resize(_) => OtherCounted(c, s, m);
    case Gc(_, _) => OtherCounted(c, s, m);
    case Defragment(_, _) => OtherCounted(c, s, m);
    case Get(_, _) => ReadCounted(c, s, m);
    case GetLater(_) => ReadCounted(c, s, m);
    case Fetch(_) => ReadCounted(c, s, m);
    case ReadResult => ReadCounted(c, s, m);
    case Remove(h, force) => RecordCounted(c, s, h, force);
    case Release(h) => RecordCounted(c, s, h, false);
    case _ =>
      if Record(s, m.h).Some? {
        var r := Record(s, m.h).value;
        UpdatedCounted(c, s, m.h, r.(claims := r.claims + 1));
        UpdatedCounted(c, s, m.h, r.(claims := 0));
        UpdatedCounted(c, s, m.h, r.(pins := r.pins + 1));
        if r.pins > 0 {
          UpdatedCounted(c, s, m.h, r.(pins := r.pins - 1));
        }
      }
  }

  // ---- what a sweep did ----

  datatype Tally = Tally(total: nat, kept: nat, claimed: nat, pinned: nat, deleted: nat)

  /** The entries a sweep keeps, and those it passes over for a claim or for a pin. */
  function Named(index: map<Digest, Rec>, keep: set<Digest>): set<Digest>
  {
    set h | h in index && h in keep
  }

  function ClaimedIn(index: map<Digest, Rec>, keep: set<Digest>, force: bool): set<Digest>
  {
    set h | h in index && h !in keep && !force && index[h].claims > 0
  }

  function PinnedIn(index: map<Digest, Rec>, keep: set<Digest>, force: bool): set<Digest>
  {
    set h | h in index && h !in keep && !force && index[h].claims == 0 && index[h].pins > 0
  }

  function TallyOf(index: map<Digest, Rec>, keep: set<Digest>, force: bool): Tally
  {
    Tally(|index|, |Named(index, keep)|, |ClaimedIn(index, keep, force)|, |PinnedIn(index, keep, force)|,
          |Doomed(index, keep, force)|)
  }

  lemma {:induction false} TallyAdds(index: map<Digest, Rec>, keep: set<Digest>, force: bool)
    ensures var t := TallyOf(index, keep, force);
            t.total == |index| == t.kept + t.claimed + t.pinned + t.deleted
  {
    var a, b := Named(index, keep), ClaimedIn(index, keep, force);
    var d, e := PinnedIn(index, keep, force), Doomed(index, keep, force);
    assert index.Keys == a + b + d + e;
    assert a !! b && (a + b) !! d && (a + b + d) !! e;
    hide Named, ClaimedIn, PinnedIn, Doomed;
    assert |index.Keys| == |a + b + d| + |e| == |a + b| + |d| + |e| == |a| + |b| + |d| + |e|;
  }

  /** A sweep deletes exactly the entries that are neither kept nor claimed nor
      pinned, leaves the others as they were, and counts each of them once. */
  lemma {:induction false} SweepExact(c: Settings, s: Store, keep: set<Digest>, force: bool)
    ensures var r, t := Swept(c, s, keep, force), TallyOf(s.index, keep, force);
            && (forall h | h in s.index :: h in r.index <==> (h in keep || Spared(s.index[h], force)))
            && (forall h | h in r.index :: h in s.index && r.index[h] == s.index[h])
            && t.total == |s.index| == t.kept + t.claimed + t.pinned + t.deleted
            && r.count == Wrap(s.count - t.deleted)
  {
    hide L.Without, Named, ClaimedIn, PinnedIn, Detach, Wrap, Bytes;
    TallyAdds(s.index, keep, force);
  }

  // ---- the ring of ended groups ----

  /** The ring holds the last groups ended, oldest at `next` once it is full. */
  predicate Ring(ended: seq<nat>, next: nat, ends: seq<nat>)
  {
    if |ends| <= TOMBSTONES then ended == ends && next == 0
    else
      && |ended| == TOMBSTONES && next < TOMBSTONES
      && forall i | 0 <= i < TOMBSTONES ::
           ended[i] == ends[|ends| - TOMBSTONES + if i >= next then i - next else i + TOMBSTONES - next]
  }

  lemma {:induction false} RingKept(s: Store, g: nat)
    requires Ring(s.ended, s.next, s.ends)
    ensures var s' := Tombstoned(s, g);
            Ring(s'.ended, s'.next, s'.ends) && s'.ends == s.ends + [g]
  {
    var s' := Tombstoned(s, g);
    if |s.ends| >= TOMBSTONES {
      forall i | 0 <= i < TOMBSTONES
        ensures s'.ended[i] ==
                s'.ends[|s'.ends| - TOMBSTONES + if i >= s'.next then i - s'.next else i + TOMBSTONES - s'.next]
      {
        if i != s.next {
          assert s'.ended[i] == s.ended[i];
        }
      }
    }
  }

  /** The last groups ended. */
  function Recent(ends: seq<nat>): seq<nat>
  {
    if |ends| <= TOMBSTONES then ends else ends[|ends| - TOMBSTONES..]
  }

  /** A group is in the ring exactly if it is one of the last groups ended. */
  lemma {:induction false} RingIsRecent(ended: seq<nat>, next: nat, ends: seq<nat>, g: nat)
    requires Ring(ended, next, ends)
    ensures g in ended <==> g in Recent(ends)
  {
    if |ends| > TOMBSTONES {
      var recent := Recent(ends);
      if g in ended {
        var i :| 0 <= i < |ended| && ended[i] == g;
        assert recent[if i >= next then i - next else i + TOMBSTONES - next] == g;
      }
      if g in recent {
        var k :| 0 <= k < |recent| && recent[k] == g;
        assert ended[if next + k < TOMBSTONES then next + k else next + k - TOMBSTONES] == g;
      }
    }
  }

  // ---- receipts ----

  predicate Open(receipts: seq<Receipt>, ended: seq<nat>)
  {
    && (forall i, j | 0 <= i < j < |receipts| :: receipts[i].group != receipts[j].group)
    && (forall i | 0 <= i < |receipts| :: receipts[i].group != 0 && receipts[i].group !in ended)
  }

  /** Every indexed block is on the receipt of the group that stored it, until that
      group ends. */
  predicate Complete(index: map<Digest, Rec>, receipts: seq<Receipt>, creator: map<Digest, nat>, ends: seq<nat>)
  {
    forall h | h in index ::
      h in creator && (creator[h] == 0 || creator[h] in ends || h in Listed(receipts, creator[h]))
  }

  predicate Receipted(s: Store)
  {
    Ring(s.ended, s.next, s.ends) && Open(s.receipts, s.ended) && Complete(s.index, s.receipts, s.creator, s.ends)
  }

  lemma GroupAt(receipts: seq<Receipt>, i: nat)
    requires i < |receipts| && forall j, k | 0 <= j < k < |receipts| :: receipts[j].group != receipts[k].group
    ensures FindGroup(receipts, receipts[i].group) == Some(i)
  {
    hide FindGroup;
    var r := FindGroup(receipts, receipts[i].group);
    assert r.Some?;
  }

  lemma {:induction false} RecordedListed(receipts: seq<Receipt>, ended: seq<nat>, g: nat, h: Digest, x: nat)
    requires Open(receipts, ended) && (g != 0 ==> g !in ended)
    ensures Open(Recorded(receipts, g, h), ended)
    ensures Listed(Recorded(receipts, g, h), x) == Listed(receipts, x) + if x == g && g != 0 then [h] else []
  {
    hide FindGroup;
    var r := Recorded(receipts, g, h);
    if g != 0 {
      match FindGroup(receipts, x)
      case Some(i) => GroupAt(r, i);
      case None =>
        if x == g {
          GroupAt(r, |receipts|);
        }
    }
  }

  lemma {:induction false} DroppedListed(receipts: seq<Receipt>, ended: seq<nat>, i: nat, x: nat)
    requires Open(receipts, ended) && i < |receipts|
    ensures Open(L.Drop(receipts, i), ended)
    ensures x != receipts[i].group ==> Listed(L.Drop(receipts, i), x) == Listed(receipts, x)
    ensures forall k | 0 <= k < |receipts| - 1 :: L.Drop(receipts, i)[k].group != receipts[i].group
  {
    hide FindGroup;
    var r := L.Drop(receipts, i);
    forall k | 0 <= k < |r|
      ensures r[k] == receipts[if k < i then k else k + 1]
    {
    }
    if x != receipts[i].group {
      match FindGroup(receipts, x)
      case Some(p) =>
        assert r[if p < i then p else p - 1] == receipts[p];
        GroupAt(r, if p < i then p else p - 1);
      case None =>
    }
  }

  lemma CompleteWithin(index: map<Digest, Rec>, index': map<Digest, Rec>, receipts: seq<Receipt>, creator: map<Digest,
                       nat>, ends: seq<nat>)
    requires Complete(index, receipts, creator, ends) && index'.Keys <= index.Keys
    ensures Complete(index', receipts, creator, ends)
  {
  }

  lemma {:induction false} PutReceipted(c: Settings, s: Store, h: Digest, data: Block, group: nat, claim: bool)
    requires Ready(c, s) && Receipted(s)
    ensures Receipted(AfterPut(c, s, h, data, group, claim))
  {
    hide S.Inv, S.Store, L.Admitted, Recorded, Ring, Open, Listed;
    var s' := AfterPut(c, s, h, data, group, claim);
    if h in s.index {
      CompleteWithin(s.index, s'.index, s.receipts, s.creator, s.ends);
    } else if s'.receipts != s.receipts || s'.index != s.index {
      forall k | k in s'.index
        ensures k in s'.creator
        ensures s'.creator[k] == 0 || s'.creator[k] in s.ends || k in Listed(s'.receipts, s'.creator[k])
      {
        RecordedListed(s.receipts, s.ended, group, h, s'.creator[k]);
      }
      RecordedListed(s.receipts, s.ended, group, h, 0);
    }
  }

  lemma {:induction false} DroppedAllIndex(c: Settings, s: Store, hashes: seq<Digest>)
    ensures DroppedAll(c, s, hashes).index == map h | h in s.index && h !in hashes :: s.index[h]
  {
    hide L.Without;
  }

  lemma {:induction false} EndUnlisted(c: Settings, s: Store, g: nat, abort: bool)
    requires Receipted(s) && FindGroup(s.receipts, g).None?
    ensures Receipted(Ended(c, s, g, abort))
  {
    hide Ring, FindGroup, Listed, Open;
    RingKept(s, g);
    Listless(s.receipts, g);
    StillOpen(s, s.receipts, g);
  }

  lemma {:induction false} EndListed(c: Settings, s: Store, g: nat, abort: bool)
    requires Receipted(s) && FindGroup(s.receipts, g).Some?
    ensures Receipted(Ended(c, s, g, abort))
  {
    hide Ring, DroppedAll, FindGroup, Listed, Open, L.Drop;
    var i := FindGroup(s.receipts, g).value;
    ListedAt(s.receipts, g);
    DroppedAllIndex(c, s, s.receipts[i].hashes);
    DroppedAllRest(c, s, s.receipts[i].hashes);
    var s1 := Closed(c, s, g, abort);
    RingKept(s1, g);
    DroppedListed(s.receipts, s.ended, i, 0);
    StillOpen(s1, s1.receipts, g);
    forall h | h in s1.index
      ensures h in s.creator
      ensures s.creator[h] == 0 || s.creator[h] in s.ends + [g] || h in Listed(s1.receipts, s.creator[h])
    {
      DroppedListed(s.receipts, s.ended, i, s.creator[h]);
    }
  }

  lemma {:induction false} EndReceipted(c: Settings, s: Store, g: nat, abort: bool)
    requires Receipted(s)
    ensures Receipted(Ended(c, s, g, abort))
  {
    hide Receipted, Ended, FindGroup;
    if FindGroup(s.receipts, g).None? {
      EndUnlisted(c, s, g, abort);
    } else {
      EndListed(c, s, g, abort);
    }
  }

  lemma ListedAt(receipts: seq<Receipt>, g: nat)
    ensures FindGroup(receipts, g).Some? ==> Listed(receipts, g) == receipts[FindGroup(receipts, g).value].hashes
    ensures FindGroup(receipts, g).None? ==> Listed(receipts, g) == []
  {
  }

  lemma Listless(receipts: seq<Receipt>, g: nat)
    requires FindGroup(receipts, g).None?
    ensures forall i | 0 <= i < |receipts| :: receipts[i].group != g
  {
  }

  lemma StillOpen(s: Store, receipts: seq<Receipt>, g: nat)
    requires Open(receipts, s.ended) && forall i | 0 <= i < |receipts| :: receipts[i].group != g
    ensures Open(receipts, Tombstoned(s, g).ended)
  {
    var ended' := Tombstoned(s, g).ended;
    forall x | x in ended'
      ensures x == g || x in s.ended
    {
    }
  }

  lemma DroppedAllRest(c: Settings, s: Store, hashes: seq<Digest>)
    ensures var r := DroppedAll(c, s, hashes);
            r.ended == s.ended && r.next == s.next && r.ends == s.ends && r.creator == s.creator && r.shelf == s.shelf
  {
    hide L.Without;
  }

  /** The receipts, the ring and the creators are not touched, and no entry is added. */
  predicate Unreceipted(s: Store, s': Store)
  {
    && s'.index.Keys <= s.index.Keys && s'.receipts == s.receipts && s'.creator == s.creator
    && s'.ends == s.ends && s'.ended == s.ended && s'.next == s.next
  }

  lemma {:induction false} RecordUnreceipted(c: Settings, s: Store, h: Digest, force: bool)
    ensures Unreceipted(s, Removed(c, s, h, force)) && Unreceipted(s, Released(c, s, h))
  {
    hide L.Find, L.Without;
  }

  lemma GetUnreceipted(c: Settings, s: Store, h: Digest, loaded: bool)
    ensures Unreceipted(s, AfterGet(c, s, h, loaded)) && Unreceipted(s, AfterGetLater(s, h))
  {
    hide L.Find, L.Admitted, L.Got, Fetched;
  }

  lemma FetchUnreceipted(c: Settings, s: Store, loaded: bool)
    ensures Unreceipted(s, AfterFetch(c, s, loaded))
  {
    hide ReadAt;
  }

  lemma ResultUnreceipted(c: Settings, s: Store)
    ensures Unreceipted(s, AfterReadResult(c, s))
  {
    hide L.Admitted, WaitingAt, WaitingElsewhere, Verified;
  }

  lemma SweptUnreceipted(c: Settings, s: Store, keep: set<Digest>, force: bool, limit: U64)
    ensures Unreceipted(s, Swept(c, s, keep, force)) && Unreceipted(s, Resized(c, s, limit))
  {
    hide L.Without, TargetFor;
  }

  lemma RewrittenUnreceipted(c: Settings, s: Store, ids: seq<Id>, threshold: real)
    requires Ready(c, s)
    ensures Unreceipted(s, Step(c, s, Defragment(ids, threshold)))
  {
    hide AllMoves, Defragmented, Follow;
  }

  lemma {:induction false} UpdatedUnreceipted(s: Store, h: Digest, r: Rec)
    ensures Unreceipted(s, Updated(s, h, r))
  {
    hide L.Find;
  }

  /** Every message keeps the ring, the receipts and their agreement with the index. */
  lemma {:induction false} StepReceipted(c: Settings, s: Store, m: Msg)
    requires Ready(c, s) && Receipted(s)
    ensures Receipted(Step(c, s, m))
  {
    hide S.Inv, Receipted, Removed, Released, Ended, Updated, Record, AfterGet, AfterGetLater, AfterFetch;
    hide AfterReadResult, Resized, Swept, AfterPut, AllMoves, Defragmented, Unreceipted;
    var s' := Step(c, s, m);
    match m
    case Put(h, data, group, claim) => PutReceipted(c, s, h, data, group, claim);
    case GroupEnd(group, abort) => EndReceipted(c, s, group, abort);
    case Remove(h, force) =>
      RecordUnreceipted(c, s, h, force);
      StillReceipted(s, s');
    case Release(h) =>
      RecordUnreceipted(c, s, h, false);
      StillReceipted(s, s');
    case Acquire(h) => MarkReceipted(s, h, s');
    case Clear(h) => MarkReceipted(s, h, s');
    case Pin(h) => MarkReceipted(s, h, s');
    case Unpin(h) => MarkReceipted(s, h, s');
    case Get(h, loaded) =>
      GetUnreceipted(c, s, h, loaded);
      StillReceipted(s, s');
    case GetLater(h) =>
      GetUnreceipted(c, s, h, false);
      StillReceipted(s, s');
    case Fetch(loaded) =>
      FetchUnreceipted(c, s, loaded);
      StillReceipted(s, s');
    case ReadResult =>
      ResultUnreceipted(c, s);
      StillReceipted(s, s');
    case Resize(limit) =>
      SweptUnreceipted(c, s, {}, false, limit);
      StillReceipted(s, s');
    case Gc(keep, force) =>
      SweptUnreceipted(c, s, keep, force, 0);
      StillReceipted(s, s');
    case Defragment(ids, threshold) =>
      RewrittenUnreceipted(c, s, ids, threshold);
      StillReceipted(s, s');
  }

  lemma StillReceipted(s: Store, s': Store)
    requires Receipted(s) && Unreceipted(s, s')
    ensures Receipted(s')
  {
    hide Ring, Open;
    CompleteWithin(s.index, s'.index, s.receipts, s.creator, s.ends);
  }

  lemma MarkReceipted(s: Store, h: Digest, s': Store)
    requires Receipted(s) && (s' == s || exists r :: s' == Updated(s, h, r))
    ensures Receipted(s')
  {
    hide Receipted, Updated;
    if s' != s {
      var r :| s' == Updated(s, h, r);
      UpdatedUnreceipted(s, h, r);
      StillReceipted(s, s');
    }
  }

  // ---- whole runs ----

  predicate StoreInv(c: Settings, s: Store)
  {
    Kept(c, s) && Counted(c, s) && Receipted(s)
  }

  /** Every message that does not cache the last of a full cache again keeps placement,
      cache, counters and receipts. */
  lemma {:induction false} StepKeepsInv(c: Settings, s: Store, m: Msg)
    requires StoreInv(c, s) && Allowed(c, s, m)
    ensures StoreInv(c, Step(c, s, m))
  {
    hide Placed, Counted, Receipted, Tidy, Step, S.Inv, Dangles;
    StepPlaced(c, s, m);
    StepTidy(c, s, m);
    StepCounted(c, s, m);
    StepReceipted(c, s, m);
  }

  /** The message does not leave the cache with a released node, and the sections a
      defragmentation goes through are different ones. */
  predicate Allowed(c: Settings, s: Store, m: Msg)
  {
    !Dangles(c, s, m) && (m.Defragment? ==> Distinct(m.ids))
  }

  /** A run from a store in order, of messages each of which is allowed where it comes. */
  predicate Orderly(c: Settings, s: Store, msgs: seq<Msg>)
    decreases |msgs|, 0
  {
    if msgs == [] then StoreInv(c, s)
    else
      var before := msgs[..|msgs| - 1];
      Orderly(c, s, before) && Allowed(c, Run(c, s, before), msgs[|msgs| - 1])
  }

  function Run(c: Settings, s: Store, msgs: seq<Msg>): (r: Store)
    requires Orderly(c, s, msgs)
    ensures StoreInv(c, r)
    decreases |msgs|, 1
  {
    if msgs == [] then s
    else
      var mid := Run(c, s, msgs[..|msgs| - 1]);
      StepKeepsInv(c, mid, msgs[|msgs| - 1]);
      Step(c, mid, msgs[|msgs| - 1])
  }

  lemma RunNone(c: Settings, s: Store)
    requires StoreInv(c, s)
    ensures Orderly(c, s, []) && Run(c, s, []) == s
  {
  }

  lemma RunMore(c: Settings, s: Store, msgs: seq<Msg>, m: Msg)
    requires Orderly(c, s, msgs) && Allowed(c, Run(c, s, msgs), m)
    ensures Orderly(c, s, msgs + [m]) && Run(c, s, msgs + [m]) == Step(c, Run(c, s, msgs), m)
  {
    hide StoreInv, Step, Allowed;
    assert (msgs + [m])[..|msgs|] == msgs;
  }

  lemma {:induction false} RunConcat(c: Settings, s: Store, a: seq<Msg>, b: seq<Msg>)
    requires Orderly(c, s, a) && Orderly(c, Run(c, s, a), b)
    ensures Orderly(c, s, a + b) && Run(c, s, a + b) == Run(c, Run(c, s, a), b)
  {
    hide StoreInv, Step, Allowed;
    if b == [] {
      assert a + b == a;
    } else {
      assert (a + b)[..|a + b| - 1] == a + b[..|b| - 1];
      RunConcat(c, s, a, b[..|b| - 1]);
    }
  }

  predicate Workable(c: Settings)
  {
    c.pool.size > 0 && c.pool.floor > 0 && c.lruSize > 0
  }

  /** A store over what a directory holds.  Without a limit nothing is counted. */
  function Opened(c: Settings, limit: U64, saved: Shelf, index: map<Digest, Rec>, blocks: map<Digest, Block>): Store
  {
    Store(Started(c.pool, saved).(target := TargetFor(c.pool, limit)), index, [], [], [], [], [],
          if limit > 0 then Wrap(|index|) else 0, if limit > 0 then Wrap(Bytes(|index|, c.pool.blockSize)) else 0,
          limit, [], [], 0, blocks, map h | h in index :: 0, [], if limit > 0 then 0 else |index|)
  }

  lemma {:induction false} OpenedInv(c: Settings, limit: U64, saved: Shelf, index: map<Digest, Rec>,
                                     blocks: map<Digest, Block>)
    requires Workable(c) && S.Inv(c.pool, Started(c.pool, saved))
    requires Placed(c.pool, Started(c.pool, saved), index, blocks)
    ensures StoreInv(c, Opened(c, limit, saved, index, blocks))
  {
    hide S.Inv, Started, TargetFor, Placed;
    var shelf := Started(c.pool, saved);
    TargetReady(c.pool, shelf, TargetFor(c.pool, limit));
    PlacedSameSections(c.pool, shelf, shelf.(target := TargetFor(c.pool, limit)), index, blocks);
  }

  /** A new store over an empty directory. */
  function Empty(c: Settings, limit: U64): Store
  {
    Opened(c, limit, Shelf(map[], [], 0, 0), map[], map[])
  }

  lemma {:induction false} EmptyInv(c: Settings, limit: U64)
    requires Workable(c)
    ensures StoreInv(c, Empty(c, limit))
  {
    hide S.Inv, Started, TargetFor;
    assert WithRoom(c.pool, Shelf(map[], [], 0, 0), []) == [];
    KnownHasRoom(c.pool, Shelf(map[], [], 0, 0));
    OpenedInv(c, limit, Shelf(map[], [], 0, 0), map[], map[]);
  }
}
