/**
 The actor mailbox: a multi-producer, single-consumer queue whose head pointer
 carries an "empty" tag, together with the sends, runs and the destruction of
 its actor.

 The model interleaves the atomic steps of any number of senders with those of
 the worker and of one destroyer.  A sender that finds the tag owes the actor a
 place in the scheduler; `queued` counts the places it has.  The fields from
 `chain` on only record what happened: nothing branches on them.
 */
module Mailbox {
  import opened Entries

  type NodeId = nat
  type Payload = nat
  type Thread = nat

  datatype Node = Node(payload: Option<Payload>, next: Option<NodeId>)

  datatype Head = Head(node: NodeId, tagged: bool)

  datatype Sender =
    | Start(payload: Payload)                                   // will read the DESTROY flag
    | Allocated(payload: Payload, node: NodeId)                 // will take the send lock
    | Locked(payload: Payload, node: NodeId)                    // will read `destroyed`
    | Refusing(payload: Payload, node: NodeId)                  // will free payload and node
    | Stored(payload: Payload, node: NodeId)                    // will exchange the head
    | Linking(node: NodeId, prev: NodeId, wasEmpty: bool)       // will store prev.next
    | Unlocking(wasEmpty: bool)                                 // will release the lock
    | Injecting                                                 // will inject the actor

  datatype Worker =
    | Off
    | Top(left: nat)                                            // top of the batch loop
    | Popping(left: nat)                                        // will read tail.next
    | Loaded(left: nat, prior: NodeId, next: NodeId)              // read tail.next
    | Freeing(left: nat, prior: NodeId, node: NodeId, payload: Payload)
    | Dispatching(left: nat, node: NodeId, payload: Payload)
    | Returned(left: nat, node: NodeId, payload: Payload, consumed: bool)  // will read DESTROY
    | Cleaning(left: nat, node: NodeId, payload: Payload, consumed: bool)  // will free the payload
    | MarkLoad                                                  // will load the head
    | MarkCas(expected: NodeId)                                 // will tag it

  datatype Destroyer =
    | Idle
    | Waiting(self: bool)
    | Holding(self: bool)
    | Draining(self: bool)
    | Releasing(self: bool)
    | Finished

  datatype Lock = Free | BySender(t: Thread) | ByDestroyer

  datatype Owner = WithSender(t: Thread) | InQueue | WithWorker | Gone

  datatype State = State(
    heap: map<NodeId, Node>,
    head: Option<Head>,
    tail: Option<NodeId>,
    lock: Lock,
    destroyed: bool,
    destroyFlag: bool,
    queued: nat,
    senders: map<Thread, Sender>,
    worker: Worker,
    destroyer: Destroyer,
    chain: seq<NodeId>,              // from tail to head, in order of the exchanges
    pushed: seq<Payload>,            // payloads in order of the exchanges
    popped: seq<Payload>,
    waker: Option<Thread>,           // the sender that owes an injection
    owner: map<Payload, Owner>,
    disposals: map<Payload, nat>,    // how often a payload was destroyed or consumed
    doubled: set<Payload>)           // consumed in a turn that ended by seeing DESTROY

  datatype Step =
    | Send(t: Thread, p: Payload)
    | CheckFlag(t: Thread, node: NodeId)
    | Acquire(t: Thread)
    | CheckDestroyed(t: Thread)
    | Refuse(t: Thread)
    | Exchange(t: Thread)
    | Link(t: Thread)
    | Unlock(t: Thread)
    | Inject(t: Thread)
    | RunStart(batch: nat)
    | RunTop
    | LoadNext
    | Advance
    | FreeOld
    | DispatchEnd(consume: bool)
    | CheckAfter
    | Clean
    | LoadHead
    | Cas
    | DestroyBegin(self: bool)
    | DestroyLock
    | DestroyMark
    | DrainOne
    | DrainEnd
    | DestroyUnlock

  function Bump(m: map<Payload, nat>, p: Payload): map<Payload, nat>
  {
    m[p := if p in m then m[p] + 1 else 1]
  }

  /** Destroy or hand over a payload. */
  function Dispose(s: State, p: Payload): (r: State)
    ensures r.doubled == s.doubled && r.pushed == s.pushed
  {
    s.(owner := s.owner[p := Gone], disposals := Bump(s.disposals, p))
  }

  function Without(s: State, t: Thread): (r: State)
    ensures r.doubled == s.doubled
  {
    s.(senders := s.senders - {t})
  }

  predicate At(s: State, t: Thread)
  {
    t in s.senders
  }

  /** The control conditions of each step: who is where, and which lock is free. */
  predicate Enabled(s: State, step: Step)
  {
    match step
    case Send(t, p) => !At(s, t) && p !in s.owner
    case CheckFlag(t, n) => At(s, t) && s.senders[t].Start? && n !in s.heap
    case Acquire(t) => At(s, t) && s.senders[t].Allocated? && s.lock.Free?
    case CheckDestroyed(t) => At(s, t) && s.senders[t].Locked?
    case Refuse(t) => At(s, t) && s.senders[t].Refusing?
    case Exchange(t) => At(s, t) && s.senders[t].Stored?
    case Link(t) => At(s, t) && s.senders[t].Linking?
    case Unlock(t) => At(s, t) && s.senders[t].Unlocking?
    case Inject(t) => At(s, t) && s.senders[t].Injecting?
    case RunStart(batch) => s.worker.Off? && s.queued > 0 && batch > 0
    case RunTop => s.worker.Top?
    case LoadNext => s.worker.Popping?
    case Advance => s.worker.Loaded?
    case FreeOld => s.worker.Freeing?
    case DispatchEnd(_) => s.worker.Dispatching? && !SelfActive(s.destroyer)
    case CheckAfter => s.worker.Returned?
    case Clean => s.worker.Cleaning?
    case LoadHead => s.worker.MarkLoad?
    case Cas => s.worker.MarkCas?
    case DestroyBegin(self) => s.destroyer.Idle? && (self ==> s.worker.Dispatching?)
    case DestroyLock => s.destroyer.Waiting? && (s.destroyer.self || s.worker.Off?) && s.lock.Free?
    case DestroyMark => s.destroyer.Holding?
    case DrainOne => s.destroyer.Draining? && Next(s).Some?
    case DrainEnd => s.destroyer.Draining? && Next(s).None?
    case DestroyUnlock => s.destroyer.Releasing?
  }

  /** The actor is destroying itself from inside its own dispatch. */
  predicate SelfActive(d: Destroyer)
  {
    (d.Waiting? || d.Holding? || d.Draining? || d.Releasing?) && d.self
  }

  /** What the node behind the sentinel is, if the sentinel is still allocated. */
  function Next(s: State): Option<NodeId>
  {
    if s.tail.Some? && s.tail.value in s.heap then s.heap[s.tail.value].next else None
  }

  /** Every node the step reads, writes or frees is allocated. */
  predicate Safe(s: State, step: Step)
    requires Enabled(s, step)
  {
    match step
    case CheckDestroyed(t) => s.destroyed || s.senders[t].node in s.heap
    case Refuse(t) => s.senders[t].node in s.heap
    case Exchange(t) => s.head.Some?
    case Link(t) => s.senders[t].prev in s.heap
    case LoadNext => s.tail.Some? && s.tail.value in s.heap
    case Advance => s.worker.next in s.heap && s.heap[s.worker.next].payload.Some? && s.chain != []
    case FreeOld => s.worker.prior in s.heap
    case Clean => s.worker.node in s.heap
    case LoadHead => s.head.Some? && s.tail.Some?
    case Cas => s.head.Some? && s.tail.Some?
    case DrainOne =>
      && s.tail.Some? && s.tail.value in s.heap && s.chain != []
      && Next(s).value in s.heap && s.heap[Next(s).value].payload.Some?
    case DrainEnd => s.tail.Some? && s.tail.value in s.heap
    case _ => true
  }

  function Advanced(s: State, m: NodeId): (r: State)
    requires m in s.heap && s.heap[m].payload.Some? && s.chain != []
    ensures r.doubled == s.doubled && r.pushed == s.pushed
  {
    s.(tail := Some(m), chain := s.chain[1..], popped := s.popped + [s.heap[m].payload.value])
  }

  function Do(s: State, step: Step): State
    requires Enabled(s, step) && Safe(s, step)
  {
    match step
    case Send(t, p) =>
      s.(senders := s.senders[t := Start(p)], owner := s.owner[p := WithSender(t)])
    case CheckFlag(t, n) =>
      var p := s.senders[t].payload;
      if s.destroyFlag then Without(Dispose(s, p), t)
      else s.(heap := s.heap[n := Node(Some(p), None)], senders := s.senders[t := Allocated(p, n)])
    case Acquire(t) =>
      var x := s.senders[t];
      s.(lock := BySender(t), senders := s.senders[t := Locked(x.payload, x.node)])
    case CheckDestroyed(t) =>
      var x := s.senders[t];
      if s.destroyed then s.(lock := Free, senders := s.senders[t := Refusing(x.payload, x.node)])
      else s.(heap := s.heap[x.node := s.heap[x.node].(next := None)],
              senders := s.senders[t := Stored(x.payload, x.node)])
    case Refuse(t) =>
      var x := s.senders[t];
      Without(Dispose(s.(heap := s.heap - {x.node}), x.payload), t)
    case Exchange(t) =>
      var x := s.senders[t];
      var prev := s.head.value;
      s.(head := Some(Head(x.node, false)),
         senders := s.senders[t := Linking(x.node, prev.node, prev.tagged)],
         chain := s.chain + [x.node],
         pushed := s.pushed + [x.payload],
         waker := if prev.tagged then Some(t) else s.waker,
         owner := s.owner[x.payload := InQueue])
    case Link(t) =>
      var x := s.senders[t];
      s.(heap := s.heap[x.prev := s.heap[x.prev].(next := Some(x.node))],
         senders := s.senders[t := Unlocking(x.wasEmpty)])
    case Unlock(t) =>
      if s.senders[t].wasEmpty then s.(lock := Free, senders := s.senders[t := Injecting])
      else Without(s.(lock := Free), t)
    case Inject(t) =>
      Without(s.(queued := s.queued + 1, waker := None), t)
    case RunStart(batch) =>
      s.(queued := s.queued - 1, worker := Top(batch))
    case RunTop =>
      if s.worker.left == 0 then s.(worker := MarkLoad)
      else if s.destroyFlag then s.(worker := Off)
      else s.(worker := Popping(s.worker.left))
    case LoadNext =>
      if Next(s).None? then s.(worker := MarkLoad)
      else s.(worker := Loaded(s.worker.left, s.tail.value, Next(s).value))
    case Advance =>
      var w := s.worker;
      var p := s.heap[w.next].payload.value;
      Advanced(s, w.next).(worker := Freeing(w.left, w.prior, w.next, p), owner := s.owner[p := WithWorker])
    case FreeOld =>
      var w := s.worker;
      s.(heap := s.heap - {w.prior},
         worker := Dispatching(if w.left > 0 then w.left - 1 else 0, w.node, w.payload))
    case DispatchEnd(consume) =>
      var w := s.worker;
      var s' := if consume then Dispose(s, w.payload) else s;
      s'.(worker := Returned(w.left, w.node, w.payload, consume))
    case CheckAfter =>
      var w := s.worker;
      if s.destroyFlag then
        Dispose(s, w.payload).(worker := Off, doubled := if w.consumed then s.doubled + {w.payload} else s.doubled)
      else s.(worker := Cleaning(w.left, w.node, w.payload, w.consumed))
    case Clean =>
      var w := s.worker;
      (if w.consumed then s else Dispose(s, w.payload)).(worker := Top(w.left))
    case LoadHead =>
      if s.head.value.tagged then s.(worker := Off)
      else if s.head.value.node != s.tail.value then s.(worker := Off, queued := s.queued + 1)
      else s.(worker := MarkCas(s.head.value.node))
    case Cas =>
      if s.head.value == Head(s.worker.expected, false)
      then s.(worker := Off, head := Some(Head(s.tail.value, true)))
      else s.(worker := Off, queued := s.queued + 1)
    case DestroyBegin(self) =>
      s.(destroyFlag := true, destroyer := Waiting(self))
    case DestroyLock =>
      s.(lock := ByDestroyer, destroyer := Holding(s.destroyer.self))
    case DestroyMark =>
      s.(destroyed := true, destroyer := Draining(s.destroyer.self))
    case DrainOne =>
      var m := Next(s).value;
      var p := s.heap[m].payload.value;
      Dispose(Advanced(s, m).(heap := s.heap - {s.tail.value}), p)
    case DrainEnd =>
      s.(heap := s.heap - {s.tail.value}, head := None, tail := None, chain := [],
         destroyer := Releasing(s.destroyer.self))
    case DestroyUnlock =>
      s.(lock := Free, destroyer := Finished)
  }

  /** A new mailbox: one sentinel, tagged empty. */
  function Initial(sentinel: NodeId): State
  {
    State(map[sentinel := Node(None, None)], Some(Head(sentinel, true)), Some(sentinel),
          Free, false, false, 0, map[], Off, Idle,
          [sentinel], [], [], None, map[], map[], {})
  }

  // ---- what every step keeps ----

  /** Between taking and releasing the send lock. */
  predicate Critical(x: Sender)
  {
    x.Locked? || x.Stored? || x.Linking? || x.Unlocking?
  }

  /** The node is allocated but not yet in the queue. */
  predicate Private(x: Sender)
  {
    x.Allocated? || x.Locked? || x.Refusing? || x.Stored?
  }

  /** The sender saw the tag and has not injected the actor yet. */
  predicate Owes(x: Sender)
  {
    x.Injecting? || ((x.Linking? || x.Unlocking?) && x.wasEmpty)
  }

  /** The lock is held by the one sender that is past it, or by the destroyer. */
  predicate LockInv(lock: Lock, senders: map<Thread, Sender>, destroyer: Destroyer, destroyed: bool)
  {
    && (forall t | t in senders && Critical(senders[t]) :: lock == BySender(t))
    && (lock.BySender? ==> lock.t in senders && Critical(senders[lock.t]))
    && (lock.BySender? && (senders[lock.t].Stored? || senders[lock.t].Linking?) ==> !destroyed)
    && (lock.ByDestroyer? <==> destroyer.Holding? || destroyer.Draining? || destroyer.Releasing?)
  }

  /** Outside a run, or at the top of one that has not popped anything. */
  predicate Quiet(w: Worker)
  {
    w.Off? || (w.Top? && w.left > 0)
  }

  /** The destroyer touches the queue only while no run can. */
  predicate DestroyInv(flag: bool, destroyed: bool, head: Option<Head>, tail: Option<NodeId>, d: Destroyer, w: Worker)
  {
    && (flag <==> !d.Idle?)
    && (destroyed <==> d.Draining? || d.Releasing? || d.Finished?)
    && (tail.None? <==> d.Releasing? || d.Finished?)
    && (head.None? <==> tail.None?)
    && (SelfActive(d) ==> w.Dispatching?)
    && ((d.Holding? || d.Draining? || d.Releasing?) && !d.self ==> Quiet(w))
    && (d.Finished? ==> Quiet(w) || w.Dispatching? || w.Returned?)
  }

  /** The sender that has exchanged the head but not yet linked its node. */
  function Half(lock: Lock, senders: map<Thread, Sender>): Option<Sender>
  {
    if lock.BySender? && lock.t in senders && senders[lock.t].Linking? then Some(senders[lock.t]) else None
  }

  /** The nodes from tail to head are allocated, distinct and linked in order, up
      to the one link a sender may still owe. */
  predicate ChainInv(heap: map<NodeId, Node>, head: Option<NodeId>, tail: Option<NodeId>, chain: seq<NodeId>,
                     half: Option<Sender>)
  {
    if tail.None? then chain == []
    else
      && chain != [] && tail.value == chain[0] && head == Some(chain[|chain| - 1])
      && (forall i | 0 <= i < |chain| :: chain[i] in heap)
      && (forall i, j | 0 <= i < j < |chain| :: chain[i] != chain[j])
      && (forall i | 0 <= i < |chain| :: heap[chain[i]].next == LinkAt(chain, half.Some?, i))
      && (half.Some? ==>
            && |chain| > 1 && half.value.Linking?
            && half.value.node == chain[|chain| - 1] && half.value.prev == chain[|chain| - 2])
  }

  function LinkAt(chain: seq<NodeId>, half: bool, i: nat): Option<NodeId>
  {
    if i + 1 >= |chain| || (half && i + 2 == |chain|) then None else Some(chain[i + 1])
  }

  function HeadNode(head: Option<Head>): Option<NodeId>
  {
    if head.Some? then Some(head.value.node) else None
  }

  /** The messages in the queue are those pushed and not yet popped, in order. */
  predicate FifoInv(heap: map<NodeId, Node>, chain: seq<NodeId>, pushed: seq<Payload>, popped: seq<Payload>)
  {
    && |popped| <= |pushed| && popped == pushed[..|popped|]
    && |pushed| - |popped| == (if chain == [] then 0 else |chain| - 1)
    && forall i | 0 < i < |chain| ::
         chain[i] in heap && heap[chain[i]].payload == Some(pushed[|popped| + i - 1])
  }

  /** What the worker remembers about the queue is still so. */
  predicate WorkerInv(heap: map<NodeId, Node>, chain: seq<NodeId>, w: Worker, destroyed: bool)
  {
    match w
    case Loaded(_, prior, next) =>
      |chain| > 1 && chain[0] == prior && chain[1] == next && prior in heap && heap[prior].next == Some(next)
    case Freeing(_, prior, node, _) => chain != [] && chain[0] == node && prior in heap && prior !in chain
    case Cleaning(_, node, _, _) => chain != [] && chain[0] == node
    case MarkCas(expected) => chain != [] && chain[0] == expected
    case Returned(_, node, _, _) => !destroyed ==> chain != [] && chain[0] == node
    case Dispatching(_, node, _) => !destroyed ==> chain != [] && chain[0] == node
    case _ => true
  }

  function Prior(w: Worker): Option<NodeId>
  {
    if w.Freeing? then Some(w.prior) else None
  }

  /** Nodes not yet in the queue belong to one sender each. */
  predicate PrivateInv(heap: map<NodeId, Node>, chain: seq<NodeId>, senders: map<Thread, Sender>, prior: Option<NodeId>)
  {
    && (forall t | t in senders && Private(senders[t]) ::
          var x := senders[t];
          && x.node in heap && x.node !in chain && heap[x.node].payload == Some(x.payload)
          && (x.Stored? ==> heap[x.node].next == None)
          && prior != Some(x.node))
    && (forall t, u | t in senders && u in senders && t != u && Private(senders[t]) && Private(senders[u]) ::
          senders[t].node != senders[u].node)
  }

  /** The places the actor has or is owed in the scheduler, counting its run. */
  function Tokens(queued: nat, running: bool, waker: Option<Thread>): nat
  {
    queued + (if running then 1 else 0) + if waker.Some? then 1 else 0
  }

  /** Tagged means no place and an empty queue; untagged means exactly one. */
  predicate TokenInv(tokens: nat, head: Option<Head>, length: nat, flag: bool)
  {
    && tokens <= 1
    && (head.Some? && head.value.tagged ==> tokens == 0 && length == 1)
    && (head.Some? && !head.value.tagged && !flag ==> tokens == 1)
  }

  predicate WakerInv(senders: map<Thread, Sender>, waker: Option<Thread>)
  {
    && (forall t | t in senders && Owes(senders[t]) :: waker == Some(t))
    && (waker.Some? ==> waker.value in senders && Owes(senders[waker.value]))
  }

  /** The payload a sender still owns. */
  predicate SenderHas(x: Sender, p: Payload)
  {
    (x.Start? || Private(x)) && x.payload == p
  }

  predicate WorkerHas(w: Worker, p: Payload)
  {
    match w
    case Freeing(_, _, _, q) => p == q
    case Dispatching(_, _, q) => p == q
    case Returned(_, _, q, consumed) => p == q && !consumed
    case Cleaning(_, _, q, consumed) => p == q && !consumed
    case _ => false
  }

  /** A sender owns the payload it has not handed over yet, and nothing else is
      marked as its own. */
  ghost predicate SenderOwnInv(senders: map<Thread, Sender>, owner: map<Payload, Owner>)
  {
    && (forall t, p | t in senders && SenderHas(senders[t], p) :: p in owner && owner[p] == WithSender(t))
    && (forall p | p in owner && owner[p].WithSender? ::
          owner[p].t in senders && SenderHas(senders[owner[p].t], p))
  }

  /** The queue owns exactly the payloads pushed and not yet popped. */
  predicate QueueOwnInv(owner: map<Payload, Owner>, pushed: seq<Payload>, done: nat)
  {
    && (forall i | 0 <= i < |pushed| :: pushed[i] in owner && !owner[pushed[i]].WithSender?)
    && (forall i, j | 0 <= i < j < |pushed| :: pushed[i] != pushed[j])
    && (forall i | 0 <= i < |pushed| :: owner[pushed[i]].InQueue? <==> i >= done)
    && (forall p | p in owner && owner[p].InQueue? :: p in pushed)
  }

  ghost predicate WorkerOwnInv(owner: map<Payload, Owner>, w: Worker, doubled: set<Payload>)
  {
    && (forall p | WorkerHas(w, p) :: p in owner && owner[p] == WithWorker)
    && (forall p | p in owner && owner[p].WithWorker? :: WorkerHas(w, p))
    && ((w.Returned? || w.Cleaning?) && w.consumed ==>
          w.payload in owner && owner[w.payload].Gone? && w.payload !in doubled)
  }

  function Count(disposals: map<Payload, nat>, p: Payload): nat
  {
    if p in disposals then disposals[p] else 0
  }

  /** A payload is disposed of once when it is gone, and twice if it was consumed
      in a turn that ended by seeing DESTROY. */
  ghost predicate CountInv(owner: map<Payload, Owner>, disposals: map<Payload, nat>, doubled: set<Payload>)
  {
    && (forall p :: Count(disposals, p) ==
                    if p in owner && owner[p].Gone? then (if p in doubled then 2 else 1) else 0)
    && (forall p | p in doubled :: p in owner && owner[p].Gone?)
  }

  ghost predicate Inv(s: State)
  {
    && LockInv(s.lock, s.senders, s.destroyer, s.destroyed)
    && DestroyInv(s.destroyFlag, s.destroyed, s.head, s.tail, s.destroyer, s.worker)
    && ChainInv(s.heap, HeadNode(s.head), s.tail, s.chain, Half(s.lock, s.senders))
    && FifoInv(s.heap, s.chain, s.pushed, s.popped)
    && WorkerInv(s.heap, s.chain, s.worker, s.destroyed)
    && PrivateInv(s.heap, s.chain, s.senders, Prior(s.worker))
    && TokenInv(Tokens(s.queued, !s.worker.Off?, s.waker), s.head, |s.chain|, s.destroyFlag)
    && WakerInv(s.senders, s.waker)
    && SenderOwnInv(s.senders, s.owner)
    && QueueOwnInv(s.owner, s.pushed, |s.popped|)
    && WorkerOwnInv(s.owner, s.worker, s.doubled)
    && CountInv(s.owner, s.disposals, s.doubled)
  }

  lemma InitInv(n: NodeId)
    ensures Inv(Initial(n))
  {
  }

  lemma {:induction false} SenderIsSafe(s: State, step: Step)
    requires Inv(s) && Enabled(s, step) && (step.CheckDestroyed? || step.Refuse? || step.Exchange? || step.Link?)
    ensures Safe(s, step)
  {
    hide FifoInv, WorkerInv, SenderOwnInv, QueueOwnInv, WorkerOwnInv, CountInv, TokenInv, WakerInv;
    if step.Link? {
      assert Half(s.lock, s.senders) == Some(s.senders[step.t]);
    }
  }

  lemma {:induction false} WorkerIsSafe(s: State, step: Step)
    requires Inv(s) && Enabled(s, step)
    requires step.LoadNext? || step.FreeOld? || step.Clean? || step.LoadHead? || step.Cas?
    ensures Safe(s, step)
  {
    hide LockInv, FifoInv, PrivateInv, SenderOwnInv, QueueOwnInv, WorkerOwnInv, CountInv, TokenInv, WakerInv;
  }

  /** The node behind the sentinel is in the queue and carries a message. */
  lemma {:induction false} PopIsSafe(s: State, step: Step)
    requires Inv(s) && Enabled(s, step) && (step.Advance? || step.DrainOne? || step.DrainEnd?)
    ensures Safe(s, step)
  {
    hide LockInv, PrivateInv, SenderOwnInv, QueueOwnInv, WorkerOwnInv, CountInv, TokenInv, WakerInv;
    if step.DrainOne? {
      assert s.heap[s.chain[0]].next == LinkAt(s.chain, Half(s.lock, s.senders).Some?, 0);
    }
  }

  /** No step touches a node that has been freed. */
  lemma {:induction false} StepIsSafe(s: State, step: Step)
    requires Inv(s) && Enabled(s, step)
    ensures Safe(s, step)
  {
    hide Inv, Enabled;
    match step
    case CheckDestroyed(_) => SenderIsSafe(s, step);
    case Refuse(_) => SenderIsSafe(s, step);
    case Exchange(_) => SenderIsSafe(s, step);
    case Link(_) => SenderIsSafe(s, step);
    case LoadNext => WorkerIsSafe(s, step);
    case FreeOld => WorkerIsSafe(s, step);
    case Clean => WorkerIsSafe(s, step);
    case LoadHead => WorkerIsSafe(s, step);
    case Cas => WorkerIsSafe(s, step);
    case Advance => PopIsSafe(s, step);
    case DrainOne => PopIsSafe(s, step);
    case DrainEnd => PopIsSafe(s, step);
    case _ =>
  }

  ghost predicate Ready(s: State, step: Step)
  {
    Inv(s) && Enabled(s, step) && Safe(s, step)
  }
}
