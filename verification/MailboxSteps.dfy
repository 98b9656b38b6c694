/**
 Every atomic step of the mailbox keeps its invariant, one lemma per step.
 */
module MailboxSteps {
  import opened Entries
  import opened Mailbox

  // ---- how single changes affect the parts of the invariant ----

  type Owners = map<Payload, Owner>
  type Senders = map<Thread, Sender>
  type Heap = map<NodeId, Node>

  predicate HasNone(x: Sender)
  {
    !x.Start? && !Private(x)
  }

  lemma {:induction false} SenderMoves(senders: Senders, owner: Owners, t: Thread, x: Sender)
    requires SenderOwnInv(senders, owner) && t in senders
    requires if HasNone(senders[t]) then HasNone(x) else !HasNone(x) && x.payload == senders[t].payload
    ensures SenderOwnInv(senders[t := x], owner)
  {
  }

  lemma {:induction false} SenderLeaves(senders: Senders, owner: Owners, t: Thread)
    requires SenderOwnInv(senders, owner) && t in senders && HasNone(senders[t])
    ensures SenderOwnInv(senders - {t}, owner)
  {
  }

  /** Marking a payload outside the queue as gone, or the next one as popped. */
  lemma {:induction false} QueueOwnUpdate(owner: Owners, pushed: seq<Payload>, done: nat, done': nat, p: Payload,
                                          o: Owner)
    requires QueueOwnInv(owner, pushed, done) && p in owner && (o.Gone? || o.WithWorker?)
    requires if owner[p].InQueue? then done < |pushed| && p == pushed[done] && done' == done + 1 else done' == done
    ensures QueueOwnInv(owner[p := o], pushed, done')
  {
    var owner' := owner[p := o];
    forall i | 0 <= i < |pushed|
      ensures pushed[i] in owner' && !owner'[pushed[i]].WithSender? && (owner'[pushed[i]].InQueue? <==> i >= done')
    {
      assert pushed[i] in owner;
      if i < done {
        assert !owner[pushed[i]].InQueue?;
      } else if i > done {
        assert done < |pushed| && pushed[done] != pushed[i];
      }
    }
  }

  lemma {:induction false} SenderGivesUp(senders: Senders, owner: Owners, pushed: seq<Payload>, done: nat, t: Thread)
    requires SenderOwnInv(senders, owner) && QueueOwnInv(owner, pushed, done) && t in senders && !HasNone(senders[t])
    ensures SenderOwnInv(senders - {t}, owner[senders[t].payload := Gone])
    ensures QueueOwnInv(owner[senders[t].payload := Gone], pushed, done)
  {
    assert SenderHas(senders[t], senders[t].payload);
    QueueOwnUpdate(owner, pushed, done, done, senders[t].payload, Gone);
    hide QueueOwnInv;
  }

  lemma {:induction false} SenderPushes(senders: Senders, owner: Owners, t: Thread, x: Sender)
    requires SenderOwnInv(senders, owner) && t in senders && !HasNone(senders[t]) && HasNone(x)
    ensures SenderOwnInv(senders[t := x], owner[senders[t].payload := InQueue])
  {
    var p := senders[t].payload;
    var senders', owner' := senders[t := x], owner[p := InQueue];
    assert SenderHas(senders[t], p);
    forall u, q | u in senders' && SenderHas(senders'[u], q)
      ensures q in owner' && owner'[q] == WithSender(u)
    {
      assert u != t && SenderHas(senders[u], q);
      assert owner[q] == WithSender(u) && owner[p] == WithSender(t);
    }
    forall q | q in owner' && owner'[q].WithSender?
      ensures owner'[q].t in senders' && SenderHas(senders'[owner'[q].t], q)
    {
      assert SenderHas(senders[owner[q].t], q);
    }
  }

  lemma {:induction false} QueueGrows(owner: Owners, pushed: seq<Payload>, done: nat, p: Payload)
    requires QueueOwnInv(owner, pushed, done) && done <= |pushed| && p in owner && owner[p].WithSender?
    ensures QueueOwnInv(owner[p := InQueue], pushed + [p], done)
  {
    var pushed' := pushed + [p];
    var owner' := owner[p := InQueue];
    assert pushed'[|pushed|] == p;
    forall i | 0 <= i < |pushed'|
      ensures pushed'[i] in owner' && !owner'[pushed'[i]].WithSender? && (owner'[pushed'[i]].InQueue? <==> i >= done)
      ensures i < |pushed| ==> pushed'[i] != p
    {
      if i < |pushed| {
        assert pushed'[i] == pushed[i] && pushed[i] in owner;
      }
    }
    forall q | q in pushed
      ensures q in pushed'
    {
      var i :| 0 <= i < |pushed| && pushed[i] == q;
      assert pushed'[i] == q;
    }
  }

  lemma {:induction false} PayloadPopped(senders: Senders, owner: Owners, pushed: seq<Payload>, done: nat, o: Owner)
    requires SenderOwnInv(senders, owner) && QueueOwnInv(owner, pushed, done) && done < |pushed|
    requires o.Gone? || o.WithWorker?
    ensures SenderOwnInv(senders, owner[pushed[done] := o])
    ensures QueueOwnInv(owner[pushed[done] := o], pushed, done + 1)
    ensures pushed[done] in owner && owner[pushed[done]].InQueue?
  {
    QueueOwnUpdate(owner, pushed, done, done + 1, pushed[done], o);
  }

  lemma {:induction false} WorkerGivesUp(senders: Senders, owner: Owners, pushed: seq<Payload>, done: nat, p: Payload)
    requires SenderOwnInv(senders, owner) && QueueOwnInv(owner, pushed, done)
    requires p in owner && !owner[p].WithSender? && !owner[p].InQueue?
    ensures SenderOwnInv(senders, owner[p := Gone]) && QueueOwnInv(owner[p := Gone], pushed, done)
  {
    QueueOwnUpdate(owner, pushed, done, done, p, Gone);
    hide QueueOwnInv;
  }

  lemma {:induction false} WorkerOwnFrame(owner: Owners, w: Worker, doubled: set<Payload>, p: Payload, o: Owner)
    requires WorkerOwnInv(owner, w, doubled) && !o.WithWorker?
    requires p in owner ==> !owner[p].WithWorker? && !owner[p].Gone?
    ensures WorkerOwnInv(owner[p := o], w, doubled)
  {
  }

  lemma {:induction false} CountFrame(owner: Owners, disposals: map<Payload, nat>, doubled: set<Payload>, p: Payload,
                                      o: Owner)
    requires CountInv(owner, disposals, doubled) && !o.Gone? && (p in owner ==> !owner[p].Gone?)
    ensures CountInv(owner[p := o], disposals, doubled)
  {
  }

  lemma {:induction false} CountBump(owner: Owners, disposals: map<Payload, nat>, doubled: set<Payload>, p: Payload)
    requires CountInv(owner, disposals, doubled) && p in owner && !owner[p].Gone?
    ensures CountInv(owner[p := Gone], Bump(disposals, p), doubled)
  {
    assert Count(disposals, p) == 0;
  }

  lemma {:induction false} CountTwice(owner: Owners, disposals: map<Payload, nat>, doubled: set<Payload>, p: Payload)
    requires CountInv(owner, disposals, doubled) && p in owner && owner[p].Gone? && p !in doubled
    ensures CountInv(owner[p := Gone], Bump(disposals, p), doubled + {p})
  {
    assert Count(disposals, p) == 1;
  }

  /** Changes off the chain leave it alone. */
  lemma {:induction false} OffChain(heap: Heap, heap': Heap, head: Option<NodeId>, tail: Option<NodeId>,
                                    chain: seq<NodeId>, half: Option<Sender>, pushed: seq<Payload>,
                                    popped: seq<Payload>)
    requires ChainInv(heap, head, tail, chain, half) && FifoInv(heap, chain, pushed, popped)
    requires forall c | c in chain && c in heap :: c in heap' && heap'[c] == heap[c]
    ensures ChainInv(heap', head, tail, chain, half) && FifoInv(heap', chain, pushed, popped)
  {
  }

  /** Popping the sentinel off the chain. */
  lemma {:induction false} ChainPops(heap: Heap, heap': Heap, head: Option<NodeId>, tail: Option<NodeId>,
                                     chain: seq<NodeId>, half: Option<Sender>)
    requires ChainInv(heap, head, tail, chain, half) && tail.Some?
    requires |chain| > 1 && heap[chain[0]].next == Some(chain[1])
    requires forall c | c in chain[1..] && c in heap :: c in heap' && heap'[c] == heap[c]
    ensures ChainInv(heap', head, Some(chain[1]), chain[1..], half)
  {
    var rest := chain[1..];
    forall i | 0 <= i < |rest|
      ensures rest[i] in heap' && heap'[rest[i]].next == LinkAt(rest, half.Some?, i)
    {
      assert rest[i] == chain[i + 1] && heap[chain[i + 1]].next == LinkAt(chain, half.Some?, i + 1);
    }
  }

  lemma {:induction false} FifoPops(heap: Heap, heap': Heap, chain: seq<NodeId>, pushed: seq<Payload>,
                                    popped: seq<Payload>)
    requires FifoInv(heap, chain, pushed, popped) && |chain| > 1
    requires forall c | c in chain[1..] && c in heap :: c in heap' && heap'[c] == heap[c]
    ensures |popped| < |pushed| && heap[chain[1]].payload == Some(pushed[|popped|])
    ensures FifoInv(heap', chain[1..], pushed, popped + [pushed[|popped|]])
  {
    var rest := chain[1..];
    forall i | 0 < i < |rest|
      ensures rest[i] in heap' && heap'[rest[i]].payload == Some(pushed[|popped| + 1 + i - 1])
    {
      assert rest[i] == chain[i + 1];
    }
  }

  lemma {:induction false} FifoLinks(heap: Heap, chain: seq<NodeId>, pushed: seq<Payload>, popped: seq<Payload>,
                                     n: NodeId, next: Option<NodeId>)
    requires FifoInv(heap, chain, pushed, popped) && n in heap
    ensures FifoInv(heap[n := heap[n].(next := next)], chain, pushed, popped)
  {
  }

  // ---- one lemma per atomic step ----

  lemma {:induction false} SenderEnters(s: State, t: Thread, p: Payload)
    requires LockInv(s.lock, s.senders, s.destroyer, s.destroyed) && WakerInv(s.senders, s.waker) && t !in s.senders
    requires PrivateInv(s.heap, s.chain, s.senders, Prior(s.worker))
    ensures LockInv(s.lock, s.senders[t := Start(p)], s.destroyer, s.destroyed)
    ensures WakerInv(s.senders[t := Start(p)], s.waker)
    ensures PrivateInv(s.heap, s.chain, s.senders[t := Start(p)], Prior(s.worker))
    ensures Half(s.lock, s.senders[t := Start(p)]) == Half(s.lock, s.senders)
  {
  }

  lemma {:induction false} PayloadEnters(senders: Senders, owner: Owners, pushed: seq<Payload>, done: nat, t: Thread,
                                         p: Payload)
    requires SenderOwnInv(senders, owner) && QueueOwnInv(owner, pushed, done) && t !in senders && p !in owner
    ensures SenderOwnInv(senders[t := Start(p)], owner[p := WithSender(t)])
    ensures QueueOwnInv(owner[p := WithSender(t)], pushed, done)
  {
  }

  lemma {:induction false} SendKeepsInv(s: State, t: Thread, p: Payload)
    requires Ready(s, Send(t, p))
    ensures Inv(Do(s, Send(t, p)))
  {
    hide LockInv, DestroyInv, ChainInv, FifoInv, WorkerInv, PrivateInv, TokenInv, WakerInv, SenderOwnInv;
    hide QueueOwnInv, WorkerOwnInv, CountInv, Half, Tokens;
    SenderEnters(s, t, p);
    PayloadEnters(s.senders, s.owner, s.pushed, |s.popped|, t, p);
    WorkerOwnFrame(s.owner, s.worker, s.doubled, p, WithSender(t));
    CountFrame(s.owner, s.disposals, s.doubled, p, WithSender(t));
  }

  lemma {:induction false} CheckFlagRefused(s: State, t: Thread, n: NodeId)
    requires Ready(s, CheckFlag(t, n)) && s.destroyFlag
    ensures Inv(Do(s, CheckFlag(t, n)))
  {
    hide DestroyInv, ChainInv, FifoInv, WorkerInv, TokenInv, SenderOwnInv, QueueOwnInv, WorkerOwnInv, CountInv;
    SenderOwns(s, t);
    SenderGivesUp(s.senders, s.owner, s.pushed, |s.popped|, t);
    WorkerOwnFrame(s.owner, s.worker, s.doubled, s.senders[t].payload, Gone);
    CountBump(s.owner, s.disposals, s.doubled, s.senders[t].payload);
  }

  lemma {:induction false} CheckFlagPrivate(s: State, t: Thread, n: NodeId)
    requires Ready(s, CheckFlag(t, n)) && !s.destroyFlag
    ensures var s' := Do(s, CheckFlag(t, n));
            && PrivateInv(s'.heap, s'.chain, s'.senders, Prior(s'.worker)) && n !in s.chain
            && WorkerInv(s'.heap, s'.chain, s'.worker, s'.destroyed)
  {
    hide LockInv, FifoInv, TokenInv, WakerInv, SenderOwnInv, QueueOwnInv, WorkerOwnInv, CountInv;
  }

  /** A sender outside the lock that owes nothing does not matter to either. */
  lemma SenderUninvolved(s: State, t: Thread, x: Sender)
    requires LockInv(s.lock, s.senders, s.destroyer, s.destroyed) && WakerInv(s.senders, s.waker)
    requires t in s.senders && !Critical(s.senders[t]) && !Owes(s.senders[t]) && !Critical(x) && !Owes(x)
    ensures LockInv(s.lock, s.senders[t := x], s.destroyer, s.destroyed) && WakerInv(s.senders[t := x], s.waker)
    ensures Half(s.lock, s.senders[t := x]) == Half(s.lock, s.senders)
  {
  }

  lemma {:induction false} CheckFlagKeepsInv(s: State, t: Thread, n: NodeId)
    requires Ready(s, CheckFlag(t, n))
    ensures Inv(Do(s, CheckFlag(t, n)))
  {
    if s.destroyFlag {
      CheckFlagRefused(s, t, n);
    } else {
      hide LockInv, DestroyInv, ChainInv, FifoInv, WorkerInv, PrivateInv, TokenInv, WakerInv, SenderOwnInv;
      hide QueueOwnInv, WorkerOwnInv, CountInv;
      var p := s.senders[t].payload;
      SenderUninvolved(s, t, Allocated(p, n));
      CheckFlagPrivate(s, t, n);
      SenderMoves(s.senders, s.owner, t, Allocated(p, n));
      OffChain(s.heap, s.heap[n := Node(Some(p), None)], HeadNode(s.head), s.tail, s.chain, Half(s.lock, s.senders),
               s.pushed, s.popped);
    }
  }

  lemma {:induction false} AcquireKeepsInv(s: State, t: Thread)
    requires Ready(s, Acquire(t))
    ensures Inv(Do(s, Acquire(t)))
  {
    hide DestroyInv, ChainInv, FifoInv, WorkerInv, TokenInv, SenderOwnInv, QueueOwnInv, WorkerOwnInv, CountInv;
    var x := s.senders[t];
    SenderMoves(s.senders, s.owner, t, Locked(x.payload, x.node));
  }

  lemma {:induction false} CheckDestroyedRefused(s: State, t: Thread)
    requires Ready(s, CheckDestroyed(t)) && s.destroyed
    ensures Inv(Do(s, CheckDestroyed(t)))
  {
    hide DestroyInv, ChainInv, FifoInv, WorkerInv, TokenInv, SenderOwnInv, QueueOwnInv, WorkerOwnInv, CountInv;
    var x := s.senders[t];
    SenderMoves(s.senders, s.owner, t, Refusing(x.payload, x.node));
  }

  lemma StoredPrivate(heap: Heap, chain: seq<NodeId>, senders: Senders, prior: Option<NodeId>, t: Thread)
    requires PrivateInv(heap, chain, senders, prior) && t in senders && senders[t].Locked?
    ensures var x := senders[t];
            && x.node in heap && x.node !in chain
            && PrivateInv(heap[x.node := heap[x.node].(next := None)], chain,
                          senders[t := Stored(x.payload, x.node)], prior)
  {
  }

  /** A sender that keeps the lock. */
  lemma SenderStays(s: State, t: Thread, x: Sender)
    requires LockInv(s.lock, s.senders, s.destroyer, s.destroyed) && WakerInv(s.senders, s.waker)
    requires t in s.senders && s.senders[t].Locked? && x.Stored? && !s.destroyed
    ensures LockInv(s.lock, s.senders[t := x], s.destroyer, s.destroyed) && WakerInv(s.senders[t := x], s.waker)
    ensures Half(s.lock, s.senders[t := x]) == Half(s.lock, s.senders)
  {
  }

  /** What the worker remembers does not depend on nodes off the chain. */
  lemma WorkerFrame(heap: Heap, heap': Heap, chain: seq<NodeId>, w: Worker, destroyed: bool)
    requires WorkerInv(heap, chain, w, destroyed)
    requires forall c | c in chain && c in heap :: c in heap' && heap'[c] == heap[c]
    requires w.Freeing? && w.prior in heap ==> w.prior in heap'
    ensures WorkerInv(heap', chain, w, destroyed)
  {
  }

  lemma {:induction false} CheckDestroyedKeepsInv(s: State, t: Thread)
    requires Ready(s, CheckDestroyed(t))
    ensures Inv(Do(s, CheckDestroyed(t)))
  {
    if s.destroyed {
      CheckDestroyedRefused(s, t);
    } else {
      hide LockInv, DestroyInv, ChainInv, FifoInv, WorkerInv, PrivateInv, TokenInv, WakerInv, SenderOwnInv;
      hide QueueOwnInv, WorkerOwnInv, CountInv, Half;
      var x := s.senders[t];
      var heap := s.heap[x.node := s.heap[x.node].(next := None)];
      SenderStays(s, t, Stored(x.payload, x.node));
      StoredPrivate(s.heap, s.chain, s.senders, Prior(s.worker), t);
      SenderMoves(s.senders, s.owner, t, Stored(x.payload, x.node));
      OffChain(s.heap, heap, HeadNode(s.head), s.tail, s.chain, Half(s.lock, s.senders), s.pushed, s.popped);
      WorkerFrame(s.heap, heap, s.chain, s.worker, s.destroyed);
    }
  }

  /** A sender outside the lock that owes nothing leaves, and its node is freed. */
  lemma {:induction false} SenderRefused(s: State, t: Thread)
    requires LockInv(s.lock, s.senders, s.destroyer, s.destroyed) && WakerInv(s.senders, s.waker)
    requires PrivateInv(s.heap, s.chain, s.senders, Prior(s.worker)) && t in s.senders && s.senders[t].Refusing?
    ensures LockInv(s.lock, s.senders - {t}, s.destroyer, s.destroyed) && WakerInv(s.senders - {t}, s.waker)
    ensures PrivateInv(s.heap - {s.senders[t].node}, s.chain, s.senders - {t}, Prior(s.worker))
    ensures Half(s.lock, s.senders - {t}) == Half(s.lock, s.senders)
    ensures s.senders[t].node !in s.chain && Prior(s.worker) != Some(s.senders[t].node)
  {
  }

  lemma {:induction false} RefuseKeepsInv(s: State, t: Thread)
    requires Ready(s, Refuse(t))
    ensures Inv(Do(s, Refuse(t)))
  {
    hide LockInv, DestroyInv, ChainInv, FifoInv, WorkerInv, PrivateInv, TokenInv, WakerInv, SenderOwnInv;
    hide QueueOwnInv, WorkerOwnInv, CountInv, Half, Bump;
    var x := s.senders[t];
    SenderRefused(s, t);
    SenderOwns(s, t);
    SenderGivesUp(s.senders, s.owner, s.pushed, |s.popped|, t);
    WorkerOwnFrame(s.owner, s.worker, s.doubled, x.payload, Gone);
    CountBump(s.owner, s.disposals, s.doubled, x.payload);
    OffChain(s.heap, s.heap - {x.node}, HeadNode(s.head), s.tail, s.chain, Half(s.lock, s.senders), s.pushed, s.popped);
    WorkerFrame(s.heap, s.heap - {x.node}, s.chain, s.worker, s.destroyed);
  }

  lemma {:induction false} ChainGrows(heap: Heap, head: NodeId, tail: Option<NodeId>, chain: seq<NodeId>, n: NodeId,
                                      tagged: bool)
    requires ChainInv(heap, Some(head), tail, chain, None) && tail.Some?
    requires n in heap && n !in chain && heap[n].next.None?
    ensures ChainInv(heap, Some(n), tail, chain + [n], Some(Linking(n, head, tagged)))
  {
    var chain' := chain + [n];
    forall i | 0 <= i < |chain'|
      ensures chain'[i] in heap && heap[chain'[i]].next == LinkAt(chain', true, i)
    {
      if i < |chain| {
        assert heap[chain[i]].next == LinkAt(chain, false, i);
      }
    }
  }

  lemma {:induction false} FifoGrows(heap: Heap, chain: seq<NodeId>, pushed: seq<Payload>, popped: seq<Payload>,
                                     n: NodeId, p: Payload)
    requires FifoInv(heap, chain, pushed, popped) && chain != []
    requires n in heap && heap[n].payload == Some(p)
    ensures FifoInv(heap, chain + [n], pushed + [p], popped)
  {
  }

  lemma {:induction false} ExchangeChain(s: State, t: Thread)
    requires Ready(s, Exchange(t))
    ensures var s' := Do(s, Exchange(t));
            && ChainInv(s'.heap, HeadNode(s'.head), s'.tail, s'.chain, Half(s'.lock, s'.senders))
              && FifoInv(s'.heap, s'.chain, s'.pushed, s'.popped)
  {
    hide ChainInv, FifoInv, WorkerInv, TokenInv, WakerInv, SenderOwnInv, QueueOwnInv, WorkerOwnInv, CountInv;
    var x := s.senders[t];
    ChainStarts(s);
    ChainGrows(s.heap, s.head.value.node, s.tail, s.chain, x.node, s.head.value.tagged);
    FifoGrows(s.heap, s.chain, s.pushed, s.popped, x.node, x.payload);
  }

  lemma ChainStarts(s: State)
    requires Inv(s) && s.tail.Some?
    ensures s.chain != []
  {
  }

  lemma {:induction false} ExchangePrivate(s: State, t: Thread)
    requires Ready(s, Exchange(t))
    ensures var s' := Do(s, Exchange(t));
            && PrivateInv(s'.heap, s'.chain, s'.senders, Prior(s'.worker))
              && WorkerInv(s'.heap, s'.chain, s'.worker, s'.destroyed)
  {
    hide FifoInv, TokenInv, WakerInv, SenderOwnInv, QueueOwnInv, WorkerOwnInv, CountInv;
  }

  lemma {:induction false} ExchangeKeepsInv(s: State, t: Thread)
    requires Ready(s, Exchange(t))
    ensures Inv(Do(s, Exchange(t)))
  {
    hide ChainInv, WorkerInv, PrivateInv, SenderOwnInv, QueueOwnInv, WorkerOwnInv, CountInv;
    ExchangeChain(s, t);
    ExchangePrivate(s, t);
    var x := s.senders[t];
    var y := Linking(x.node, s.head.value.node, s.head.value.tagged);
    SenderOwns(s, t);
    SenderPushes(s.senders, s.owner, t, y);
    QueueGrows(s.owner, s.pushed, |s.popped|, x.payload);
    WorkerOwnFrame(s.owner, s.worker, s.doubled, x.payload, InQueue);
    CountFrame(s.owner, s.disposals, s.doubled, x.payload, InQueue);
  }

  lemma {:induction false} LinkChain(s: State, t: Thread)
    requires Ready(s, Link(t))
    ensures var s' := Do(s, Link(t));
            ChainInv(s'.heap, HeadNode(s'.head), s'.tail, s'.chain, Half(s'.lock, s'.senders))
  {
    hide FifoInv, WorkerInv, PrivateInv, TokenInv, WakerInv, SenderOwnInv, QueueOwnInv, WorkerOwnInv, CountInv;
    assert Half(s.lock, s.senders) == Some(s.senders[t]);
  }

  lemma {:induction false} LinkPrivate(s: State, t: Thread)
    requires Ready(s, Link(t))
    ensures var s' := Do(s, Link(t));
            && PrivateInv(s'.heap, s'.chain, s'.senders, Prior(s'.worker))
              && WorkerInv(s'.heap, s'.chain, s'.worker, s'.destroyed)
  {
    hide FifoInv, TokenInv, WakerInv, SenderOwnInv, QueueOwnInv, WorkerOwnInv, CountInv;
    assert Half(s.lock, s.senders) == Some(s.senders[t]);
  }

  lemma {:induction false} LinkKeepsInv(s: State, t: Thread)
    requires Ready(s, Link(t))
    ensures Inv(Do(s, Link(t)))
  {
    hide ChainInv, FifoInv, WorkerInv, PrivateInv, TokenInv, SenderOwnInv, QueueOwnInv, WorkerOwnInv, CountInv;
    LinkChain(s, t);
    FifoLinks(s.heap, s.chain, s.pushed, s.popped, s.senders[t].prev, Some(s.senders[t].node));
    LinkPrivate(s, t);
    var x := s.senders[t];
    SenderMoves(s.senders, s.owner, t, Unlocking(x.wasEmpty));
  }

  lemma {:induction false} UnlockOwing(s: State, t: Thread)
    requires Ready(s, Unlock(t)) && s.senders[t].wasEmpty
    ensures Inv(Do(s, Unlock(t)))
  {
    hide DestroyInv, ChainInv, FifoInv, WorkerInv, TokenInv, SenderOwnInv, QueueOwnInv, WorkerOwnInv, CountInv;
    SenderMoves(s.senders, s.owner, t, Injecting);
  }

  /** A sender that saw no tag releases the lock and is done. */
  lemma {:induction false} SenderUnlocks(s: State, t: Thread)
    requires LockInv(s.lock, s.senders, s.destroyer, s.destroyed) && WakerInv(s.senders, s.waker)
    requires PrivateInv(s.heap, s.chain, s.senders, Prior(s.worker))
    requires t in s.senders && s.senders[t] == Unlocking(false)
    ensures LockInv(Free, s.senders - {t}, s.destroyer, s.destroyed) && WakerInv(s.senders - {t}, s.waker)
    ensures PrivateInv(s.heap, s.chain, s.senders - {t}, Prior(s.worker))
    ensures Half(Free, s.senders - {t}) == Half(s.lock, s.senders)
  {
  }

  lemma {:induction false} UnlockKeepsInv(s: State, t: Thread)
    requires Ready(s, Unlock(t))
    ensures Inv(Do(s, Unlock(t)))
  {
    if s.senders[t].wasEmpty {
      UnlockOwing(s, t);
    } else {
      hide LockInv, DestroyInv, ChainInv, FifoInv, WorkerInv, PrivateInv, TokenInv, WakerInv, SenderOwnInv;
      hide QueueOwnInv, WorkerOwnInv, CountInv, Half;
      SenderUnlocks(s, t);
      SenderLeaves(s.senders, s.owner, t);
    }
  }

  lemma {:induction false} InjectKeepsInv(s: State, t: Thread)
    requires Ready(s, Inject(t))
    ensures Inv(Do(s, Inject(t)))
  {
    hide DestroyInv, ChainInv, FifoInv, WorkerInv, SenderOwnInv, QueueOwnInv, WorkerOwnInv, CountInv;
    SenderLeaves(s.senders, s.owner, t);
  }

  lemma {:induction false} RunStartKeepsInv(s: State, b: nat)
    requires Ready(s, RunStart(b))
    ensures Inv(Do(s, RunStart(b)))
  {
    hide LockInv, ChainInv, FifoInv, PrivateInv, WakerInv, SenderOwnInv, QueueOwnInv, CountInv;
  }

  lemma {:induction false} RunTopKeepsInv(s: State)
    requires Ready(s, RunTop)
    ensures Inv(Do(s, RunTop))
  {
    hide LockInv, ChainInv, FifoInv, PrivateInv, WakerInv, SenderOwnInv, QueueOwnInv, CountInv, WorkerOwnInv;
    WorkerIdles(s.owner, s.worker, Do(s, RunTop).worker, s.doubled);
  }

  lemma {:induction false} LoadNextKeepsInv(s: State)
    requires Ready(s, LoadNext)
    ensures Inv(Do(s, LoadNext))
  {
    hide LockInv, ChainInv, FifoInv, PrivateInv, WakerInv, SenderOwnInv, QueueOwnInv, CountInv, WorkerOwnInv;
    hide WorkerInv;
    LoadNextPops(s);
    WorkerIdles(s.owner, s.worker, Do(s, LoadNext).worker, s.doubled);
  }

  lemma {:induction false} LoadNextPops(s: State)
    requires Ready(s, LoadNext)
    ensures var s' := Do(s, LoadNext); WorkerInv(s'.heap, s'.chain, s'.worker, s'.destroyed)
  {
    hide LockInv, FifoInv, PrivateInv, TokenInv, WakerInv, SenderOwnInv, QueueOwnInv, WorkerOwnInv, CountInv;
    var half := Half(s.lock, s.senders).Some?;
    assert s.heap[s.chain[0]].next == LinkAt(s.chain, half, 0);
    assert LinkAt(s.chain, half, 0).Some? ==> |s.chain| > 1 && LinkAt(s.chain, half, 0) == Some(s.chain[1]);
  }

  lemma {:induction false} AdvanceChain(s: State)
    requires Ready(s, Advance)
    ensures var s' := Do(s, Advance);
            && ChainInv(s'.heap, HeadNode(s'.head), s'.tail, s'.chain, Half(s'.lock, s'.senders))
            && FifoInv(s'.heap, s'.chain, s'.pushed, s'.popped)
            && |s.popped| < |s.pushed| && s.heap[s.worker.next].payload == Some(s.pushed[|s.popped|])
  {
    hide LockInv, ChainInv, FifoInv, PrivateInv, TokenInv, WakerInv, SenderOwnInv, QueueOwnInv, WorkerOwnInv;
    hide CountInv, Half, LinkAt;
    AdvanceLinked(s);
    ChainPops(s.heap, s.heap, HeadNode(s.head), s.tail, s.chain, Half(s.lock, s.senders));
    FifoPops(s.heap, s.heap, s.chain, s.pushed, s.popped);
  }

  lemma {:induction false} AdvancePrivate(s: State)
    requires Ready(s, Advance)
    ensures var s' := Do(s, Advance);
            && PrivateInv(s'.heap, s'.chain, s'.senders, Prior(s'.worker))
              && WorkerInv(s'.heap, s'.chain, s'.worker, s'.destroyed)
  {
    hide LockInv, FifoInv, TokenInv, WakerInv, SenderOwnInv, QueueOwnInv, WorkerOwnInv, CountInv;
  }

  /** A loaded successor is really linked, so the owed link is further on. */
  lemma {:induction false} AdvanceLinked(s: State)
    requires Ready(s, Advance)
    ensures |s.chain| > 1 && s.heap[s.chain[0]].next == Some(s.chain[1])
    ensures Half(s.lock, s.senders).Some? ==> |s.chain| > 2
  {
    hide FifoInv, PrivateInv, TokenInv, WakerInv, SenderOwnInv, QueueOwnInv, WorkerOwnInv, CountInv;
  }

  lemma {:induction false} AdvanceKeepsInv(s: State)
    requires Ready(s, Advance)
    ensures Inv(Do(s, Advance))
  {
    hide LockInv, ChainInv, FifoInv, PrivateInv, WakerInv, SenderOwnInv, QueueOwnInv, CountInv;
    AdvanceChain(s);
    AdvancePrivate(s);
    var p := s.heap[s.worker.next].payload.value;
    PayloadPopped(s.senders, s.owner, s.pushed, |s.popped|, WithWorker);
    CountFrame(s.owner, s.disposals, s.doubled, p, WithWorker);
  }

  lemma {:induction false} FreeOldKeepsInv(s: State)
    requires Ready(s, FreeOld)
    ensures Inv(Do(s, FreeOld))
  {
    hide LockInv, ChainInv, FifoInv, TokenInv, WakerInv, SenderOwnInv, QueueOwnInv, CountInv;
    OffChain(s.heap, s.heap - {s.worker.prior}, HeadNode(s.head), s.tail, s.chain, Half(s.lock, s.senders), s.pushed,
             s.popped);
  }

  lemma {:induction false} DispatchEndKeepsInv(s: State, c: bool)
    requires Ready(s, DispatchEnd(c))
    ensures Inv(Do(s, DispatchEnd(c)))
  {
    hide LockInv, ChainInv, FifoInv, PrivateInv, TokenInv, WakerInv, SenderOwnInv, QueueOwnInv, CountInv;
    var p := s.worker.payload;
    assert WorkerHas(s.worker, p);
    if c {
      NotDoubled(s, p);
      WorkerGivesUp(s.senders, s.owner, s.pushed, |s.popped|, p);
      CountBump(s.owner, s.disposals, s.doubled, p);
    }
  }

  lemma {:induction false} CheckAfterKeepsInv(s: State)
    requires Ready(s, CheckAfter)
    ensures Inv(Do(s, CheckAfter))
  {
    hide LockInv, ChainInv, FifoInv, PrivateInv, WakerInv, SenderOwnInv, QueueOwnInv, CountInv;
    var p := s.worker.payload;
    if s.destroyFlag {
      if s.worker.consumed {
        CountTwice(s.owner, s.disposals, s.doubled, p);
      } else {
        assert WorkerHas(s.worker, p);
        CountBump(s.owner, s.disposals, s.doubled, p);
      }
      WorkerGivesUp(s.senders, s.owner, s.pushed, |s.popped|, p);
    }
  }

  lemma {:induction false} CleanKeepsInv(s: State)
    requires Ready(s, Clean)
    ensures Inv(Do(s, Clean))
  {
    hide LockInv, ChainInv, FifoInv, PrivateInv, TokenInv, WakerInv, SenderOwnInv, QueueOwnInv, CountInv;
    var p := s.worker.payload;
    if !s.worker.consumed {
      assert WorkerHas(s.worker, p);
      CountBump(s.owner, s.disposals, s.doubled, p);
      WorkerGivesUp(s.senders, s.owner, s.pushed, |s.popped|, p);
    }
  }

  /** A worker that is not inside a turn owns nothing. */
  predicate BetweenTurns(w: Worker)
  {
    w.Off? || w.Top? || w.Popping? || w.Loaded? || w.MarkLoad? || w.MarkCas?
  }

  lemma WorkerIdles(owner: Owners, w: Worker, w': Worker, doubled: set<Payload>)
    requires WorkerOwnInv(owner, w, doubled) && BetweenTurns(w) && BetweenTurns(w')
    ensures WorkerOwnInv(owner, w', doubled)
  {
  }

  lemma {:induction false} LoadHeadKeepsInv(s: State)
    requires Ready(s, LoadHead)
    ensures Inv(Do(s, LoadHead))
  {
    hide LockInv, FifoInv, PrivateInv, WakerInv, SenderOwnInv, QueueOwnInv, WorkerOwnInv, CountInv;
    WorkerIdles(s.owner, s.worker, Do(s, LoadHead).worker, s.doubled);
  }

  lemma {:induction false} CasKeepsInv(s: State)
    requires Ready(s, Cas)
    ensures Inv(Do(s, Cas))
  {
    hide LockInv, FifoInv, PrivateInv, WakerInv, SenderOwnInv, QueueOwnInv, WorkerOwnInv, CountInv;
    WorkerIdles(s.owner, s.worker, Off, s.doubled);
  }

  lemma {:induction false} DestroyBeginKeepsInv(s: State, c: bool)
    requires Ready(s, DestroyBegin(c))
    ensures Inv(Do(s, DestroyBegin(c)))
  {
    hide ChainInv, FifoInv, WorkerInv, PrivateInv, WakerInv, SenderOwnInv, QueueOwnInv, WorkerOwnInv, CountInv;
  }

  lemma {:induction false} DestroyLockKeepsInv(s: State)
    requires Ready(s, DestroyLock)
    ensures Inv(Do(s, DestroyLock))
  {
    hide ChainInv, FifoInv, WorkerInv, PrivateInv, TokenInv, WakerInv, SenderOwnInv, QueueOwnInv, WorkerOwnInv;
    hide CountInv;
  }

  lemma {:induction false} DestroyMarkKeepsInv(s: State)
    requires Ready(s, DestroyMark)
    ensures Inv(Do(s, DestroyMark))
  {
    hide ChainInv, FifoInv, PrivateInv, TokenInv, WakerInv, SenderOwnInv, QueueOwnInv, WorkerOwnInv, CountInv;
  }

  /** The destroyer holds the lock, so every link is in place. */
  lemma {:induction false} DrainLinked(s: State)
    requires Ready(s, DrainOne)
    ensures |s.chain| > 1 && s.tail == Some(s.chain[0]) && s.heap[s.chain[0]].next == Some(s.chain[1])
    ensures s.chain[0] !in s.chain[1..]
  {
    hide LockInv, FifoInv, WorkerInv, PrivateInv, TokenInv, WakerInv, SenderOwnInv, QueueOwnInv, WorkerOwnInv, CountInv;
    assert s.heap[s.chain[0]].next == LinkAt(s.chain, Half(s.lock, s.senders).Some?, 0);
  }

  lemma {:induction false} DrainOneChain(s: State)
    requires Ready(s, DrainOne)
    ensures var s' := Do(s, DrainOne);
            && ChainInv(s'.heap, HeadNode(s'.head), s'.tail, s'.chain, Half(s'.lock, s'.senders))
            && FifoInv(s'.heap, s'.chain, s'.pushed, s'.popped)
            && |s.popped| < |s.pushed| && s.heap[Next(s).value].payload == Some(s.pushed[|s.popped|])
  {
    hide LockInv, DestroyInv, ChainInv, FifoInv, WorkerInv, PrivateInv, TokenInv, WakerInv, SenderOwnInv, QueueOwnInv;
    hide WorkerOwnInv, CountInv, Half, LinkAt;
    DrainLinked(s);
    ChainPops(s.heap, s.heap - {s.tail.value}, HeadNode(s.head), s.tail, s.chain, Half(s.lock, s.senders));
    FifoPops(s.heap, s.heap - {s.tail.value}, s.chain, s.pushed, s.popped);
  }

  lemma {:induction false} DrainOnePrivate(s: State)
    requires Ready(s, DrainOne)
    ensures var s' := Do(s, DrainOne);
            && PrivateInv(s'.heap, s'.chain, s'.senders, Prior(s'.worker))
              && WorkerInv(s'.heap, s'.chain, s'.worker, s'.destroyed)
  {
    hide LockInv, FifoInv, TokenInv, WakerInv, SenderOwnInv, QueueOwnInv, WorkerOwnInv, CountInv;
  }

  lemma {:induction false} DrainOneKeepsInv(s: State)
    requires Ready(s, DrainOne)
    ensures Inv(Do(s, DrainOne))
  {
    hide ChainInv, FifoInv, WorkerInv, PrivateInv, WakerInv, SenderOwnInv, QueueOwnInv, WorkerOwnInv, CountInv;
    DrainLinked(s);
    DrainOneChain(s);
    DrainOnePrivate(s);
    var p := s.heap[Next(s).value].payload.value;
    PayloadPopped(s.senders, s.owner, s.pushed, |s.popped|, Gone);
    WorkerOwnFrame(s.owner, s.worker, s.doubled, p, Gone);
    CountBump(s.owner, s.disposals, s.doubled, p);
  }

  lemma {:induction false} DrainEndKeepsInv(s: State)
    requires Ready(s, DrainEnd)
    ensures Inv(Do(s, DrainEnd))
  {
    hide ChainInv, FifoInv, PrivateInv, WakerInv, SenderOwnInv, QueueOwnInv, WorkerOwnInv, CountInv;
    LastNode(s);
    LastFreed(s.heap, s.chain, s.senders, Prior(s.worker), s.tail.value);
    EmptyQueue(s.heap - {s.tail.value}, s.pushed, Half(s.lock, s.senders));
  }

  lemma LastNode(s: State)
    requires Ready(s, DrainEnd)
    ensures |s.chain| == 1 && s.chain[0] == s.tail.value && s.popped == s.pushed
  {
    hide ChainInv, WorkerInv, PrivateInv, TokenInv, WakerInv, SenderOwnInv, QueueOwnInv, WorkerOwnInv, CountInv;
    assert s.lock.ByDestroyer?;
    NoMore(s.heap, HeadNode(s.head), s.tail, s.chain);
  }

  lemma NoMore(heap: Heap, head: Option<NodeId>, tail: Option<NodeId>, chain: seq<NodeId>)
    requires ChainInv(heap, head, tail, chain, None) && tail.Some? && tail.value in heap && heap[tail.value].next.None?
    ensures |chain| == 1 && chain[0] == tail.value
  {
    assert heap[chain[0]].next == LinkAt(chain, false, 0);
  }

  lemma EmptyQueue(heap: Heap, pushed: seq<Payload>, half: Option<Sender>)
    ensures ChainInv(heap, None, None, [], half) && FifoInv(heap, [], pushed, pushed)
  {
  }

  lemma LastFreed(heap: Heap, chain: seq<NodeId>, senders: Senders, prior: Option<NodeId>, n: NodeId)
    requires PrivateInv(heap, chain, senders, prior) && n in chain
    ensures PrivateInv(heap - {n}, [], senders, prior)
  {
  }

  lemma {:induction false} DestroyUnlockKeepsInv(s: State)
    requires Ready(s, DestroyUnlock)
    ensures Inv(Do(s, DestroyUnlock))
  {
    hide ChainInv, FifoInv, WorkerInv, PrivateInv, TokenInv, WakerInv, SenderOwnInv, QueueOwnInv, WorkerOwnInv;
    hide CountInv;
  }

  lemma SenderOwns(s: State, t: Thread)
    requires SenderOwnInv(s.senders, s.owner) && t in s.senders && !HasNone(s.senders[t])
    ensures s.senders[t].payload in s.owner && s.owner[s.senders[t].payload] == WithSender(t)
  {
    assert SenderHas(s.senders[t], s.senders[t].payload);
  }

  lemma NotDoubled(s: State, p: Payload)
    requires CountInv(s.owner, s.disposals, s.doubled) && p in s.owner && !s.owner[p].Gone?
    ensures p !in s.doubled
  {
  }
}
