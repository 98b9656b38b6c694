/**
 What holds of the mailbox in every interleaving: no step touches a freed node, no
 wakeup is lost, messages come out in order, and payloads are disposed of once.
 */
module MailboxRuns {
  import opened Entries
  import opened Mailbox
  import opened MailboxSteps

  // ---- whole runs ----

  lemma {:induction false} StepKeepsInv(s: State, step: Step)
    requires Ready(s, step)
    ensures Inv(Do(s, step))
  {
    hide Ready, Inv, Do;
    match step
    case Send(t, p) => SendKeepsInv(s, t, p);
    case CheckFlag(t, n) => CheckFlagKeepsInv(s, t, n);
    case Acquire(t) => AcquireKeepsInv(s, t);
    case CheckDestroyed(t) => CheckDestroyedKeepsInv(s, t);
    case Refuse(t) => RefuseKeepsInv(s, t);
    case Exchange(t) => ExchangeKeepsInv(s, t);
    case Link(t) => LinkKeepsInv(s, t);
    case Unlock(t) => UnlockKeepsInv(s, t);
    case Inject(t) => InjectKeepsInv(s, t);
    case RunStart(b) => RunStartKeepsInv(s, b);
    case RunTop => RunTopKeepsInv(s);
    case LoadNext => LoadNextKeepsInv(s);
    case Advance => AdvanceKeepsInv(s);
    case FreeOld => FreeOldKeepsInv(s);
    case DispatchEnd(c) => DispatchEndKeepsInv(s, c);
    case CheckAfter => CheckAfterKeepsInv(s);
    case Clean => CleanKeepsInv(s);
    case LoadHead => LoadHeadKeepsInv(s);
    case Cas => CasKeepsInv(s);
    case DestroyBegin(c) => DestroyBeginKeepsInv(s, c);
    case DestroyLock => DestroyLockKeepsInv(s);
    case DestroyMark => DestroyMarkKeepsInv(s);
    case DrainOne => DrainOneKeepsInv(s);
    case DrainEnd => DrainEndKeepsInv(s);
    case DestroyUnlock => DestroyUnlockKeepsInv(s);
  }

  datatype Execution =
    | Reached(state: State)
    | NotEnabled
    | UseAfterFree

  /** Run an interleaving from a new mailbox. */
  function Execute(sentinel: NodeId, steps: seq<Step>): Execution
  {
    if steps == [] then Reached(Initial(sentinel))
    else
      match Execute(sentinel, steps[..|steps| - 1])
      case Reached(s) =>
        var step := steps[|steps| - 1];
        if !Enabled(s, step) then NotEnabled
        else if !Safe(s, step) then UseAfterFree
        else Reached(Do(s, step))
      case stuck => stuck
  }

  lemma {:induction false} ExecuteKeepsInv(n: NodeId, steps: seq<Step>)
    ensures !Execute(n, steps).UseAfterFree?
    ensures Execute(n, steps).Reached? ==> Inv(Execute(n, steps).state)
  {
    hide Inv, Do, Safe, Enabled;
    if steps == [] {
      InitInv(n);
    } else {
      var before := steps[..|steps| - 1];
      ExecuteKeepsInv(n, before);
      if Execute(n, before).Reached? {
        var s, step := Execute(n, before).state, steps[|steps| - 1];
        if Enabled(s, step) {
          StepIsSafe(s, step);
          StepKeepsInv(s, step);
        }
      }
    }
  }

  /** No interleaving of sends, runs and the destruction reads, links through or
      frees a node that is not allocated. */
  lemma {:induction false} NoUseAfterFree(n: NodeId, steps: seq<Step>)
    ensures !Execute(n, steps).UseAfterFree?
  {
    ExecuteKeepsInv(n, steps);
  }

  /** No lost wakeup, and no double one.  While the actor lives, a message that has
      been pushed and not popped means that exactly one of these holds: the actor is
      in the scheduler once, it is running, or a sender that saw the tag is about to
      inject it.  When the mailbox is tagged empty none of them holds. */
  lemma {:induction false} NoLostWakeup(n: NodeId, steps: seq<Step>)
    requires Execute(n, steps).Reached?
    ensures var s := Execute(n, steps).state;
            var waking := s.waker.Some? && s.waker.value in s.senders && Owes(s.senders[s.waker.value]);
            && (!s.worker.Off? ==> s.queued == 0 && !waking)
            && (!s.destroyFlag && |s.popped| < |s.pushed| ==>
                  && (s.queued == 1 || !s.worker.Off? || waking)
                  && (s.queued == 1 ==> s.worker.Off? && !waking))
            && (s.head.Some? && s.head.value.tagged ==> s.queued == 0 && s.worker.Off? && !waking)
  {
    ExecuteKeepsInv(n, steps);
    hide Execute, LockInv, PrivateInv, SenderOwnInv, QueueOwnInv, WorkerOwnInv, CountInv;
  }

  /** Messages are popped in the order in which their senders exchanged the head. */
  lemma {:induction false} PopsInOrder(n: NodeId, steps: seq<Step>)
    requires Execute(n, steps).Reached?
    ensures Execute(n, steps).state.popped <= Execute(n, steps).state.pushed
  {
    ExecuteKeepsInv(n, steps);
    hide Execute, LockInv, PrivateInv, SenderOwnInv, QueueOwnInv, WorkerOwnInv, CountInv;
  }

  /** Nothing is in flight: no send in progress, no run, nothing queued. */
  predicate Settled(s: State)
  {
    s.senders == map[] && s.worker.Off? && |s.popped| == |s.pushed|
  }

  /** Once the destruction is over the queue is drained. */
  lemma {:induction false} DestroyDrains(n: NodeId, steps: seq<Step>)
    requires Execute(n, steps).Reached? && Execute(n, steps).state.destroyer.Finished?
    ensures Execute(n, steps).state.pushed == Execute(n, steps).state.popped
  {
    ExecuteKeepsInv(n, steps);
    hide Execute, LockInv, PrivateInv, SenderOwnInv, QueueOwnInv, WorkerOwnInv, CountInv;
  }

  /** The k-th step sees DESTROY at the end of the turn that consumed this payload. */
  predicate Clash(n: NodeId, steps: seq<Step>, k: nat, p: Payload)
    requires k < |steps|
  {
    var e := Execute(n, steps[..k]);
    && steps[k].CheckAfter? && e.Reached? && e.state.worker.Returned?
    && e.state.worker.consumed && e.state.worker.payload == p && e.state.destroyFlag
  }

  predicate Clashes(n: NodeId, steps: seq<Step>, p: Payload)
  {
    exists k | 0 <= k < |steps| :: Clash(n, steps, k, p)
  }

  lemma {:induction false} DoubledClash(n: NodeId, steps: seq<Step>, p: Payload)
    requires Execute(n, steps).Reached?
    ensures p in Execute(n, steps).state.doubled <==> Clashes(n, steps, p)
  {
    hide Enabled, Safe, Do;
    if steps != [] {
      var last := |steps| - 1;
      var before := steps[..last];
      DoubledClash(n, before, p);
      forall k | 0 <= k < last
        ensures Clash(n, steps, k, p) == Clash(n, before, k, p)
      {
        assert before[..k] == steps[..k];
      }
      DoubledStep(Execute(n, before).state, steps[last], p);
      if k :| 0 <= k < |steps| && Clash(n, steps, k, p) {
        assert k < last ==> Clash(n, before, k, p);
      }
      assert Clash(n, steps, last, p) || !Clash(n, steps, last, p);
    }
  }

  predicate SenderStep(step: Step)
  {
    || step.Send? || step.CheckFlag? || step.Acquire? || step.CheckDestroyed? || step.Refuse? || step.Exchange?
    || step.Link? || step.Unlock? || step.Inject?
  }

  predicate DestroyerStep(step: Step)
  {
    || step.DestroyBegin? || step.DestroyLock? || step.DestroyMark? || step.DrainOne? || step.DrainEnd?
    || step.DestroyUnlock?
  }

  lemma SenderDoubles(s: State, step: Step)
    requires Enabled(s, step) && Safe(s, step) && SenderStep(step)
    ensures Do(s, step).doubled == s.doubled
  {
    hide Dispose, Without;
  }

  lemma DestroyerDoubles(s: State, step: Step)
    requires Enabled(s, step) && Safe(s, step) && DestroyerStep(step)
    ensures Do(s, step).doubled == s.doubled
  {
    hide Dispose, Advanced, Next;
  }

  lemma TopDoubles(s: State)
    requires Enabled(s, RunTop)
    ensures Do(s, RunTop).doubled == s.doubled
  {
  }

  lemma NextDoubles(s: State)
    requires Enabled(s, LoadNext) && Safe(s, LoadNext)
    ensures Do(s, LoadNext).doubled == s.doubled
  {
    hide Next;
  }

  lemma MarkDoubles(s: State)
    requires Enabled(s, LoadHead) && Safe(s, LoadHead)
    ensures Do(s, LoadHead).doubled == s.doubled
  {
  }

  lemma CasDoubles(s: State)
    requires Enabled(s, Cas) && Safe(s, Cas)
    ensures Do(s, Cas).doubled == s.doubled
  {
  }

  lemma RunDoubles(s: State, step: Step)
    requires Enabled(s, step) && step.RunStart?
    ensures Do(s, step).doubled == s.doubled
  {
  }

  lemma PopDoubles(s: State, step: Step)
    requires Enabled(s, step) && Safe(s, step) && (step.Advance? || step.FreeOld?)
    ensures Do(s, step).doubled == s.doubled
  {
    hide Advanced;
  }

  lemma TurnEndDoubles(s: State, step: Step)
    requires Enabled(s, step) && Safe(s, step) && (step.DispatchEnd? || step.CheckAfter? || step.Clean?)
    ensures Do(s, step).doubled ==
            if step.CheckAfter? && s.worker.consumed && s.destroyFlag then s.doubled + {s.worker.payload} else s.doubled
  {
    hide Dispose;
  }

  lemma DoubledStep(s: State, step: Step, p: Payload)
    requires Enabled(s, step) && Safe(s, step)
    ensures p in Do(s, step).doubled <==>
            (p in s.doubled ||
             (step.CheckAfter? && s.worker.Returned? && s.worker.consumed && s.worker.payload == p && s.destroyFlag))
  {
    hide Do, Safe;
    if SenderStep(step) {
      SenderDoubles(s, step);
    } else if DestroyerStep(step) {
      DestroyerDoubles(s, step);
    } else if step.Advance? || step.FreeOld? {
      PopDoubles(s, step);
    } else if step.DispatchEnd? || step.CheckAfter? || step.Clean? {
      TurnEndDoubles(s, step);
    } else if step.RunTop? {
      TopDoubles(s);
    } else if step.LoadNext? {
      NextDoubles(s);
    } else if step.LoadHead? {
      MarkDoubles(s);
    } else if step.Cas? {
      CasDoubles(s);
    } else {
      RunDoubles(s, step);
    }
  }

  /** A payload is disposed of twice if and only if the turn that consumed it ends by
      seeing DESTROY, and never more often. */
  lemma {:induction false} DoubledExactly(n: NodeId, steps: seq<Step>, p: Payload)
    requires Execute(n, steps).Reached?
    ensures Count(Execute(n, steps).state.disposals, p) <= 2
    ensures Count(Execute(n, steps).state.disposals, p) == 2 <==> Clashes(n, steps, p)
  {
    ExecuteKeepsInv(n, steps);
    DoubledClash(n, steps, p);
    hide Execute, Clashes, LockInv, PrivateInv, ChainInv, FifoInv, TokenInv, WakerInv, SenderOwnInv, QueueOwnInv;
  }

  /** Payload conservation.  A payload handed to a send has been destroyed or consumed
      at most once at any time, and exactly once when nothing is in flight, if and only
      if the turn that consumed it did not end by seeing DESTROY. */
  lemma {:induction false} PayloadsConserved(n: NodeId, steps: seq<Step>, p: Payload)
    requires Execute(n, steps).Reached? && p in Execute(n, steps).state.owner
    ensures var s := Execute(n, steps).state;
            && (Count(s.disposals, p) <= 1 <==> !Clashes(n, steps, p))
            && (Settled(s) ==> (Count(s.disposals, p) == 1 <==> !Clashes(n, steps, p)))
  {
    ExecuteKeepsInv(n, steps);
    DoubledClash(n, steps, p);
    hide Execute, Clashes, LockInv, PrivateInv, ChainInv, TokenInv, WakerInv;
    var s := Execute(n, steps).state;
    if s.owner[p].InQueue? {
      assert p in s.pushed;
    }
  }

  /** A send, a run that consumes the message, and a DESTROY raised while it does. */
  const DOUBLING: seq<Step> := [
    Send(0, 7), CheckFlag(0, 1), Acquire(0), CheckDestroyed(0), Exchange(0), Link(0), Unlock(0), Inject(0),
    RunStart(1), RunTop, LoadNext, Advance, FreeOld, DestroyBegin(false), DispatchEnd(true), CheckAfter]

  function Reach(s: State, steps: seq<Step>): Execution
    decreases |steps|
  {
    if steps == [] then Reached(s)
    else if !Enabled(s, steps[0]) then NotEnabled
    else if !Safe(s, steps[0]) then UseAfterFree
    else Reach(Do(s, steps[0]), steps[1..])
  }

  lemma {:induction false} ReachIsExecute(n: NodeId, done: seq<Step>, rest: seq<Step>)
    requires Execute(n, done).Reached?
    ensures Reach(Execute(n, done).state, rest) == Execute(n, done + rest)
    decreases |rest|
  {
    hide Enabled, Safe, Do;
    if rest == [] {
      assert done + rest == done;
    } else {
      var more := done + [rest[0]];
      assert more[..|more| - 1] == done;
      assert more + rest[1..] == done + rest;
      if Execute(n, more).Reached? {
        ReachIsExecute(n, more, rest[1..]);
      } else {
        StaysStuck(n, more, rest[1..]);
      }
    }
  }

  lemma {:induction false} StaysStuck(n: NodeId, done: seq<Step>, rest: seq<Step>)
    requires !Execute(n, done).Reached?
    ensures Execute(n, done + rest) == Execute(n, done)
    decreases |rest|
  {
    if rest == [] {
      assert done + rest == done;
    } else {
      var all := done + rest;
      assert all[..|all| - 1] == done + rest[..|rest| - 1];
      StaysStuck(n, done, rest[..|rest| - 1]);
    }
  }

  lemma {:induction false} ReachStep(s: State, steps: seq<Step>, k: nat)
    requires k < |steps| && Enabled(s, steps[k]) && Safe(s, steps[k])
    ensures Reach(s, steps[k..]) == Reach(Do(s, steps[k]), steps[k + 1..])
  {
    hide Enabled, Safe, Do;
    assert steps[k..][1..] == steps[k + 1..];
  }

  lemma ReachNone(s: State)
    ensures Reach(s, []) == Reached(s)
  {
  }

  /** One message in the queue, and the actor in the scheduler. */
  predicate Sent(s: State)
  {
    && s.queued == 1 && s.worker.Off? && s.destroyer.Idle? && !s.destroyFlag
    && s.tail == Some(0) && 0 in s.heap && s.heap[0].next == Some(1)
    && 1 in s.heap && s.heap[1].payload == Some(7)
    && s.chain != [] && 7 !in s.disposals
  }

  lemma {:induction false} SendLocks() returns (r: State)
    ensures Reach(Initial(0), DOUBLING) == Reach(r, DOUBLING[3..])
    ensures 0 in r.heap && 1 in r.heap && r.heap[1].payload == Some(7)
    ensures 0 in r.senders && r.senders[0] == Locked(7, 1) && r.head == Some(Head(0, true)) && r.tail == Some(0)
    ensures !r.destroyed && !r.destroyFlag && r.destroyer.Idle? && r.worker.Off? && r.queued == 0 && 7 !in r.disposals
  {
    hide Reach;
    var s0 := Initial(0);
    ReachStep(s0, DOUBLING, 0);
    var s1 := Do(s0, Send(0, 7));
    ReachStep(s1, DOUBLING, 1);
    var s2 := Do(s1, CheckFlag(0, 1));
    ReachStep(s2, DOUBLING, 2);
    r := Do(s2, Acquire(0));
    assert DOUBLING[0..] == DOUBLING;
  }

  lemma {:induction false} SendStores() returns (r: State)
    ensures Reach(Initial(0), DOUBLING) == Reach(r, DOUBLING[4..])
    ensures 0 in r.heap && 1 in r.heap && r.heap[1].payload == Some(7)
    ensures 0 in r.senders && r.senders[0] == Stored(7, 1) && r.head == Some(Head(0, true)) && r.tail == Some(0)
    ensures !r.destroyFlag && r.destroyer.Idle? && r.worker.Off? && r.queued == 0 && 7 !in r.disposals
  {
    hide Reach;
    var s3 := SendLocks();
    ReachStep(s3, DOUBLING, 3);
    r := Do(s3, CheckDestroyed(0));
  }

  lemma {:induction false} SendLinks() returns (r: State)
    ensures Reach(Initial(0), DOUBLING) == Reach(r, DOUBLING[6..])
    ensures 0 in r.heap && 1 in r.heap && r.heap[1].payload == Some(7) && r.heap[0].next == Some(1)
    ensures 0 in r.senders && r.senders[0] == Unlocking(true) && r.tail == Some(0) && r.chain != []
    ensures !r.destroyFlag && r.destroyer.Idle? && r.worker.Off? && r.queued == 0 && 7 !in r.disposals
  {
    hide Reach;
    var s4 := SendStores();
    ReachStep(s4, DOUBLING, 4);
    var s5 := Do(s4, Exchange(0));
    ReachStep(s5, DOUBLING, 5);
    r := Do(s5, Link(0));
  }

  lemma {:induction false} SendRuns() returns (r: State)
    ensures Reach(Initial(0), DOUBLING) == Reach(r, DOUBLING[8..]) && Sent(r)
  {
    hide Reach;
    var s6 := SendLinks();
    ReachStep(s6, DOUBLING, 6);
    var s7 := Do(s6, Unlock(0));
    ReachStep(s7, DOUBLING, 7);
    r := Do(s7, Inject(0));
  }

  lemma {:induction false} RunLoads(s: State) returns (r: State)
    requires Sent(s)
    ensures Reach(s, DOUBLING[8..]) == Reach(r, DOUBLING[11..])
    ensures r == s.(queued := 0, worker := Loaded(1, 0, 1))
  {
    hide Reach;
    ReachStep(s, DOUBLING, 8);
    var s9 := Do(s, RunStart(1));
    ReachStep(s9, DOUBLING, 9);
    var s10 := Do(s9, RunTop);
    ReachStep(s10, DOUBLING, 10);
    r := Do(s10, LoadNext);
  }

  lemma {:induction false} RunPops(s: State) returns (r: State)
    requires s.worker == Loaded(1, 0, 1) && s.destroyer.Idle? && 7 !in s.disposals
    requires 0 in s.heap && 1 in s.heap && s.heap[1].payload == Some(7) && s.chain != []
    ensures Reach(s, DOUBLING[11..]) == Reach(r, DOUBLING[13..])
    ensures r.worker.Dispatching? && r.worker.payload == 7 && r.destroyer.Idle? && 7 !in r.disposals
  {
    hide Reach;
    ReachStep(s, DOUBLING, 11);
    var s12 := Do(s, Advance);
    ReachStep(s12, DOUBLING, 12);
    r := Do(s12, FreeOld);
  }

  lemma {:induction false} TurnConsumes(s: State) returns (r: State)
    requires s.worker.Dispatching? && s.worker.payload == 7 && s.destroyer.Idle? && 7 !in s.disposals
    ensures Reach(s, DOUBLING[13..]) == Reach(r, DOUBLING[15..])
    ensures r.destroyFlag && r.worker.Returned? && r.worker.payload == 7 && Count(r.disposals, 7) == 1
  {
    hide Reach;
    ReachStep(s, DOUBLING, 13);
    var s14 := Do(s, DestroyBegin(false));
    ReachStep(s14, DOUBLING, 14);
    r := Do(s14, DispatchEnd(true));
  }

  lemma {:induction false} TurnDoubles(s: State) returns (r: State)
    requires s.worker.Dispatching? && s.worker.payload == 7 && s.destroyer.Idle? && 7 !in s.disposals
    ensures Reach(s, DOUBLING[13..]) == Reached(r) && Count(r.disposals, 7) == 2
  {
    hide Reach;
    var s15 := TurnConsumes(s);
    ReachStep(s15, DOUBLING, 15);
    r := Do(s15, CheckAfter);
    ReachNone(r);
    assert DOUBLING[16..] == [];
  }

  /** Exactly-once fails: the message of that run is disposed of twice. */
  lemma {:induction false} DoublingRun()
    ensures Execute(0, DOUBLING).Reached?
    ensures Count(Execute(0, DOUBLING).state.disposals, 7) == 2
  {
    hide Reach;
    assert [] + DOUBLING == DOUBLING;
    ReachIsExecute(0, [], DOUBLING);
    var s := SendRuns();
    s := RunLoads(s);
    s := RunPops(s);
    s := TurnDoubles(s);
  }
}
