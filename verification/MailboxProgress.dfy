/**
 What the mailbox gets done: a run delivers the messages it finds, a send arrives, and a
 destruction comes to its end.
 */
module MailboxProgress {
  import opened Entries
  import opened Mailbox
  import opened MailboxSteps
  import opened MailboxRuns

  // ---- one message, with senders in between ----

  predicate WorkerStep(step: Step)
  {
    || step.RunTop? || step.LoadNext? || step.Advance? || step.FreeOld? || step.DispatchEnd? || step.CheckAfter?
    || step.Clean? || step.LoadHead? || step.Cas?
  }

  /** The worker is j steps beyond the top of its loop, on the way to dispatch the k-th
      message pushed. */
  predicate Stage(s: State, j: nat, left: nat, k: nat, p: Payload)
  {
    && left > 0 && k < |s.pushed| && s.pushed[k] == p && !s.destroyFlag
    && match j
       case 0 => s.worker == Top(left) && |s.popped| == k && Next(s).Some?
       case 1 => s.worker == Popping(left) && |s.popped| == k && Next(s).Some?
       case 2 => s.worker.Loaded? && s.worker.left == left && |s.popped| == k
       case 3 => s.worker.Freeing? && s.worker.left == left && s.worker.payload == p && |s.popped| == k + 1
       case _ =>
         j == 4 && s.worker.Dispatching? && s.worker.left == left - 1 && s.worker.payload == p && |s.popped| == k + 1
  }

  /** A node of a sender that is not in the queue yet is not the sentinel. */
  lemma PrivateApart(s: State, t: Thread)
    requires Inv(s) && t in s.senders && Private(s.senders[t]) && Next(s).Some?
    ensures s.senders[t].node != s.tail.value
  {
    hide FifoInv, WorkerInv, SenderOwnInv, QueueOwnInv, WorkerOwnInv, CountInv, TokenInv, WakerInv, DestroyInv, LockInv;
    assert s.tail.value == s.chain[0];
  }

  /** A sender links behind the sentinel only when nothing is linked there. */
  lemma LinkApart(s: State, t: Thread)
    requires Ready(s, Link(t)) && Next(s).Some?
    ensures s.senders[t].prev != s.tail.value
  {
    hide FifoInv, WorkerInv, SenderOwnInv, QueueOwnInv, WorkerOwnInv, CountInv, TokenInv, WakerInv, DestroyInv;
    hide PrivateInv;
    assert Half(s.lock, s.senders) == Some(s.senders[t]);
    assert s.heap[s.chain[0]].next == LinkAt(s.chain, true, 0);
  }

  /** The link to the next message is not taken back. */
  lemma {:induction false} SenderKeepsNext(s: State, step: Step)
    requires Ready(s, step) && SenderStep(step) && Next(s).Some?
    ensures Next(Do(s, step)) == Next(s)
  {
    hide Do, Safe, Inv, Next;
    match step
    case CheckFlag(_, _) => NewKeepsNext(s, step);
    case CheckDestroyed(t) =>
      PrivateApart(s, t);
      NewKeepsNext(s, step);
    case Refuse(t) =>
      PrivateApart(s, t);
      NewKeepsNext(s, step);
    case Link(t) =>
      LinkApart(s, t);
      NewKeepsNext(s, step);
    case _ => OldKeepsNext(s, step);
  }

  lemma OldKeepsNext(s: State, step: Step)
    requires Enabled(s, step) && Safe(s, step)
    requires step.Send? || step.Acquire? || step.Exchange? || step.Unlock? || step.Inject?
    ensures Next(Do(s, step)) == Next(s)
  {
  }

  lemma NewKeepsNext(s: State, step: Step)
    requires Enabled(s, step) && Safe(s, step) && Next(s).Some?
    requires step.CheckFlag? || step.CheckDestroyed? || step.Refuse? || step.Link?
    requires (step.CheckDestroyed? || step.Refuse?) ==> s.senders[step.t].node != s.tail.value
    requires step.Link? ==> s.senders[step.t].prev != s.tail.value
    ensures Next(Do(s, step)) == Next(s)
  {
  }

  predicate WorkerSame(s: State, r: State)
  {
    r.worker == s.worker && r.popped == s.popped && r.destroyFlag == s.destroyFlag && s.pushed <= r.pushed
  }

  lemma {:induction false} SenderLeavesWorker(s: State, step: Step)
    requires Enabled(s, step) && Safe(s, step) && SenderStep(step)
    ensures WorkerSame(s, Do(s, step))
  {
    hide Do, Safe, Enabled, WorkerSame;
    if step.Send? || step.Acquire? || step.Exchange? || step.Unlock? || step.Inject? {
      OldLeavesWorker(s, step);
    } else {
      NewLeavesWorker(s, step);
    }
  }

  lemma OldLeavesWorker(s: State, step: Step)
    requires Enabled(s, step) && Safe(s, step)
    requires step.Send? || step.Acquire? || step.Exchange? || step.Unlock? || step.Inject?
    ensures WorkerSame(s, Do(s, step))
  {
  }

  lemma NewLeavesWorker(s: State, step: Step)
    requires Enabled(s, step) && Safe(s, step)
    requires step.CheckFlag? || step.CheckDestroyed? || step.Refuse? || step.Link?
    ensures WorkerSame(s, Do(s, step))
  {
  }

  lemma {:induction false} SenderKeepsStage(s: State, step: Step, j: nat, left: nat, k: nat, p: Payload)
    requires Ready(s, step) && SenderStep(step) && Stage(s, j, left, k, p)
    ensures Stage(Do(s, step), j, left, k, p)
  {
    hide Do, Inv, Next, Enabled, Safe;
    SenderLeavesWorker(s, step);
    if j <= 1 {
      SenderKeepsNext(s, step);
    }
  }

  /** Each step of the worker takes it one stage on. */
  lemma {:induction false} WorkerAdvances(s: State, step: Step, j: nat, left: nat, k: nat, p: Payload)
    requires Ready(s, step) && WorkerStep(step) && j < 4 && Stage(s, j, left, k, p)
    ensures Stage(Do(s, step), j + 1, left, k, p)
  {
    hide Inv, Do, Safe;
    if j == 0 {
      TopAdvances(s, left, k, p);
    } else if j == 1 {
      NextAdvances(s, left, k, p);
    } else if j == 2 {
      PopAdvances(s, left, k, p);
    } else {
      FreeAdvances(s, left, k, p);
    }
  }

  lemma TopAdvances(s: State, left: nat, k: nat, p: Payload)
    requires Enabled(s, RunTop) && Stage(s, 0, left, k, p)
    ensures Stage(Do(s, RunTop), 1, left, k, p)
  {
  }

  lemma NextAdvances(s: State, left: nat, k: nat, p: Payload)
    requires Enabled(s, LoadNext) && Safe(s, LoadNext) && Stage(s, 1, left, k, p)
    ensures Stage(Do(s, LoadNext), 2, left, k, p)
  {
  }

  lemma PopAdvances(s: State, left: nat, k: nat, p: Payload)
    requires Ready(s, Advance) && Stage(s, 2, left, k, p)
    ensures Stage(Do(s, Advance), 3, left, k, p)
  {
    hide LockInv, PrivateInv, SenderOwnInv, QueueOwnInv, WorkerOwnInv, CountInv, TokenInv, WakerInv, DestroyInv;
    assert s.heap[s.chain[1]].payload == Some(s.pushed[|s.popped|]);
  }

  lemma FreeAdvances(s: State, left: nat, k: nat, p: Payload)
    requires Enabled(s, FreeOld) && Safe(s, FreeOld) && Stage(s, 3, left, k, p)
    ensures Stage(Do(s, FreeOld), 4, left, k, p)
  {
  }

  function WorkerSteps(steps: seq<Step>): nat
  {
    if steps == [] then 0 else WorkerSteps(steps[..|steps| - 1]) + if WorkerStep(steps[|steps| - 1]) then 1 else 0
  }

  lemma {:induction false} StageReached(n: NodeId, steps: seq<Step>, more: seq<Step>, left: nat, k: nat, p: Payload)
    requires Execute(n, steps).Reached? && Stage(Execute(n, steps).state, 0, left, k, p)
    requires Execute(n, steps + more).Reached? && WorkerSteps(more) <= 4
    requires forall i | 0 <= i < |more| :: SenderStep(more[i]) || WorkerStep(more[i])
    ensures Stage(Execute(n, steps + more).state, WorkerSteps(more), left, k, p)
  {
    hide Stage, Do, Enabled, Safe, Inv, SenderStep, WorkerStep;
    if more == [] {
      assert steps + more == steps;
    } else {
      var init, step := more[..|more| - 1], more[|more| - 1];
      assert (steps + more)[..|steps + more| - 1] == steps + init;
      StageReached(n, steps, init, left, k, p);
      var s := Execute(n, steps + init).state;
      ExecuteKeepsInv(n, steps + init);
      if WorkerStep(step) {
        WorkerAdvances(s, step, WorkerSteps(init), left, k, p);
      } else {
        SenderKeepsStage(s, step, WorkerSteps(init), left, k, p);
      }
    }
  }

  /** In every interleaving: a worker at the top of its loop, with messages left in its
      batch, no DESTROY and a message linked behind the sentinel, dispatches the oldest
      message that was not popped yet with its fourth step, whatever senders do in
      between. */
  lemma {:induction false} RunDelivers(n: NodeId, steps: seq<Step>, more: seq<Step>)
    requires Execute(n, steps).Reached? && Execute(n, steps + more).Reached?
    requires var s := Execute(n, steps).state;
             s.worker.Top? && s.worker.left > 0 && !s.destroyFlag && Next(s).Some?
    requires forall i | 0 <= i < |more| :: SenderStep(more[i]) || WorkerStep(more[i])
    requires WorkerSteps(more) == 4
    ensures var s, r := Execute(n, steps).state, Execute(n, steps + more).state;
            && |s.popped| < |s.pushed| && r.popped == s.popped + [s.pushed[|s.popped|]]
            && r.worker.Dispatching? && r.worker.payload == s.pushed[|s.popped|]
            && r.worker.left == s.worker.left - 1
  {
    hide Do, Execute, SenderStep, WorkerStep, WorkerSteps, Inv;
    ExecuteKeepsInv(n, steps);
    ExecuteKeepsInv(n, steps + more);
    var s, r := Execute(n, steps).state, Execute(n, steps + more).state;
    NextIsPending(s);
    StageReached(n, steps, more, s.worker.left, |s.popped|, s.pushed[|s.popped|]);
    PoppedPrefix(s);
    PoppedPrefix(r);
    PushedGrows(n, steps, more);
    assert r.popped == r.pushed[..|s.popped| + 1];
  }

  lemma PoppedPrefix(s: State)
    requires Inv(s)
    ensures |s.popped| <= |s.pushed| && s.popped == s.pushed[..|s.popped|]
  {
    hide LockInv, PrivateInv, SenderOwnInv, QueueOwnInv, WorkerOwnInv, CountInv, TokenInv, WakerInv, DestroyInv;
  }

  lemma NextIsPending(s: State)
    requires Inv(s) && Next(s).Some?
    ensures |s.popped| < |s.pushed| && |s.chain| > 1 && s.tail == Some(s.chain[0]) && Next(s) == Some(s.chain[1])
    ensures s.chain[0] in s.heap && s.chain[1] in s.heap && s.chain[0] != s.chain[1]
    ensures s.heap[s.chain[1]].payload == Some(s.pushed[|s.popped|])
  {
    hide LockInv, PrivateInv, SenderOwnInv, QueueOwnInv, WorkerOwnInv, CountInv, TokenInv, WakerInv;
    assert s.heap[s.chain[0]].next == LinkAt(s.chain, Half(s.lock, s.senders).Some?, 0);
  }

  lemma {:induction false} PushedGrows(n: NodeId, steps: seq<Step>, more: seq<Step>)
    requires Execute(n, steps).Reached? && Execute(n, steps + more).Reached?
    requires forall i | 0 <= i < |more| :: SenderStep(more[i]) || WorkerStep(more[i])
    ensures Execute(n, steps).state.pushed <= Execute(n, steps + more).state.pushed
  {
    hide Do, Enabled, Safe;
    if more == [] {
      assert steps + more == steps;
    } else {
      var init, step := more[..|more| - 1], more[|more| - 1];
      assert (steps + more)[..|steps + more| - 1] == steps + init;
      PushedGrows(n, steps, init);
      StepPushes(Execute(n, steps + init).state, step);
    }
  }

  lemma StepPushes(s: State, step: Step)
    requires Enabled(s, step) && Safe(s, step) && (SenderStep(step) || WorkerStep(step))
    ensures s.pushed <= Do(s, step).pushed
  {
    hide Do, Safe;
    if SenderStep(step) {
      SenderLeavesWorker(s, step);
    } else {
      WorkerPushes(s, step);
    }
  }

  lemma WorkerPushes(s: State, step: Step)
    requires Enabled(s, step) && Safe(s, step) && WorkerStep(step)
    ensures Do(s, step).pushed == s.pushed
  {
    hide Do, Safe;
    match step
    case RunTop => TopPushes(s);
    case LoadNext => NextPushes(s);
    case LoadHead => MarkPushes(s);
    case Cas => CasPushes(s);
    case _ => TurnPushes(s, step);
  }

  lemma TopPushes(s: State)
    requires Enabled(s, RunTop)
    ensures Do(s, RunTop).pushed == s.pushed
  {
  }

  lemma NextPushes(s: State)
    requires Enabled(s, LoadNext) && Safe(s, LoadNext)
    ensures Do(s, LoadNext).pushed == s.pushed
  {
    hide Next;
  }

  lemma MarkPushes(s: State)
    requires Enabled(s, LoadHead) && Safe(s, LoadHead)
    ensures Do(s, LoadHead).pushed == s.pushed
  {
  }

  lemma CasPushes(s: State)
    requires Enabled(s, Cas) && Safe(s, Cas)
    ensures Do(s, Cas).pushed == s.pushed
  {
  }

  lemma TurnPushes(s: State, step: Step)
    requires Enabled(s, step) && Safe(s, step)
    requires step.Advance? || step.FreeOld? || step.DispatchEnd? || step.CheckAfter? || step.Clean?
    ensures Do(s, step).pushed == s.pushed
  {
    hide Dispose, Advanced;
  }

  // ---- whole batches, with nobody else stepping ----

  /** Pop one message, dispatch it and clean up. */
  function Turn(consume: bool): seq<Step>
  {
    [RunTop, LoadNext, Advance, FreeOld, DispatchEnd(consume), CheckAfter, Clean]
  }

  function Turns(consume: seq<bool>): seq<Step>
  {
    if consume == [] then [] else Turn(consume[0]) + Turns(consume[1..])
  }

  lemma {:induction false} ReachConcat(s: State, a: seq<Step>, b: seq<Step>)
    requires Reach(s, a).Reached?
    ensures Reach(s, a + b) == Reach(Reach(s, a).state, b)
    decreases |a|
  {
    hide Enabled, Safe, Do;
    if a == [] {
      assert a + b == b;
    } else {
      assert (a + b)[1..] == a[1..] + b;
      ReachConcat(Do(s, a[0]), a[1..], b);
    }
  }

  /** One step from a state in order. */
  lemma ReachOne(s: State, step: Step)
    requires Inv(s) && Enabled(s, step)
    ensures Safe(s, step) && Reach(s, [step]) == Reached(Do(s, step)) && Inv(Do(s, step))
  {
    StepIsSafe(s, step);
    StepKeepsInv(s, step);
    hide Enabled, Safe, Do, Inv;
    assert [step][1..] == [];
  }

  lemma ReachMore(s: State, steps: seq<Step>, step: Step)
    requires Reach(s, steps).Reached? && Inv(Reach(s, steps).state) && Enabled(Reach(s, steps).state, step)
    ensures Safe(Reach(s, steps).state, step)
    ensures Reach(s, steps + [step]) == Reached(Do(Reach(s, steps).state, step))
    ensures Inv(Do(Reach(s, steps).state, step))
  {
    hide Enabled, Safe, Do, Inv, Reach;
    ReachOne(Reach(s, steps).state, step);
    ReachConcat(s, steps, [step]);
  }

  /** Nobody but the worker and the queue is affected. */
  predicate Apart(s: State, r: State)
  {
    && r.head == s.head && r.lock == s.lock && r.senders == s.senders && r.destroyer == s.destroyer
    && r.destroyFlag == s.destroyFlag && r.queued == s.queued && r.waker == s.waker && r.pushed == s.pushed
  }

  /** From the top of the loop to the dispatch. */
  lemma {:induction false} PopsOne(s: State) returns (r: State)
    requires Inv(s) && s.destroyer.Idle? && s.worker.Top? && s.worker.left > 0 && Next(s).Some?
    ensures |s.popped| < |s.pushed| && |s.chain| > 1
    ensures Reach(s, [RunTop, LoadNext, Advance, FreeOld]) == Reached(r) && Inv(r) && Apart(s, r)
    ensures r.worker == Dispatching(s.worker.left - 1, s.chain[1], s.pushed[|s.popped|])
    ensures r.popped == s.popped + [s.pushed[|s.popped|]] && r.chain == s.chain[1..]
  {
    hide Inv, Reach;
    NextIsPending(s);
    NoFlag(s);
    var steps: seq<Step> := [] + [RunTop];
    ReachNone(s);
    ReachMore(s, [], RunTop);
    var s1 := Do(s, RunTop);
    assert s1 == s.(worker := Popping(s.worker.left));
    ReachMore(s, steps, LoadNext);
    var s2 := Do(s1, LoadNext);
    assert s2 == s.(worker := Loaded(s.worker.left, s.chain[0], s.chain[1]));
    steps := steps + [LoadNext];
    ReachMore(s, steps, Advance);
    var s3 := Do(s2, Advance);
    steps := steps + [Advance];
    ReachMore(s, steps, FreeOld);
    r := Do(s3, FreeOld);
    assert steps + [FreeOld] == [RunTop, LoadNext, Advance, FreeOld];
  }

  lemma NoFlag(s: State)
    requires Inv(s) && s.destroyer.Idle?
    ensures !s.destroyFlag && !s.destroyed && s.tail.Some? && s.head.Some?
  {
    hide LockInv, ChainInv, FifoInv, PrivateInv, SenderOwnInv, QueueOwnInv, WorkerOwnInv, CountInv, TokenInv, WakerInv;
  }

  /** From the dispatch back to the top: the payload is disposed of once. */
  lemma {:induction false} TurnEnds(s: State, consume: bool) returns (r: State)
    requires Inv(s) && s.destroyer.Idle? && s.worker.Dispatching?
    ensures Reach(s, [DispatchEnd(consume), CheckAfter, Clean]) == Reached(r) && Inv(r) && Apart(s, r)
    ensures r.worker == Top(s.worker.left) && r.popped == s.popped && r.chain == s.chain
    ensures Count(r.disposals, s.worker.payload) == Count(s.disposals, s.worker.payload) + 1
  {
    hide Inv, Reach;
    NoFlag(s);
    var w := s.worker;
    var steps: seq<Step> := [] + [DispatchEnd(consume)];
    ReachNone(s);
    ReachMore(s, [], DispatchEnd(consume));
    var s1 := Do(s, DispatchEnd(consume));
    ReachMore(s, steps, CheckAfter);
    var s2 := Do(s1, CheckAfter);
    assert s2 == s1.(worker := Cleaning(w.left, w.node, w.payload, consume));
    steps := steps + [CheckAfter];
    ReachMore(s, steps, Clean);
    r := Do(s2, Clean);
    assert steps + [Clean] == [DispatchEnd(consume), CheckAfter, Clean];
  }

  lemma {:induction false} TurnPops(s: State, consume: bool) returns (r: State)
    requires Inv(s) && s.destroyer.Idle? && s.worker.Top? && s.worker.left > 0 && Next(s).Some?
    ensures |s.popped| < |s.pushed| && |s.chain| > 1
    ensures Reach(s, Turn(consume)) == Reached(r) && Inv(r) && Apart(s, r)
    ensures r.worker == Top(s.worker.left - 1)
    ensures r.popped == s.popped + [s.pushed[|s.popped|]] && r.chain == s.chain[1..]
  {
    hide Inv, Reach, Count;
    var m := PopsOne(s);
    r := TurnEnds(m, consume);
    var a, b := [RunTop, LoadNext, Advance, FreeOld], [DispatchEnd(consume), CheckAfter, Clean];
    ReachConcat(s, a, b);
    assert a + b == Turn(consume);
  }

  /** How many messages are in the queue. */
  function Length(s: State): nat
    requires |s.popped| <= |s.pushed|
  {
    |s.pushed| - |s.popped|
  }

  /** With the lock free every message in the queue is linked. */
  lemma AllLinked(s: State)
    requires Inv(s) && s.destroyer.Idle? && s.lock.Free?
    ensures |s.popped| <= |s.pushed| && |s.chain| == Length(s) + 1
    ensures Next(s).Some? <==> Length(s) > 0
    ensures s.head.Some? && s.tail.Some? && (s.head.value.node == s.tail.value <==> Length(s) == 0)
  {
    hide PrivateInv, SenderOwnInv, QueueOwnInv, WorkerOwnInv, CountInv, TokenInv, WakerInv, WorkerInv;
    assert s.heap[s.chain[0]].next == LinkAt(s.chain, false, 0);
  }

  lemma {:induction false} TurnsPop(s: State, consume: seq<bool>) returns (r: State)
    requires Inv(s) && s.destroyer.Idle? && s.lock.Free? && s.worker.Top? && |consume| <= s.worker.left
    requires |s.popped| + |consume| <= |s.pushed|
    ensures Reach(s, Turns(consume)) == Reached(r) && Inv(r) && Apart(s, r)
    ensures r.worker == Top(s.worker.left - |consume|)
    ensures r.popped == s.pushed[..|s.popped| + |consume|]
    decreases |consume|
  {
    hide Inv, Reach, Turn;
    PoppedPrefix(s);
    if consume == [] {
      r := s;
      ReachNone(s);
    } else {
      AllLinked(s);
      var t := TurnPops(s, consume[0]);
      r := TurnsPop(t, consume[1..]);
      ReachConcat(s, Turn(consume[0]), Turns(consume[1..]));
    }
  }

  /** What a worker does when its batch is spent or it finds nothing more. */
  function Ending(batch: nat, length: nat): seq<Step>
  {
    if batch < length then [RunTop, LoadHead]
    else if batch == length then [RunTop, LoadHead, Cas]
    else [RunTop, LoadNext, LoadHead, Cas]
  }

  /** The end of a run: the actor is queued again if messages are left, and else its
      mailbox is tagged empty. */
  lemma {:induction false} RunEnds(s: State, batch: nat, length: nat) returns (r: State)
    requires Inv(s) && s.destroyer.Idle? && s.lock.Free? && s.worker.Top? && !s.head.value.tagged
    requires |s.popped| <= |s.pushed|
    requires s.worker.left == (if batch < length then 0 else batch - length)
    requires Length(s) == (if batch < length then length - batch else 0)
    ensures Reach(s, Ending(batch, length)) == Reached(r) && Inv(r) && r.worker.Off?
    ensures r.popped == s.popped && r.pushed == s.pushed && r.lock == s.lock && r.senders == s.senders
    ensures r.destroyer == s.destroyer && r.head.Some?
    ensures if batch < length then r.queued == s.queued + 1 && r.head == s.head
            else r.queued == s.queued && r.head.value.tagged
  {
    hide Inv, Reach;
    NoFlag(s);
    AllLinked(s);
    ReachNone(s);
    var steps: seq<Step> := [] + [RunTop];
    ReachMore(s, [], RunTop);
    var t := Do(s, RunTop);
    if batch > length {
      ReachMore(s, steps, LoadNext);
      t := Do(t, LoadNext);
      steps := steps + [LoadNext];
    }
    assert t == s.(worker := MarkLoad);
    ReachMore(s, steps, LoadHead);
    r := Do(t, LoadHead);
    steps := steps + [LoadHead];
    if batch >= length {
      assert r == s.(worker := MarkCas(s.head.value.node));
      ReachMore(s, steps, Cas);
      r := Do(r, Cas);
      steps := steps + [Cas];
    }
    assert steps == Ending(batch, length);
  }

  /** A run of a queued actor, with no send under way and nobody else stepping, pops as
      many messages as its batch allows, the oldest first; if messages are left it is
      queued again, and else its mailbox is tagged empty. */
  lemma {:induction false} BatchRun(s: State, batch: nat, consume: seq<bool>) returns (r: State)
    requires Inv(s) && s.destroyer.Idle? && s.lock.Free? && s.worker.Off? && s.queued == 1 && batch > 0
    requires |s.popped| <= |s.pushed| && |consume| == if batch < Length(s) then batch else Length(s)
    ensures Reach(s, [RunStart(batch)] + Turns(consume) + Ending(batch, Length(s))) == Reached(r)
    ensures Inv(r) && r.worker.Off? && r.destroyer.Idle? && r.lock.Free? && r.head.Some?
    ensures r.pushed == s.pushed && r.popped == s.pushed[..|s.popped| + |consume|]
    ensures if batch < Length(s) then r.queued == 1 else r.queued == 0 && r.head.value.tagged
  {
    hide Inv, Reach, Turns, Ending;
    Untagged(s);
    ReachNone(s);
    ReachMore(s, [], RunStart(batch));
    assert [] + [RunStart(batch)] == [RunStart(batch)];
    var s1 := Do(s, RunStart(batch));
    assert s1 == s.(queued := 0, worker := Top(batch));
    var s2 := TurnsPop(s1, consume);
    r := RunEnds(s2, batch, Length(s));
    ReachConcat(s, [RunStart(batch)], Turns(consume));
    ReachConcat(s, [RunStart(batch)] + Turns(consume), Ending(batch, Length(s)));
  }

  lemma Untagged(s: State)
    requires Inv(s) && s.destroyer.Idle? && s.queued == 1
    ensures s.head.Some? && !s.head.value.tagged
  {
    hide LockInv, ChainInv, FifoInv, PrivateInv, SenderOwnInv, QueueOwnInv, WorkerOwnInv, CountInv, WakerInv;
  }

  /** So runs of any batch size deliver everything in the end. */
  lemma {:induction false} RunsDeliverAll(s: State, batch: nat) returns (steps: seq<Step>, r: State)
    requires Inv(s) && s.destroyer.Idle? && s.lock.Free? && s.worker.Off? && s.queued == 1 && batch > 0
    ensures Reach(s, steps) == Reached(r) && r.popped == s.pushed && r.pushed == s.pushed
    ensures r.worker.Off? && r.queued == 0 && r.head.Some? && r.head.value.tagged
    decreases |s.pushed| - |s.popped|
  {
    hide Inv, Reach, Turns, Ending;
    PoppedPrefix(s);
    var consume := seq(if batch < Length(s) then batch else Length(s), _ => false);
    r := BatchRun(s, batch, consume);
    steps := [RunStart(batch)] + Turns(consume) + Ending(batch, Length(s));
    if batch < Length(s) {
      var more, t := RunsDeliverAll(r, batch);
      ReachConcat(s, steps, more);
      steps, r := steps + more, t;
    }
  }

  // ---- a send ----

  /** The steps of a send that is not refused. */
  function Sending(t: Thread, p: Payload, node: NodeId, wakes: bool): seq<Step>
  {
    [Send(t, p), CheckFlag(t, node), Acquire(t), CheckDestroyed(t), Exchange(t), Link(t), Unlock(t)]
      + if wakes then [Inject(t)] else []
  }

  /** A send to a live actor: its message is the newest in the queue, linked, and the actor
      is queued if its mailbox was tagged empty. */
  lemma {:induction false} SendArrives(s: State, t: Thread, p: Payload, node: NodeId) returns (r: State)
    requires Inv(s) && s.destroyer.Idle? && s.lock.Free? && s.head.Some?
    requires t !in s.senders && p !in s.owner && node !in s.heap
    ensures Reach(s, Sending(t, p, node, s.head.value.tagged)) == Reached(r) && Inv(r)
    ensures r.pushed == s.pushed + [p] && r.popped == s.popped && r.senders == s.senders && r.lock.Free?
    ensures r.queued == (if s.head.value.tagged then s.queued + 1 else s.queued)
    ensures r.head == Some(Head(node, false)) && r.worker == s.worker && r.destroyer == s.destroyer
  {
    hide Inv, Reach;
    NoFlag(s);
    r := SendLinked(s, t, p, node);
    var steps := [Send(t, p), CheckFlag(t, node), Acquire(t), CheckDestroyed(t), Exchange(t), Link(t)];
    ReachMore(s, steps, Unlock(t));
    var u := Do(r, Unlock(t));
    var all := steps + [Unlock(t)];
    if s.head.value.tagged {
      ReachMore(s, all, Inject(t));
      r := Do(u, Inject(t));
      all := all + [Inject(t)];
      assert s.senders[t := Injecting] - {t} == s.senders;
    } else {
      r := u;
    }
    assert r.senders == s.senders;
    assert all == Sending(t, p, node, s.head.value.tagged);
  }

  lemma {:induction false} SendLinked(s: State, t: Thread, p: Payload, node: NodeId) returns (r: State)
    requires Inv(s) && s.destroyer.Idle? && s.lock.Free? && s.head.Some? && !s.destroyFlag && !s.destroyed
    requires t !in s.senders && p !in s.owner && node !in s.heap
    ensures Reach(s, [Send(t, p), CheckFlag(t, node), Acquire(t), CheckDestroyed(t), Exchange(t), Link(t)])
            == Reached(r)
    ensures Inv(r) && r.senders == s.senders[t := Unlocking(s.head.value.tagged)]
    ensures r.pushed == s.pushed + [p] && r.popped == s.popped && r.queued == s.queued
    ensures r.head == Some(Head(node, false)) && r.worker == s.worker && r.destroyer == s.destroyer
  {
    hide Inv, Reach;
    var s4 := SendStored(s, t, p, node);
    var steps := [Send(t, p), CheckFlag(t, node), Acquire(t), CheckDestroyed(t)];
    ReachMore(s, steps, Exchange(t));
    var s5 := Do(s4, Exchange(t));
    steps := steps + [Exchange(t)];
    ReachMore(s, steps, Link(t));
    r := Do(s5, Link(t));
    assert steps + [Link(t)] == [Send(t, p), CheckFlag(t, node), Acquire(t), CheckDestroyed(t), Exchange(t), Link(t)];
    assert r.senders == s.senders[t := Unlocking(s.head.value.tagged)];
  }

  lemma {:induction false} SendStored(s: State, t: Thread, p: Payload, node: NodeId) returns (r: State)
    requires Inv(s) && s.lock.Free? && !s.destroyFlag && !s.destroyed
    requires t !in s.senders && p !in s.owner && node !in s.heap
    ensures Reach(s, [Send(t, p), CheckFlag(t, node), Acquire(t), CheckDestroyed(t)]) == Reached(r) && Inv(r)
    ensures r == s.(senders := s.senders[t := Stored(p, node)], owner := s.owner[p := WithSender(t)],
                    heap := s.heap[node := Node(Some(p), None)], lock := BySender(t))
  {
    hide Inv, Reach;
    ReachNone(s);
    var steps: seq<Step> := [] + [Send(t, p)];
    ReachMore(s, [], Send(t, p));
    var s1 := Do(s, Send(t, p));
    ReachMore(s, steps, CheckFlag(t, node));
    var s2 := Do(s1, CheckFlag(t, node));
    steps := steps + [CheckFlag(t, node)];
    ReachMore(s, steps, Acquire(t));
    var s3 := Do(s2, Acquire(t));
    steps := steps + [Acquire(t)];
    ReachMore(s, steps, CheckDestroyed(t));
    r := Do(s3, CheckDestroyed(t));
    assert r.senders == s.senders[t := Stored(p, node)];
    assert steps + [CheckDestroyed(t)] == [Send(t, p), CheckFlag(t, node), Acquire(t), CheckDestroyed(t)];
  }

  /** A send to an actor that is being destroyed disposes of its payload. */
  lemma {:induction false} SendRefused(s: State, t: Thread, p: Payload, node: NodeId) returns (r: State)
    requires Inv(s) && s.destroyFlag && t !in s.senders && p !in s.owner && node !in s.heap
    ensures Reach(s, [Send(t, p), CheckFlag(t, node)]) == Reached(r) && Inv(r)
    ensures r.pushed == s.pushed && r.senders == s.senders && p in r.owner && r.owner[p].Gone?
    ensures Count(r.disposals, p) == Count(s.disposals, p) + 1
  {
    hide Inv, Reach;
    ReachNone(s);
    var steps: seq<Step> := [] + [Send(t, p)];
    ReachMore(s, [], Send(t, p));
    var s1 := Do(s, Send(t, p));
    ReachMore(s, steps, CheckFlag(t, node));
    r := Do(s1, CheckFlag(t, node));
    assert s.senders[t := Start(p)] - {t} == s.senders;
    assert steps + [CheckFlag(t, node)] == [Send(t, p), CheckFlag(t, node)];
  }

  // ---- the destruction ----

  function Drains(k: nat): seq<Step>
  {
    seq(k, _ => DrainOne)
  }

  lemma {:induction false} DrainRun(s: State, k: nat) returns (r: State)
    requires Inv(s) && s.destroyer.Draining? && |s.popped| + k <= |s.pushed|
    ensures Reach(s, Drains(k)) == Reached(r) && Inv(r) && r.destroyer == s.destroyer && r.pushed == s.pushed
    ensures r.popped == s.pushed[..|s.popped| + k] && r.worker == s.worker && r.senders == s.senders
  {
    hide Inv, Reach;
    PoppedPrefix(s);
    if k == 0 {
      r := s;
      ReachNone(s);
      assert Drains(0) == [];
    } else {
      var t := DrainRun(s, k - 1);
      DrainLinked(t);
      NextIsPending(t);
      ReachMore(s, Drains(k - 1), DrainOne);
      r := Do(t, DrainOne);
      assert Drains(k - 1) + [DrainOne] == Drains(k);
    }
  }

  /** While the destroyer has the lock every message in the queue is linked. */
  lemma DrainLinked(s: State)
    requires Inv(s) && s.destroyer.Draining?
    ensures |s.popped| <= |s.pushed| && (Next(s).Some? <==> Length(s) > 0)
  {
    hide PrivateInv, SenderOwnInv, QueueOwnInv, WorkerOwnInv, CountInv, TokenInv, WakerInv, WorkerInv;
    assert s.heap[s.chain[0]].next == LinkAt(s.chain, false, 0);
  }

  /** A destruction of an actor that is not running, with the lock free and nobody else
      stepping, comes to its end: every message that was in the queue is popped. */
  lemma {:induction false} DestroyEnds(s: State) returns (r: State)
    requires Inv(s) && s.destroyer.Idle? && s.worker.Off? && s.lock.Free? && |s.popped| <= |s.pushed|
    ensures Reach(s, [DestroyBegin(false), DestroyLock, DestroyMark] + Drains(Length(s)) + [DrainEnd, DestroyUnlock])
            == Reached(r)
    ensures Inv(r) && r.destroyer.Finished? && r.destroyFlag && r.destroyed && r.lock.Free?
    ensures r.popped == s.pushed && r.pushed == s.pushed && r.head.None?
  {
    hide Inv, Reach;
    var open := [DestroyBegin(false), DestroyLock, DestroyMark];
    var s3 := DestroyOpens(s);
    var s4 := DrainRun(s3, Length(s));
    ReachConcat(s, open, Drains(Length(s)));
    var steps := open + Drains(Length(s));
    DrainLinked(s4);
    ReachMore(s, steps, DrainEnd);
    var s5 := Do(s4, DrainEnd);
    ReachMore(s, steps + [DrainEnd], DestroyUnlock);
    r := Do(s5, DestroyUnlock);
    assert steps + [DrainEnd] + [DestroyUnlock] == steps + [DrainEnd, DestroyUnlock];
    Ended(r);
  }

  lemma Ended(s: State)
    requires Inv(s) && s.destroyer.Finished?
    ensures s.destroyFlag && s.destroyed && s.head.None?
  {
    hide LockInv, ChainInv, FifoInv, PrivateInv, SenderOwnInv, QueueOwnInv, WorkerOwnInv, CountInv, TokenInv, WakerInv;
  }

  lemma {:induction false} DestroyOpens(s: State) returns (r: State)
    requires Inv(s) && s.destroyer.Idle? && s.worker.Off? && s.lock.Free?
    ensures Reach(s, [DestroyBegin(false), DestroyLock, DestroyMark]) == Reached(r) && Inv(r)
    ensures r == s.(destroyFlag := true, destroyer := Draining(false), lock := ByDestroyer, destroyed := true)
  {
    hide Inv, Reach;
    ReachNone(s);
    var steps: seq<Step> := [] + [DestroyBegin(false)];
    ReachMore(s, [], DestroyBegin(false));
    var s1 := Do(s, DestroyBegin(false));
    ReachMore(s, steps, DestroyLock);
    var s2 := Do(s1, DestroyLock);
    steps := steps + [DestroyLock];
    ReachMore(s, steps, DestroyMark);
    r := Do(s2, DestroyMark);
    assert steps + [DestroyMark] == [DestroyBegin(false), DestroyLock, DestroyMark];
  }
}
