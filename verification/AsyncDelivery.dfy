/** What the asynchronous logger promises over whole runs. */
module AsyncDelivery {
  import opened Options
  import opened MpmcProtocol
  import opened MpmcInvariant
  import opened AsyncQueueSteps
  import opened AsyncLog
  import opened AsyncInvariant
  import opened AsyncPreservation

  ghost predicate IsSysRun(states: seq<Sys>, labels: seq<Label>) {
    && |states| == |labels| + 1
    && InitSys(states[0])
    && forall i | 0 <= i < |labels| :: SysEnabled(states[i], labels[i]) && states[i + 1] == SysStep(states[i], labels[i])
  }

  lemma {:induction false} SysRunKeepsInv(states: seq<Sys>, labels: seq<Label>, j: nat)
    requires IsSysRun(states, labels) && j <= |labels|
    ensures SysInv(states[j])
  {
    if j == 0 {
      InitSysSatisfiesInv(states[0]);
    } else {
      SysRunKeepsInv(states, labels, j - 1);
      SysStepKeepsInv(states[j - 1], labels[j - 1]);
    }
  }

  /** Copying a message into the queue and back changes no field. */
  lemma MessageSurvivesQueue(m: LogMsg)
    ensures FillLogMsg(FromLogMsg(m)) == m && FromLogMsg(m).msgType.Log?
  {
  }

  lemma {:induction false} DeliveredIsPrefix(level: int, puts: seq<Put<AsyncMsg>>, k: nat)
    requires k <= |puts|
    ensures Delivered(level, puts[..k]) <= Delivered(level, puts)
    decreases |puts|
  {
    if k == |puts| {
      assert puts[..k] == puts;
    } else {
      var shorter := puts[..|puts| - 1];
      assert shorter[..k] == puts[..k];
      DeliveredIsPrefix(level, shorter, k);
    }
  }

  lemma SinkSeesAPrefix(w: Worker, l: Local<AsyncMsg>, s: Sink, i: nat, puts: seq<Put<AsyncMsg>>, head: nat)
    requires WorkerFits(w, l, puts, head) && SinkOk(w, s, i, puts)
    ensures LoggedOf(s.events) <= Delivered(s.level, puts)
  {
    DeliveredIsPrefix(s.level, puts, w.done);
    if w.pc.Delivering? {
      OneMoreDone(puts, w.done, s.level);
      DeliveredIsPrefix(s.level, puts, w.done + 1);
    }
  }

  /** Safety at every moment: what a sink has logged is a prefix, in ticket order,
      of the messages in the queue's history that its level admits. */
  lemma SinksSeeAPrefix(states: seq<Sys>, labels: seq<Label>, j: nat, i: nat)
    requires IsSysRun(states, labels) && j <= |labels| && i < |states[j].sinks|
    ensures LoggedOf(states[j].sinks[i].events) <= Delivered(states[j].sinks[i].level, Puts(states[j].q))
  {
    SysRunKeepsInv(states, labels, j);
    var a := LogOf(states[j]);
    SinkSeesAPrefix(a.worker, a.v.threads[WORKER], a.sinks[i], i, a.v.puts, a.v.head);
  }

  /** `puts` is an interleaving of what the callers passed in: each entry is some
      caller's, and each caller's entries are its messages in its order. */
  ghost predicate IsInterleaving(puts: seq<Put<AsyncMsg>>, given: map<Tid, seq<AsyncMsg>>) {
    && (forall t | 0 <= t < |puts| :: puts[t].producer in given)
    && (forall tid | tid in given :: ByProducer(puts, tid) == given[tid])
  }

  /** The worker leaves its loop only when everything is delivered: every message
      passed in (and not discarded by the overflow policy) has been given, fields
      unchanged, exactly once and in ticket order to every sink that admits its
      level, each caller's messages in its order, and every sink was flushed last. */
  lemma ExitMeansEverythingDelivered(states: seq<Sys>, labels: seq<Label>, j: nat)
    requires IsSysRun(states, labels) && j <= |labels| && states[j].worker.pc.Exited?
    ensures var a := states[j];
            && a.q.dequeuePos == a.q.enqueuePos
            && IsInterleaving(Puts(a.q), a.kept) && (a.blockRetry ==> IsInterleaving(Puts(a.q), a.given))
            && (forall i | 0 <= i < |a.sinks| ::
                  && LoggedOf(a.sinks[i].events) == Delivered(a.sinks[i].level, Puts(a.q))
                  && EndsWithFlush(a.sinks[i]))
  {
    SysRunKeepsInv(states, labels, j);
    var a := states[j];
    var puts := Puts(a.q);
    NothingFollowsTerminate(a);
    assert puts[..a.worker.done] == puts;
    forall tid | tid in a.callers
      ensures ByProducer(puts, tid) == a.kept[tid] && (a.blockRetry ==> a.kept[tid] == a.given[tid])
    {
      assert CallerFits(LogOf(a), tid);
    }
    forall i | 0 <= i < |a.sinks|
      ensures LoggedOf(a.sinks[i].events) == Delivered(a.sinks[i].level, puts) && EndsWithFlush(a.sinks[i])
    {
      assert SinkOk(a.worker, a.sinks[i], i, puts);
    }
  }

  lemma NothingFollowsTerminate(a: Sys)
    requires SysInv(a) && a.worker.pc.Exited?
    ensures a.worker.done == |Puts(a.q)| == a.q.dequeuePos == a.q.enqueuePos
    ensures forall tid | tid in a.callers :: InHand(a.callers[tid], a.q.threads[tid]) == []
  {
    var puts := Puts(a.q);
    var t :| 0 <= t < a.worker.done && puts[..a.worker.done][t].item.msgType.Terminate?;
    assert puts[t].item.msgType.Terminate?;
    assert HasTerminate(puts);
  }

  /** The worker leaves its loop only if the destructor's terminate message got a ticket,
      and then it is the last one. */
  lemma ExitNeedsTerminate(states: seq<Sys>, labels: seq<Label>, j: nat)
    requires IsSysRun(states, labels) && j <= |labels| && states[j].worker.pc.Exited?
    ensures var puts := Puts(states[j].q);
            && states[j].destructor.Some? && puts != []
            && puts[|puts| - 1].item.msgType.Terminate?
            && (forall t | 0 <= t < |puts| - 1 :: !puts[t].item.msgType.Terminate?)
  {
    hide Inv, CallersOk, SinksOk;
    SysRunKeepsInv(states, labels, j);
    ExitedHasTerminate(states[j]);
  }

  lemma ExitedHasTerminate(a: Sys)
    requires SysInv(a) && a.worker.pc.Exited?
    ensures HasTerminate(Puts(a.q)) && a.destructor.Some?
  {
    hide Inv, CallersOk, SinksOk;
    var puts := Puts(a.q);
    var t :| 0 <= t < a.worker.done && puts[..a.worker.done][t].item.msgType.Terminate?;
    assert puts[t].item.msgType.Terminate?;
  }

  /** The destructor joins a worker that will never get its terminate message. */
  ghost predicate JoinsForNothing(a: Sys, d: Tid) {
    && a.destructor == Some(d) && d in a.callers && a.callers[d].Joining?
    && !HasTerminate(Puts(a.q))
  }

  /** From then on no caller has anything left to do, and nothing more goes in. */
  lemma StepKeepsJoining(a: Sys, b: Label, d: Tid)
    requires SysInv(a) && SysEnabled(a, b) && JoinsForNothing(a, d)
    ensures JoinsForNothing(SysStep(a, b), d)
  {
    hide Inv, CallersOk, SinksOk, WorkerOk, Step, ReturnAndCall, HasTerminate;
    OnlyWorkerMoves(a, b, d);
    match b
    case QueueAccess(tid, spurious) => AccessIsInside(a.q, tid, spurious);
    case WorkerCallsDequeue => CallIsBoundary(a.q, WORKER, CallDequeue);
    case WorkerTakes => CallIsBoundary(a.q, WORKER, Return);
    case WorkerFindsEmpty(_) => CallIsBoundary(a.q, WORKER, Return);
    case _ =>
  }

  lemma OnlyWorkerMoves(a: Sys, b: Label, d: Tid)
    requires SysInv(a) && SysEnabled(a, b) && JoinsForNothing(a, d)
    ensures match b
            case QueueAccess(tid, _) => tid == WORKER && !HoldsArgument(a.q.threads[tid])
            case WorkerCallsDequeue => true
            case WorkerTakes => true
            case WorkerDelivers => true
            case WorkerFindsEmpty(_) => true
            case WorkerFlushes => true
            case _ => false
  {
    hide Inv, SinksOk, HasTerminate;
    match b
    case QueueAccess(tid, _) =>
      assert tid in a.callers ==> CallerFits(LogOf(a), tid);
    case _ =>
  }

  /** Under the discarding policy the terminate message may be dropped like any other.
      The worker then never leaves its loop, and the destructor waits for ever. */
  lemma {:induction false} DroppedTerminateHangs(states: seq<Sys>, labels: seq<Label>, i: nat, j: nat, d: Tid)
    requires IsSysRun(states, labels) && i < j <= |labels| && labels[i] == PushDropped(d)
    requires d in states[i].callers && states[i].callers[d] == Pushing(DestructorCall)
    ensures JoinsForNothing(states[j], d) && !states[j].worker.pc.Exited?
    decreases j - i
  {
    hide SysInv, SysStep, JoinsForNothing;
    SysRunKeepsInv(states, labels, j - 1);
    SysRunKeepsInv(states, labels, j);
    if j == i + 1 {
      DroppedTerminate(states[i], d);
    } else {
      DroppedTerminateHangs(states, labels, i, j - 1, d);
      StepKeepsJoining(states[j - 1], labels[j - 1], d);
    }
    NeverExits(states[j], d);
  }

  lemma DroppedTerminate(a: Sys, d: Tid)
    requires SysInv(a) && SysEnabled(a, PushDropped(d)) && a.callers[d] == Pushing(DestructorCall)
    ensures JoinsForNothing(SysStep(a, PushDropped(d)), d)
  {
    hide Inv, CallersOk, SinksOk, WorkerOk, Step;
    AfterPushIsBoundary(a.q, d, false);
  }

  lemma NeverExits(a: Sys, d: Tid)
    requires SysInv(a) && JoinsForNothing(a, d)
    ensures !a.worker.pc.Exited?
  {
    hide SysInv, HasTerminate;
    if a.worker.pc.Exited? {
      ExitedHasTerminate(a);
    }
  }

  /** Under block_retry a caller that waits has got its flush message in. */
  predicate WaitersHoldTickets(a: Sys) {
    a.blockRetry ==> forall tid | tid in a.callers && a.callers[tid].Waiting? :: a.callers[tid].ticket.Some?
  }

  lemma StepKeepsTickets(a: Sys, b: Label)
    requires SysEnabled(a, b) && WaitersHoldTickets(a)
    ensures WaitersHoldTickets(SysStep(a, b)) && SysStep(a, b).blockRetry == a.blockRetry
  {
    hide Step, ReturnAndCall;
    match b
    case PushReturns(tid) => assert a.q.threads[tid].ok;
    case PushDropped(tid) => assert !a.blockRetry;
    case _ =>
  }

  lemma {:induction false} RunKeepsTickets(states: seq<Sys>, labels: seq<Label>, j: nat)
    requires IsSysRun(states, labels) && j <= |labels|
    ensures WaitersHoldTickets(states[j])
  {
    if j > 0 {
      RunKeepsTickets(states, labels, j - 1);
      StepKeepsTickets(states[j - 1], labels[j - 1]);
    }
  }

  /** Whenever flush(true) returns, its own flush message has a ticket f, unless the
      discarding policy dropped it, and every log message with a smaller ticket has
      been handed to every sink that admits it. (The sinks' own flush may still be to
      come.) Under block_retry nothing is ever dropped. */
  lemma FlushReturnsAfterDelivery(states: seq<Sys>, labels: seq<Label>, j: nat, tid: Tid)
    requires IsSysRun(states, labels) && j < |labels| && labels[j] == WaitReturns(tid)
    ensures states[j].callers[tid].Waiting?
    ensures states[j].blockRetry ==> states[j].callers[tid].ticket.Some?
    ensures var a := states[j];
            a.callers[tid].ticket.Some? ==>
              var f := a.callers[tid].ticket.value;
              && f < |Puts(a.q)| && Puts(a.q)[f] == Put(tid, Control(Flush))
              && f < a.q.dequeuePos
              && (forall i | 0 <= i < |a.sinks| ::
                    Delivered(a.sinks[i].level, Puts(a.q)[..f]) <= LoggedOf(a.sinks[i].events))
  {
    RunKeepsTickets(states, labels, j);
    assert SysEnabled(states[j], WaitReturns(tid));
    if states[j].callers[tid].ticket.Some? {
      DeliveredBeforeFlush(states, labels, j, tid, states[j].callers[tid].ticket.value);
    }
  }

  lemma DeliveredBeforeFlush(states: seq<Sys>, labels: seq<Label>, j: nat, tid: Tid, f: nat)
    requires IsSysRun(states, labels) && j < |labels| && labels[j] == WaitReturns(tid)
    requires states[j].callers[tid] == Waiting(Some(f))
    ensures var a := states[j];
            && f < |Puts(a.q)| && Puts(a.q)[f] == Put(tid, Control(Flush))
            && f < a.q.dequeuePos
            && (forall i | 0 <= i < |a.sinks| ::
                  Delivered(a.sinks[i].level, Puts(a.q)[..f]) <= LoggedOf(a.sinks[i].events))
  {
    hide CellsOk, OwnersOk, ThreadsOk, DestructorOk;
    SysRunKeepsInv(states, labels, j);
    var a := states[j];
    var puts, w := Puts(a.q), a.worker;
    assert SysEnabled(a, WaitReturns(tid));
    assert CallerFits(LogOf(a), tid);
    ThreadKnows(a.q, tid);
    assert f < a.q.dequeuePos && f <= w.done;
    forall i | 0 <= i < |a.sinks|
      ensures Delivered(a.sinks[i].level, puts[..f]) <= LoggedOf(a.sinks[i].events)
    {
      assert SinkOk(w, a.sinks[i], i, puts);
      assert puts[..w.done][..f] == puts[..f];
      DeliveredIsPrefix(a.sinks[i].level, puts[..w.done], f);
    }
  }

  /** A failed push is tried again with the same message. */
  lemma RetryPushesTheSameMessage(states: seq<Sys>, labels: seq<Label>, j: nat, tid: Tid)
    requires IsSysRun(states, labels) && j < |labels| && labels[j] == PushAgain(tid)
    ensures states[j].callers[tid].Pushing?
    ensures states[j + 1].q.threads[tid].item == Some(MsgOf(states[j].callers[tid].call))
  {
    SysRunKeepsInv(states, labels, j);
    assert SysEnabled(states[j], PushAgain(tid));
    assert CallerFits(LogOf(states[j]), tid);
    var item := states[j].q.threads[tid].item.value;
    ReturnAndCallIsBoundary(states[j].q, tid, CallEnqueue(item));
  }
}
