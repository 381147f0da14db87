/** What a flush message and a terminate message do once they are taken, and that
    nothing else flushes. */
module AsyncFlushes {
  import opened AsyncDelivery
  import opened AsyncInvariant
  import opened AsyncLog
  import opened AsyncQueueSteps
  import opened MpmcInvariant
  import opened MpmcProtocol
  import opened Options

  /** The sink has been flushed behind all that it was to get before ticket f. */
  ghost predicate FlushedBehind(s: Sink, puts: seq<Put<AsyncMsg>>, f: nat) {
    f <= |puts| &&
    exists e: nat :: e < |s.events| && s.events[e].Flushed? && Delivered(s.level, puts[..f]) <= LoggedOf(s.events[..e])
  }

  ghost predicate AllFlushed(sinks: seq<Sink>, puts: seq<Put<AsyncMsg>>, f: nat) {
    forall i | 0 <= i < |sinks| :: FlushedBehind(sinks[i], puts, f)
  }

  predicate AsksForFlush(m: AsyncMsg) {
    m.msgType.Flush? || m.msgType.Terminate?
  }

  // ----- what only grows

  ghost predicate SinksGrow(sinks: seq<Sink>, sinks': seq<Sink>) {
    && |sinks'| == |sinks|
    && forall i | 0 <= i < |sinks| :: sinks'[i].level == sinks[i].level && sinks[i].events <= sinks'[i].events
  }

  ghost predicate Grows(a: Sys, a': Sys) {
    Puts(a.q) <= Puts(a'.q) && a.q.dequeuePos <= a'.q.dequeuePos && SinksGrow(a.sinks, a'.sinks)
  }

  lemma AccessGrows(q: State<AsyncMsg>, tid: Tid, spurious: bool)
    requires Inv(q) && Enabled(q, Move(tid, Access(spurious)))
    ensures var q' := Step(q, Move(tid, Access(spurious))); Puts(q) <= Puts(q') && q.dequeuePos <= q'.dequeuePos
  {
    AccessIsInside(q, tid, spurious);
  }

  lemma CallGrows(q: State<AsyncMsg>, tid: Tid, action: Action<AsyncMsg>)
    requires Inv(q) && Enabled(q, Move(tid, action)) && !action.Advance? && !action.SpuriousFailure?
    ensures var q' := Step(q, Move(tid, action)); Puts(q') == Puts(q) && q'.dequeuePos == q.dequeuePos
  {
    CallIsBoundary(q, tid, action);
  }

  lemma ReturnAndCallGrows(q: State<AsyncMsg>, tid: Tid, action: Action<AsyncMsg>)
    requires Inv(q) && Enabled(q, Move(tid, Return)) && (action.CallEnqueue? || action.CallSize?)
    ensures var q' := ReturnAndCall(q, tid, action); Puts(q') == Puts(q) && q'.dequeuePos == q.dequeuePos
  {
    ReturnAndCallIsBoundary(q, tid, action);
  }

  lemma AfterPushGrows(a: Sys, tid: Tid)
    requires Inv(a.q) && tid in a.callers && a.callers[tid].Pushing? && Enabled(a.q, Move(tid, Return))
    ensures var a' := AfterPush(a, tid);
            Puts(a'.q) == Puts(a.q) && a'.q.dequeuePos == a.q.dequeuePos && a'.sinks == a.sinks && a'.worker == a.worker
  {
    hide Inv, Step, ReturnAndCall, Puts;
    CallGrows(a.q, tid, Return);
    ReturnAndCallGrows(a.q, tid, CallSize);
  }

  predicate IsWorkers(b: Label) {
    b.WorkerCallsDequeue? || b.WorkerTakes? || b.WorkerDelivers? || b.WorkerFindsEmpty? || b.WorkerFlushes?
  }

  lemma SysStepGrows(a: Sys, b: Label)
    requires Inv(a.q) && SysEnabled(a, b)
    ensures Grows(a, SysStep(a, b))
    ensures !IsWorkers(b) ==> SysStep(a, b).worker == a.worker && SysStep(a, b).sinks == a.sinks
  {
    hide Inv, Step, ReturnAndCall, AfterPush, Puts;
    match b
    case CallerCalls(tid, call) => CallGrows(a.q, tid, CallEnqueue(MsgOf(call)));
    case QueueAccess(tid, spurious) => AccessGrows(a.q, tid, spurious);
    case PushAgain(tid) => ReturnAndCallGrows(a.q, tid, CallEnqueue(a.q.threads[tid].item.value));
    case PushDropped(tid) => AfterPushGrows(a.(kept := a.kept[tid := a.kept[tid][..|a.kept[tid]| - 1]]), tid);
    case PushReturns(tid) => AfterPushGrows(a, tid);
    case SizeAgain(tid) => ReturnAndCallGrows(a.q, tid, CallSize);
    case WaitReturns(tid) => CallGrows(a.q, tid, Return);
    case WorkerCallsDequeue => CallGrows(a.q, WORKER, CallDequeue);
    case WorkerTakes => CallGrows(a.q, WORKER, Return);
    case WorkerFindsEmpty(_) => CallGrows(a.q, WORKER, Return);
    case _ =>
  }

  lemma GrowingKeepsFlushed(sinks: seq<Sink>, sinks': seq<Sink>, puts: seq<Put<AsyncMsg>>, puts': seq<Put<AsyncMsg>>, i: nat, f: nat)
    requires SinksGrow(sinks, sinks') && puts <= puts' && i < |sinks| && FlushedBehind(sinks[i], puts, f)
    ensures FlushedBehind(sinks'[i], puts', f)
  {
    var s, s' := sinks[i], sinks'[i];
    var e: nat :| e < |s.events| && s.events[e].Flushed? && Delivered(s.level, puts[..f]) <= LoggedOf(s.events[..e]);
    assert s'.events[..e] == s.events[..e] && puts'[..f] == puts[..f] && s'.events[e] == s.events[e];
  }

  lemma AllStayFlushed(a: Sys, a': Sys, f: nat)
    requires Grows(a, a') && AllFlushed(a.sinks, Puts(a.q), f)
    ensures AllFlushed(a'.sinks, Puts(a'.q), f)
  {
    hide FlushedBehind, Puts;
    forall i | 0 <= i < |a'.sinks|
      ensures FlushedBehind(a'.sinks[i], Puts(a'.q), f)
    {
      GrowingKeepsFlushed(a.sinks, a'.sinks, Puts(a.q), Puts(a'.q), i, f);
    }
  }

  lemma FlushedBehindEarlier(s: Sink, puts: seq<Put<AsyncMsg>>, f: nat, g: nat)
    requires f <= g && FlushedBehind(s, puts, g)
    ensures FlushedBehind(s, puts, f)
  {
    assert puts[..g][..f] == puts[..f];
    DeliveredIsPrefix(s.level, puts[..g], f);
  }

  lemma FlushedNow(s: Sink, puts: seq<Put<AsyncMsg>>, done: nat)
    requires done <= |puts| && LoggedOf(s.events) == Delivered(s.level, puts[..done])
    ensures FlushedBehind(AddEvent(s, Flushed), puts, done)
  {
    var s' := AddEvent(s, Flushed);
    assert s'.events[..|s.events|] == s.events && s'.events[|s.events|].Flushed?;
  }

  // ----- what the worker owes and pays

  /** While the sinks are being flushed, those already flushed have all that was taken. */
  ghost predicate FlushGoesOn(w: Worker, sinks: seq<Sink>, puts: seq<Put<AsyncMsg>>) {
    w.pc.Flushing? ==> forall i | 0 <= i < |sinks| && i < w.pc.next :: FlushedBehind(sinks[i], puts, w.done)
  }

  /** Each message taken that asks for a flush has had it, or will. */
  ghost predicate FlushIsOwed(w: Worker, sinks: seq<Sink>, puts: seq<Put<AsyncMsg>>) {
    forall f: nat | f < w.done && f < |puts| && AsksForFlush(puts[f].item) ::
      w.flushRequested || AllFlushed(sinks, puts, f)
  }

  ghost predicate FlushInv(a: Sys) {
    FlushGoesOn(a.worker, a.sinks, Puts(a.q)) && FlushIsOwed(a.worker, a.sinks, Puts(a.q))
  }

  lemma OthersKeepFlushInv(a: Sys, b: Label)
    requires SysInv(a) && SysEnabled(a, b) && FlushInv(a) && a.worker.done <= |Puts(a.q)|
    requires SysStep(a, b).worker.done == a.worker.done
    requires a.worker.flushRequested ==> SysStep(a, b).worker.flushRequested
    requires SysStep(a, b).worker.pc.Flushing? ==> SysStep(a, b).worker.pc == a.worker.pc || SysStep(a, b).worker.pc.next == 0
    ensures FlushInv(SysStep(a, b))
  {
    hide SysInv, SysStep, FlushedBehind, AllFlushed, SysEnabled, Puts;
    var a' := SysStep(a, b);
    InvOfSys(a);
    SysStepGrows(a, b);
    if a'.worker.pc.Flushing? && a'.worker.pc == a.worker.pc {
      forall i | 0 <= i < |a'.sinks| && i < a'.worker.pc.next
        ensures FlushedBehind(a'.sinks[i], Puts(a'.q), a'.worker.done)
      {
        GrowingKeepsFlushed(a.sinks, a'.sinks, Puts(a.q), Puts(a'.q), i, a.worker.done);
      }
    }
    forall f: nat | f < a'.worker.done && f < |Puts(a'.q)| && AsksForFlush(Puts(a'.q)[f].item)
      ensures a'.worker.flushRequested || AllFlushed(a'.sinks, Puts(a'.q), f)
    {
      assert Puts(a'.q)[f] == Puts(a.q)[f];
      if !a.worker.flushRequested {
        AllStayFlushed(a, a', f);
      }
    }
  }

  lemma InvOfSys(a: Sys)
    requires SysInv(a)
    ensures Inv(a.q) && a.worker.done <= |Puts(a.q)|
  {
    hide CallersOk, SinksOk, DestructorOk;
  }

  lemma TakenMessage(a: Sys)
    requires SysInv(a) && SysEnabled(a, WorkerTakes)
    ensures a.worker.done < |Puts(a.q)| && a.q.threads[WORKER].item == Some(Puts(a.q)[a.worker.done].item)
    ensures a.worker.done < a.q.dequeuePos
  {
    hide CallersOk, SinksOk, DestructorOk;
    ThreadKnows(a.q, WORKER);
  }

  lemma TakeKeepsFlushInv(a: Sys)
    requires SysInv(a) && SysEnabled(a, WorkerTakes) && FlushInv(a)
    ensures FlushInv(SysStep(a, WorkerTakes))
  {
    hide SysInv, FlushedBehind, AllFlushed, Puts, Step;
    var a' := SysStep(a, WorkerTakes);
    InvOfSys(a);
    TakenMessage(a);
    SysStepGrows(a, WorkerTakes);
    SameAfterCall(a, WorkerTakes);
  }

  /** The queue's history after a step that is not an access. */
  lemma SameAfterCall(a: Sys, b: Label)
    requires SysInv(a) && SysEnabled(a, b) && IsWorkers(b)
    ensures Puts(SysStep(a, b).q) == Puts(a.q)
  {
    hide SysInv, Puts, Step, Enabled;
    InvOfSys(a);
    match b
    case WorkerCallsDequeue => CallGrows(a.q, WORKER, CallDequeue);
    case WorkerTakes => CallGrows(a.q, WORKER, Return);
    case WorkerFindsEmpty(_) => CallGrows(a.q, WORKER, Return);
    case _ =>
  }

  lemma DeliveringLog(a: Sys)
    requires SysInv(a) && a.worker.pc.Delivering?
    ensures a.worker.done < |Puts(a.q)| && !AsksForFlush(Puts(a.q)[a.worker.done].item)
  {
    hide CallersOk, SinksOk, DestructorOk, Inv;
  }

  lemma DeliverKeepsFlushInv(a: Sys)
    requires SysInv(a) && a.worker.pc.Delivering? && FlushInv(a)
    ensures FlushInv(DeliverStep(a))
  {
    hide SysInv, FlushedBehind, AllFlushed, Puts;
    var a' := DeliverStep(a);
    InvOfSys(a);
    DeliveringLog(a);
    SysStepGrows(a, WorkerDelivers);
    forall f: nat | f < a'.worker.done && f < |Puts(a.q)| && AsksForFlush(Puts(a.q)[f].item)
      ensures a'.worker.flushRequested || AllFlushed(a'.sinks, Puts(a.q), f)
    {
      if !a.worker.flushRequested {
        AllStayFlushed(a, a', f);
      }
    }
  }

  lemma SinkIsCaughtUp(a: Sys, i: nat)
    requires SysInv(a) && a.worker.pc.Flushing? && i < |a.sinks|
    ensures a.worker.done <= |Puts(a.q)|
    ensures LoggedOf(a.sinks[i].events) == Delivered(a.sinks[i].level, Puts(a.q)[..a.worker.done])
  {
    hide CallersOk, DestructorOk, Inv;
    assert SinkOk(a.worker, a.sinks[i], i, Puts(a.q));
  }

  lemma FlushKeepsFlushInv(a: Sys)
    requires SysInv(a) && a.worker.pc.Flushing? && FlushInv(a)
    ensures FlushInv(FlushStep(a))
    ensures !FlushStep(a).worker.pc.Flushing? ==> AllFlushed(FlushStep(a).sinks, Puts(a.q), a.worker.done)
  {
    hide SysInv, FlushedBehind, Puts;
    var a', next := FlushStep(a), a.worker.pc.next;
    InvOfSys(a);
    SysStepGrows(a, WorkerFlushes);
    forall i | 0 <= i < |a'.sinks| && i <= next
      ensures FlushedBehind(a'.sinks[i], Puts(a.q), a.worker.done)
    {
      if i < next {
        GrowingKeepsFlushed(a.sinks, a'.sinks, Puts(a.q), Puts(a.q), i, a.worker.done);
      } else {
        SinkIsCaughtUp(a, i);
        FlushedNow(a.sinks[i], Puts(a.q), a.worker.done);
      }
    }
    forall f: nat | f < a'.worker.done && f < |Puts(a.q)| && AsksForFlush(Puts(a.q)[f].item)
      ensures a'.worker.flushRequested || AllFlushed(a'.sinks, Puts(a.q), f)
    {
      if !a'.worker.pc.Flushing? {
        EarlierFlushed(a'.sinks, Puts(a.q), f, a.worker.done);
      } else if !a.worker.flushRequested {
        AllStayFlushed(a, a', f);
      }
    }
  }

  lemma EarlierFlushed(sinks: seq<Sink>, puts: seq<Put<AsyncMsg>>, f: nat, g: nat)
    requires f <= g && AllFlushed(sinks, puts, g)
    ensures AllFlushed(sinks, puts, f)
  {
    hide FlushedBehind;
    forall i | 0 <= i < |sinks|
      ensures FlushedBehind(sinks[i], puts, f)
    {
      FlushedBehindEarlier(sinks[i], puts, f, g);
    }
  }

  lemma StepKeepsFlushInv(a: Sys, b: Label)
    requires SysInv(a) && SysEnabled(a, b) && FlushInv(a)
    ensures FlushInv(SysStep(a, b))
  {
    hide SysInv, FlushInv, Step, ReturnAndCall, AfterPush;
    InvOfSys(a);
    SysStepGrows(a, b);
    match b
    case WorkerTakes => TakeKeepsFlushInv(a);
    case WorkerDelivers => DeliverKeepsFlushInv(a);
    case WorkerFlushes => FlushKeepsFlushInv(a);
    case _ => OthersKeepFlushInv(a, b);
  }

  lemma {:induction false} RunKeepsFlushInv(states: seq<Sys>, labels: seq<Label>, j: nat)
    requires IsSysRun(states, labels) && j <= |labels|
    ensures FlushInv(states[j])
  {
    hide SysStep, SysEnabled, SysInv;
    if j == 0 {
      assert states[0].worker == Worker(Top, false, false, 0);
    } else {
      RunKeepsFlushInv(states, labels, j - 1);
      SysRunKeepsInv(states, labels, j - 1);
      StepKeepsFlushInv(states[j - 1], labels[j - 1]);
    }
  }

  // ----- what a flush message does

  /** The worker found the queue empty: all that was claimed has been handled. */
  lemma NothingInHand(a: Sys, interval: bool)
    requires SysInv(a) && SysEnabled(a, WorkerFindsEmpty(interval))
    ensures a.worker.done == a.q.dequeuePos && a.worker.pc.Dequeuing?
    ensures a.worker.terminateRequested <==> exists t :: 0 <= t < a.q.dequeuePos && t < |Puts(a.q)| && Puts(a.q)[t].item.msgType.Terminate?
    ensures a.worker.terminateRequested ==> a.worker.flushRequested
  {
    hide CallersOk, SinksOk, DestructorOk, Inv;
    var puts := Puts(a.q);
    assert forall t | 0 <= t < a.worker.done :: puts[..a.worker.done][t] == puts[t];
  }

  /** The flush for f is done, or the worker is at it. */
  ghost predicate FlushUnderWay(a: Sys, f: nat) {
    AllFlushed(a.sinks, Puts(a.q), f) || (a.worker.pc.Flushing? && f <= a.worker.done)
  }

  lemma StepKeepsUnderWay(a: Sys, b: Label, f: nat)
    requires SysInv(a) && SysEnabled(a, b) && FlushInv(a) && FlushUnderWay(a, f)
    ensures FlushUnderWay(SysStep(a, b), f)
  {
    hide SysInv, FlushInv, AllFlushed, Puts, Step, ReturnAndCall, AfterPush;
    InvOfSys(a);
    SysStepGrows(a, b);
    if AllFlushed(a.sinks, Puts(a.q), f) {
      AllStayFlushed(a, SysStep(a, b), f);
    } else if b.WorkerFlushes? {
      FlushKeepsFlushInv(a);
      if !SysStep(a, b).worker.pc.Flushing? {
        EarlierFlushed(SysStep(a, b).sinks, Puts(a.q), f, a.worker.done);
      }
    }
  }

  lemma {:induction false} RunKeepsUnderWay(states: seq<Sys>, labels: seq<Label>, j: nat, m: nat, f: nat)
    requires IsSysRun(states, labels) && j <= m <= |labels| && FlushUnderWay(states[j], f)
    ensures FlushUnderWay(states[m], f)
    decreases m - j
  {
    hide SysStep, SysEnabled, SysInv, FlushUnderWay, FlushInv;
    if j < m {
      RunKeepsUnderWay(states, labels, j, m - 1, f);
      SysRunKeepsInv(states, labels, m - 1);
      RunKeepsFlushInv(states, labels, m - 1);
      StepKeepsUnderWay(states[m - 1], labels[m - 1], f);
    }
  }

  /** A message that asks for a flush, flush or terminate, gets one. If it has been taken
      when the worker finds the queue empty, then, from when the worker is next out of
      its flushing, every sink has been flushed behind all that it was to get before
      that message. */
  lemma FlushIsServed(states: seq<Sys>, labels: seq<Label>, j: nat, m: nat, f: nat)
    requires IsSysRun(states, labels) && j < m <= |labels| && labels[j].WorkerFindsEmpty?
    requires f < states[j].q.dequeuePos && f < |Puts(states[j].q)| && AsksForFlush(Puts(states[j].q)[f].item)
    requires !states[m].worker.pc.Flushing?
    ensures f <= |Puts(states[m].q)| && Puts(states[m].q)[..f] == Puts(states[j].q)[..f]
    ensures forall i | 0 <= i < |states[m].sinks| :: FlushedBehind(states[m].sinks[i], Puts(states[m].q), f)
  {
    hide SysInv, FlushedBehind, FlushGoesOn, Puts, Step;
    var a, b := states[j], labels[j];
    SysRunKeepsInv(states, labels, j);
    RunKeepsFlushInv(states, labels, j);
    NothingInHand(a, b.intervalElapsed);
    InvOfSys(a);
    SysStepGrows(a, b);
    if !a.worker.flushRequested {
      AllStayFlushed(a, states[j + 1], f);
    }
    RunKeepsUnderWay(states, labels, j + 1, m, f);
    RunGrows(states, labels, j, m);
  }

  lemma {:induction false} RunGrows(states: seq<Sys>, labels: seq<Label>, j: nat, m: nat)
    requires IsSysRun(states, labels) && j <= m <= |labels|
    ensures Puts(states[j].q) <= Puts(states[m].q) && states[j].q.dequeuePos <= states[m].q.dequeuePos
    decreases m - j
  {
    hide SysStep, SysEnabled, SysInv, Puts;
    if j < m {
      RunGrows(states, labels, j, m - 1);
      SysRunKeepsInv(states, labels, m - 1);
      InvOfSys(states[m - 1]);
      SysStepGrows(states[m - 1], labels[m - 1]);
    }
  }

  /** When the flush interval has elapsed and the queue is empty, the same happens without
      being asked, behind all messages taken. */
  lemma IntervalFlushes(states: seq<Sys>, labels: seq<Label>, j: nat, m: nat)
    requires IsSysRun(states, labels) && j < m <= |labels| && labels[j] == WorkerFindsEmpty(true)
    requires !states[m].worker.pc.Flushing?
    ensures var f := states[j].q.dequeuePos;
            forall i | 0 <= i < |states[m].sinks| :: FlushedBehind(states[m].sinks[i], Puts(states[m].q), f)
  {
    hide SysInv, FlushedBehind, FlushGoesOn, FlushIsOwed, Puts, Step;
    SysRunKeepsInv(states, labels, j);
    NothingInHand(states[j], true);
    RunKeepsUnderWay(states, labels, j + 1, m, states[j].q.dequeuePos);
  }

  /** A step adds at most one event, to one sink: a message if the worker is delivering,
      a flush if it is flushing. */
  lemma OneEventAtATime(a: Sys, b: Label, i: nat)
    requires SysEnabled(a, b) && Inv(a.q) && i < |a.sinks|
    ensures var a' := SysStep(a, b);
            && |a'.sinks| == |a.sinks|
            && (a'.sinks[i] == a.sinks[i]
                || (b.WorkerFlushes? && a.worker.pc.Flushing? && i == a.worker.pc.next
                    && a'.sinks[i].events == a.sinks[i].events + [Flushed])
                || (b.WorkerDelivers? && a.worker.pc.Delivering? && i == a.worker.pc.next
                    && a'.sinks[i].events == a.sinks[i].events + [Logged(a.worker.pc.msg)]))
  {
    hide Inv, Step, ReturnAndCall, AfterPush;
    SysStepGrows(a, b);
  }

  /** Only under block_retry is a failed push tried again, and only under the discarding
      policy is its message dropped; then it is not in the queue and not kept. */
  lemma PolicyDecides(states: seq<Sys>, labels: seq<Label>, j: nat, tid: Tid)
    requires IsSysRun(states, labels) && j < |labels|
    ensures labels[j] == PushAgain(tid) ==> states[j].blockRetry
    ensures labels[j] == PushDropped(tid) ==>
              && !states[j].blockRetry && Puts(states[j + 1].q) == Puts(states[j].q)
              && tid in states[j + 1].kept && states[j + 1].kept[tid] == ByProducer(Puts(states[j].q), tid)
  {
    hide Inv, CallersOk, SinksOk, WorkerOk, DestructorOk, Step, Puts;
    SysRunKeepsInv(states, labels, j);
    if labels[j] == PushDropped(tid) {
      InvOfSys(states[j]);
      assert SysEnabled(states[j], labels[j]);
      DroppedIsNotKept(states[j], tid);
    }
  }

  lemma DroppedIsNotKept(a: Sys, tid: Tid)
    requires SysInv(a) && SysEnabled(a, PushDropped(tid))
    ensures var a' := SysStep(a, PushDropped(tid));
            Puts(a'.q) == Puts(a.q) && tid in a'.kept && a'.kept[tid] == ByProducer(Puts(a.q), tid)
  {
    hide Inv, SinksOk, WorkerOk, DestructorOk, Step;
    CallerIsKnown(LogOf(a), tid);
    AfterPushGrows(a.(kept := a.kept[tid := a.kept[tid][..|a.kept[tid]| - 1]]), tid);
  }

  /** In flush(true), from its call to its return. */
  predicate IsFlushing(c: Caller) {
    c == Pushing(FlushCall(true)) || c.Waiting?
  }

  lemma StepKeepsWaiting(a: Sys, b: Label, tid: Tid)
    requires SysEnabled(a, b) && tid in a.callers && IsFlushing(a.callers[tid]) && b != WaitReturns(tid)
    ensures var a' := SysStep(a, b); tid in a'.callers && IsFlushing(a'.callers[tid])
  {
    hide Step, ReturnAndCall, Enabled;
  }

  /** flush(true) comes back only by finding the queue drained: between its call and the
      caller's being ready again lies the return of its wait, of which
      FlushReturnsAfterDelivery says what it means. */
  lemma {:induction false} FlushTrueWaits(states: seq<Sys>, labels: seq<Label>, i: nat, m: nat, tid: Tid)
    requires IsSysRun(states, labels) && i < m <= |labels| && labels[i] == CallerCalls(tid, FlushCall(true))
    ensures tid in states[m].callers
    ensures IsFlushing(states[m].callers[tid]) || exists k :: i < k < m && labels[k] == WaitReturns(tid)
    decreases m - i
  {
    hide SysEnabled, SysStep, IsFlushing;
    if m == i + 1 {
      CallStarts(states[i], tid);
    } else {
      FlushTrueWaits(states, labels, i, m - 1, tid);
      CallersStay(states[m - 1], labels[m - 1]);
      if labels[m - 1] != WaitReturns(tid) && IsFlushing(states[m - 1].callers[tid]) {
        StepKeepsWaiting(states[m - 1], labels[m - 1], tid);
      }
    }
  }

  lemma CallStarts(a: Sys, tid: Tid)
    requires SysEnabled(a, CallerCalls(tid, FlushCall(true)))
    ensures var a' := SysStep(a, CallerCalls(tid, FlushCall(true))); tid in a'.callers && IsFlushing(a'.callers[tid])
  {
    hide Step, Enabled;
  }

  lemma CallersStay(a: Sys, b: Label)
    requires SysEnabled(a, b)
    ensures SysStep(a, b).callers.Keys == a.callers.Keys
  {
    hide Step, ReturnAndCall, Enabled;
  }

  // ----- what a terminate message does

  lemma StepKeepsLeaving(a: Sys, b: Label)
    requires SysEnabled(a, b) && Inv(a.q)
    requires a.worker.pc.Exited? || (a.worker.pc.Flushing? && a.worker.terminateRequested)
    ensures var w := SysStep(a, b).worker;
            (w.pc.Exited? || (w.pc.Flushing? && w.terminateRequested)) && w.done == a.worker.done
  {
    hide Step, ReturnAndCall, AfterPush, Inv;
    SysStepGrows(a, b);
  }

  /** If a terminate message has been taken when the worker finds the queue empty, the
      worker flushes the sinks once more and leaves its loop: it takes nothing else. */
  lemma TerminateIsServed(states: seq<Sys>, labels: seq<Label>, j: nat, m: nat, t: nat)
    requires IsSysRun(states, labels) && j < m <= |labels| && labels[j].WorkerFindsEmpty?
    requires t < states[j].q.dequeuePos && t < |Puts(states[j].q)| && Puts(states[j].q)[t].item.msgType.Terminate?
    ensures states[m].worker.pc.Flushing? || states[m].worker.pc.Exited?
    ensures states[m].q.dequeuePos == states[j].q.dequeuePos
  {
    hide SysInv, SysEnabled, SysStep, Puts;
    RunIsLeaving(states, labels, j, m, t);
    SysRunKeepsInv(states, labels, m);
    SysRunKeepsInv(states, labels, j);
    NothingInHand(states[j], labels[j].intervalElapsed);
    LeavingHandlesNothing(states[m]);
  }

  lemma LeavingHandlesNothing(a: Sys)
    requires SysInv(a) && (a.worker.pc.Exited? || a.worker.pc.Flushing?)
    ensures a.worker.done == a.q.dequeuePos
  {
    hide CallersOk, SinksOk, DestructorOk, Inv;
  }

  lemma {:induction false} RunIsLeaving(states: seq<Sys>, labels: seq<Label>, j: nat, m: nat, t: nat)
    requires IsSysRun(states, labels) && j < m <= |labels| && labels[j].WorkerFindsEmpty?
    requires t < states[j].q.dequeuePos && t < |Puts(states[j].q)| && Puts(states[j].q)[t].item.msgType.Terminate?
    ensures var w := states[m].worker;
            (w.pc.Exited? || (w.pc.Flushing? && w.terminateRequested)) && w.done == states[j].worker.done
    decreases m - j
  {
    hide SysInv, SysEnabled, SysStep;
    if m == j + 1 {
      SysRunKeepsInv(states, labels, j);
      FirstOfLeaving(states[j], labels[j], t);
    } else {
      RunIsLeaving(states, labels, j, m - 1, t);
      SysRunKeepsInv(states, labels, m - 1);
      InvOfSys(states[m - 1]);
      StepKeepsLeaving(states[m - 1], labels[m - 1]);
    }
  }

  lemma FirstOfLeaving(a: Sys, b: Label, t: nat)
    requires SysInv(a) && SysEnabled(a, b) && b.WorkerFindsEmpty?
    requires t < a.q.dequeuePos && t < |Puts(a.q)| && Puts(a.q)[t].item.msgType.Terminate?
    ensures var w := SysStep(a, b).worker; w.pc.Flushing? && w.terminateRequested && w.done == a.worker.done
  {
    hide SysInv, Step;
    NothingInHand(a, b.intervalElapsed);
  }

  // ----- nothing else flushes

  ghost predicate NeverFlushed(a: Sys) {
    && !a.worker.flushRequested && !a.worker.pc.Flushing? && !a.worker.pc.Exited?
    && forall i | 0 <= i < |a.sinks| :: forall e | 0 <= e < |a.sinks[i].events| :: !a.sinks[i].events[e].Flushed?
  }

  lemma StepKeepsUnflushed(a: Sys, b: Label)
    requires SysInv(a) && SysEnabled(a, b) && NeverFlushed(a) && b != WorkerFindsEmpty(true)
    requires b.WorkerTakes? ==> a.worker.done < |Puts(a.q)| ==> !AsksForFlush(Puts(a.q)[a.worker.done].item)
    ensures NeverFlushed(SysStep(a, b))
  {
    hide SysInv, Step, ReturnAndCall, AfterPush, Puts, Enabled;
    InvOfSys(a);
    SysStepGrows(a, b);
    match b
    case WorkerTakes => TakenMessage(a);
    case WorkerFindsEmpty(interval) => NothingInHand(a, interval);
    case _ =>
  }

  /** As long as no message taken asks for a flush and the interval has not elapsed, no
      sink is flushed. */
  lemma NothingFlushesUnasked(states: seq<Sys>, labels: seq<Label>, j: nat)
    requires IsSysRun(states, labels) && j <= |labels|
    requires forall i | 0 <= i < j :: labels[i] != WorkerFindsEmpty(true)
    requires forall f: nat | f < states[j].q.dequeuePos && f < |Puts(states[j].q)| :: !AsksForFlush(Puts(states[j].q)[f].item)
    ensures forall i | 0 <= i < |states[j].sinks| :: Flushed !in states[j].sinks[i].events
  {
    hide SysInv, SysEnabled, SysStep, Puts;
    RunIsUnflushed(states, labels, j);
  }

  lemma {:induction false} RunIsUnflushed(states: seq<Sys>, labels: seq<Label>, j: nat)
    requires IsSysRun(states, labels) && j <= |labels|
    requires forall i | 0 <= i < j :: labels[i] != WorkerFindsEmpty(true)
    requires forall f: nat | f < states[j].q.dequeuePos && f < |Puts(states[j].q)| :: !AsksForFlush(Puts(states[j].q)[f].item)
    ensures NeverFlushed(states[j])
  {
    hide SysInv, SysEnabled, SysStep, Puts, SinksGrow;
    if j == 0 {
      assert states[0].worker == Worker(Top, false, false, 0);
    } else {
      var a, b := states[j - 1], labels[j - 1];
      RunGrows(states, labels, j - 1, j);
      RunIsUnflushed(states, labels, j - 1);
      SysRunKeepsInv(states, labels, j - 1);
      if b.WorkerTakes? {
        TakenMessage(a);
      }
      StepKeepsUnflushed(a, b);
    }
  }

  // ----- what a sink is to get

  /** An entry of the queue's history that carries m. */
  predicate Carries(puts: seq<Put<AsyncMsg>>, m: LogMsg) {
    exists t :: 0 <= t < |puts| && puts[t].item == MsgFor(m)
  }

  /** The messages for a sink are exactly the log messages at or above its level, fields
      unchanged. */
  lemma {:induction false} DeliveredIff(level: int, puts: seq<Put<AsyncMsg>>, m: LogMsg)
    ensures m in Delivered(level, puts) <==> Carries(puts, m) && m.level >= level
  {
    hide Carries;
    if puts != [] {
      var front, last := puts[..|puts| - 1], puts[|puts| - 1].item;
      DeliveredIff(level, front, m);
      LastDelivered(level, last, m);
      LastCarries(puts, m);
      assert Delivered(level, puts) == Delivered(level, front) + ForLevel(level, last);
    } else {
      NothingCarries(m);
    }
  }

  function ForLevel(level: int, last: AsyncMsg): seq<LogMsg> {
    if last.msgType.Log? && last.level >= level then [FillLogMsg(last)] else []
  }

  lemma LastDelivered(level: int, last: AsyncMsg, m: LogMsg)
    ensures m in ForLevel(level, last) <==> last == MsgFor(m) && m.level >= level
  {
  }

  lemma NothingCarries(m: LogMsg)
    ensures !Carries([], m)
  {
  }

  lemma LastCarries(puts: seq<Put<AsyncMsg>>, m: LogMsg)
    requires puts != []
    ensures Carries(puts, m) <==> Carries(puts[..|puts| - 1], m) || puts[|puts| - 1].item == MsgFor(m)
  {
    var front := puts[..|puts| - 1];
    if Carries(puts, m) {
      var t :| 0 <= t < |puts| && puts[t].item == MsgFor(m);
      assert t < |front| ==> front[t].item == MsgFor(m);
    }
    if Carries(front, m) {
      var t :| 0 <= t < |front| && front[t].item == MsgFor(m);
      assert puts[t].item == MsgFor(m);
    }
  }

  /** The queue entry that carries m. */
  function MsgFor(m: LogMsg): AsyncMsg {
    AsyncMsg(m.loggerName, m.level, m.time, m.threadId, m.raw, Log)
  }
}
