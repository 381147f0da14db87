/** Every step of the logging system keeps its invariant. */
module AsyncPreservation {
  import opened MpmcProtocol
  import opened MpmcInvariant
  import opened AsyncQueueSteps
  import opened AsyncLog
  import opened AsyncInvariant

  lemma CallerAccessKeepsInv(a: Sys, tid: Tid, spurious: bool)
    requires SysInv(a) && SysEnabled(a, QueueAccess(tid, spurious)) && tid != WORKER
    ensures SysInv(SysStep(a, QueueAccess(tid, spurious)))
  {
    AccessIsInside(a.q, tid, spurious);
    CallerAccessKeeps(LogOf(a), LogOf(SysStep(a, QueueAccess(tid, spurious))), tid);
  }

  lemma QueueAccessKeeps(a: Sys, tid: Tid, spurious: bool)
    requires SysInv(a) && SysEnabled(a, QueueAccess(tid, spurious))
    ensures SysInv(SysStep(a, QueueAccess(tid, spurious)))
  {
    if tid == WORKER {
      AccessIsInside(a.q, tid, spurious);
      WorkerAccessKeeps(LogOf(a), LogOf(SysStep(a, QueueAccess(tid, spurious))));
    } else {
      CallerAccessKeepsInv(a, tid, spurious);
    }
  }

  lemma CallerCallsKeeps(a: Sys, tid: Tid, call: Call)
    requires SysInv(a) && SysEnabled(a, CallerCalls(tid, call))
    ensures SysInv(SysStep(a, CallerCalls(tid, call)))
  {
    CallIsBoundary(a.q, tid, CallEnqueue(MsgOf(call)));
    CallerStartsKeeps(LogOf(a), LogOf(SysStep(a, CallerCalls(tid, call))), tid, call);
  }

  lemma PushAgainKeeps(a: Sys, tid: Tid)
    requires SysInv(a) && SysEnabled(a, PushAgain(tid))
    ensures SysInv(SysStep(a, PushAgain(tid)))
  {
    ReturnAndCallIsBoundary(a.q, tid, CallEnqueue(a.q.threads[tid].item.value));
    PushRetriesKeeps(LogOf(a), LogOf(SysStep(a, PushAgain(tid))), tid);
  }

  lemma KeptIsHistory(a: LogView, tid: Tid)
    requires LogInv(a) && tid in a.callers && !HoldsArgument(a.v.threads[tid])
    ensures a.kept == a.kept[tid := ByProducer(a.v.puts, tid)]
  {
    hide SinksOk, WorkerOk, DestructorOk, HistoryFits;
    assert CallerFits(a, tid);
    assert a.kept[tid] == ByProducer(a.v.puts, tid);
    assert tid in a.kept;
    assert a.kept[tid := a.kept[tid]] == a.kept;
  }

  lemma PushReturnsKeeps(a: Sys, tid: Tid)
    requires SysInv(a) && SysEnabled(a, PushReturns(tid))
    ensures SysInv(AfterPush(a, tid))
  {
    AfterPushIsBoundary(a.q, tid, a.callers[tid].call == FlushCall(true));
    KeptIsHistory(LogOf(a), tid);
    PushEndKeeps(LogOf(a), LogOf(AfterPush(a, tid)), tid);
  }

  lemma PushDroppedKeeps(a: Sys, tid: Tid)
    requires SysInv(a) && SysEnabled(a, PushDropped(tid))
    ensures SysInv(SysStep(a, PushDropped(tid)))
  {
    AfterPushIsBoundary(a.q, tid, a.callers[tid].call == FlushCall(true));
    assert CallerFits(LogOf(a), tid);
    var before := ByProducer(Puts(a.q), tid);
    assert a.kept[tid] == before + [MsgOf(a.callers[tid].call)];
    assert a.kept[tid][..|a.kept[tid]| - 1] == before;
    PushEndKeeps(LogOf(a), LogOf(SysStep(a, PushDropped(tid))), tid);
  }

  lemma SizeAgainKeeps(a: Sys, tid: Tid)
    requires SysInv(a) && SysEnabled(a, SizeAgain(tid))
    ensures SysInv(SysStep(a, SizeAgain(tid)))
  {
    ReturnAndCallIsBoundary(a.q, tid, CallSize);
    assert a.callers == a.callers[tid := a.callers[tid]];
    SizeEndKeeps(LogOf(a), LogOf(SysStep(a, SizeAgain(tid))), tid, a.callers[tid], CalledThread(CallSize));
  }

  lemma WaitReturnsKeeps(a: Sys, tid: Tid)
    requires SysInv(a) && SysEnabled(a, WaitReturns(tid))
    ensures SysInv(SysStep(a, WaitReturns(tid)))
  {
    CallIsBoundary(a.q, tid, Return);
    SizeEndKeeps(LogOf(a), LogOf(SysStep(a, WaitReturns(tid))), tid, Ready, CalledThread(Return));
  }

  lemma WorkerCallsKeeps(a: Sys)
    requires SysInv(a) && SysEnabled(a, WorkerCallsDequeue)
    ensures SysInv(SysStep(a, WorkerCallsDequeue))
  {
    hide Inv, LogInv;
    CallIsBoundary(a.q, WORKER, CallDequeue);
    WorkerTurnsKeeps(LogOf(a), LogOf(SysStep(a, WorkerCallsDequeue)), CalledThread(CallDequeue));
  }

  lemma WorkerFindsEmptyKeeps(a: Sys, intervalElapsed: bool)
    requires SysInv(a) && SysEnabled(a, WorkerFindsEmpty(intervalElapsed))
    ensures SysInv(SysStep(a, WorkerFindsEmpty(intervalElapsed)))
  {
    CallIsBoundary(a.q, WORKER, Return);
    WorkerTurnsKeeps(LogOf(a), LogOf(SysStep(a, WorkerFindsEmpty(intervalElapsed))), CalledThread(Return));
  }

  lemma WorkerTakesKeeps(a: Sys)
    requires SysInv(a) && SysEnabled(a, WorkerTakes)
    ensures SysInv(SysStep(a, WorkerTakes))
  {
    CallIsBoundary(a.q, WORKER, Return);
    ThreadKnows(a.q, WORKER);
    TakeKeeps(LogOf(a), LogOf(SysStep(a, WorkerTakes)));
  }

  /** Every enabled step keeps the invariant. */
  lemma SysStepKeepsInv(a: Sys, b: Label)
    requires SysInv(a) && SysEnabled(a, b)
    ensures SysInv(SysStep(a, b))
  {
    hide LogInv, Inv;
    match b
    case CallerCalls(tid, call) => CallerCallsKeeps(a, tid, call);
    case QueueAccess(tid, spurious) => QueueAccessKeeps(a, tid, spurious);
    case PushAgain(tid) => PushAgainKeeps(a, tid);
    case PushDropped(tid) => PushDroppedKeeps(a, tid);
    case PushReturns(tid) => PushReturnsKeeps(a, tid);
    case SizeAgain(tid) => SizeAgainKeeps(a, tid);
    case WaitReturns(tid) => WaitReturnsKeeps(a, tid);
    case WorkerCallsDequeue => WorkerCallsKeeps(a);
    case WorkerTakes => WorkerTakesKeeps(a);
    case WorkerDelivers => DeliveryKeeps(LogOf(a), LogOf(DeliverStep(a)));
    case WorkerFindsEmpty(intervalElapsed) => WorkerFindsEmptyKeeps(a, intervalElapsed);
    case WorkerFlushes => FlushKeeps(LogOf(a), LogOf(FlushStep(a)));
  }
}
