/** The logging system on the queue as compiled: 64-bit words that wrap. It does what
    the system on unbounded tickets does, so what is proved of the sinks there holds
    here, as long as no position lags its counter by half a word and no approx_size
    call finds the enqueue counter wrapped past the dequeue counter. */
module AsyncWrapped {
  import opened AsyncDelivery
  import opened AsyncInvariant
  import opened AsyncLog
  import opened AsyncQueueSteps
  import opened MachineWords
  import opened MpmcInvariant
  import opened MpmcPreservation
  import opened MpmcProtocol
  import opened MpmcWrapped
  import opened Options

  function WrapCaller(c: Caller): Caller {
    match c
    case Waiting(Some(ticket)) => Waiting(Some(Wrap(ticket)))
    case _ => c
  }

  function WrapCallers(callers: map<Tid, Caller>): map<Tid, Caller> {
    map tid | tid in callers :: WrapCaller(callers[tid])
  }

  function WrapSys(a: Sys): Sys {
    a.(q := WrapState(a.q), callers := WrapCallers(a.callers))
  }

  // ----- the system on words: only accesses to the queue differ

  predicate WordSysEnabled(w: Sys, b: Label) {
    match b
    case QueueAccess(tid, spurious) => WordEnabled(w.q, Move(tid, Access(spurious)))
    case _ => SysEnabled(w, b)
  }

  function WordSysStep(w: Sys, b: Label): Sys
    requires WordSysEnabled(w, b)
  {
    match b
    case QueueAccess(tid, spurious) => w.(q := WordStep(w.q, Move(tid, Access(spurious))))
    case _ => SysStep(w, b)
  }

  // ----- when the words say what the tickets do

  /** Between the two reads of an approx_size call the enqueue counter has not wrapped
      past the dequeue counter. */
  ghost predicate SizeIsExact(l: Local<AsyncMsg>) {
    l.pc.SizeReturn? ==> Wrap(l.pos) + (l.sequence - l.pos) < WORD
  }

  ghost predicate SizesAreExact(q: State<AsyncMsg>) {
    forall tid | tid in q.threads :: SizeIsExact(q.threads[tid])
  }

  /** The dequeue counter was read first. */
  ghost predicate SizeInOrder(l: Local<AsyncMsg>) {
    l.pc.SizeReturn? ==> l.pos <= l.sequence
  }

  ghost predicate SizesInOrder(q: State<AsyncMsg>) {
    forall tid | tid in q.threads :: SizeInOrder(q.threads[tid])
  }

  ghost predicate WordsSuffice(q: State<AsyncMsg>) {
    && SequencesNear(q) && LagsLittle(q) && SizesAreExact(q) && SizesInOrder(q)
    && 2 <= |q.cells| < WORD && IsPowerOfTwo(|q.cells|)
  }

  lemma SizeReadAgrees(q: State<AsyncMsg>, tid: Tid)
    requires SizesAreExact(q) && SizesInOrder(q) && tid in q.threads && q.threads[tid].pc.SizeReturn?
    ensures SizeRead(WrapState(q).threads[tid], |q.cells|) == SizeRead(q.threads[tid], |q.cells|)
  {
    var l := q.threads[tid];
    assert SizeIsExact(l) && SizeInOrder(l);
    ApproxSizeOnWords(l.pos, l.sequence, |q.cells|);
  }

  lemma CallBoundaryAgrees(q: State<AsyncMsg>, m: Move<AsyncMsg>)
    requires WordsSuffice(q) && !m.action.Advance? && !m.action.SpuriousFailure?
    ensures Enabled(WrapState(q), m) <==> Enabled(q, m)
    ensures Enabled(q, m) ==> m.tid in q.threads
    ensures Enabled(q, m) ==> Step(WrapState(q), m) == WrapState(Step(q, m))
  {
    EnabledAgrees(q, m);
    if Enabled(q, m) {
      StepAgrees(q, m);
    }
  }

  lemma ThreadAgrees(q: State<AsyncMsg>, tid: Tid)
    requires tid in q.threads
    ensures var w := WrapState(q);
            && tid in w.threads && w.threads[tid] == WrapLocal(q.threads[tid]) && |w.cells| == |q.cells|
  {
  }

  lemma ThreadsAgree(q: State<AsyncMsg>)
    ensures var w := WrapState(q);
            && w.threads.Keys == q.threads.Keys && |w.cells| == |q.cells|
            && forall tid | tid in q.threads :: w.threads[tid] == WrapLocal(q.threads[tid])
  {
  }

  lemma CallersAgree(a: Sys)
    ensures var w := WrapSys(a);
            && w == a.(q := WrapState(a.q), callers := WrapCallers(a.callers)) && w.callers.Keys == a.callers.Keys
            && forall tid | tid in a.callers :: w.callers[tid] == WrapCaller(a.callers[tid])
  {
  }

  /** The same labels are enabled. */
  lemma SysEnabledAgrees(a: Sys, b: Label)
    requires WordsSuffice(a.q)
    ensures WordSysEnabled(WrapSys(a), b) <==> SysEnabled(a, b)
  {
    hide WordsSuffice, WrapState, Enabled, WordEnabled, WrapSys, SizeRead;
    match b
    case CallerCalls(tid, call) =>
      CallersAgree(a);
      CallBoundaryAgrees(a.q, Move(tid, CallEnqueue(MsgOf(call))));
    case QueueAccess(tid, spurious) =>
      CallersAgree(a);
      AccessAgrees(a.q, Move(tid, Access(spurious)));
    case PushAgain(tid) => PushEndAgrees(a, tid);
    case PushDropped(tid) => PushEndAgrees(a, tid);
    case PushReturns(tid) => PushEndAgrees(a, tid);
    case SizeAgain(tid) => SizeEndAgrees(a, tid);
    case WaitReturns(tid) => SizeEndAgrees(a, tid);
    case _ => WorkerLabelsAgree(a, b);
  }

  lemma WorkerLabelsAgree(a: Sys, b: Label)
    requires WordsSuffice(a.q)
    requires b.WorkerCallsDequeue? || b.WorkerTakes? || b.WorkerDelivers? || b.WorkerFindsEmpty? || b.WorkerFlushes?
    ensures WordSysEnabled(WrapSys(a), b) <==> SysEnabled(a, b)
  {
    hide WordsSuffice, WrapState, Enabled, WordEnabled, WrapSys;
    CallersAgree(a);
    ThreadsAgree(a.q);
    CallBoundaryAgrees(a.q, Move(WORKER, CallDequeue));
    ReturnAgrees(a.q, WORKER);
  }

  lemma PushEndAgrees(a: Sys, tid: Tid)
    requires WordsSuffice(a.q)
    ensures PushFailed(WrapSys(a), tid) <==> PushFailed(a, tid)
    ensures SysEnabled(WrapSys(a), PushReturns(tid)) <==> SysEnabled(a, PushReturns(tid))
    ensures WrapSys(a).blockRetry == a.blockRetry && WrapSys(a).kept == a.kept
  {
    hide WordsSuffice, WrapState, Enabled, WrapSys;
    CallersAgree(a);
    ThreadsAgree(a.q);
    ReturnAgrees(a.q, tid);
  }

  lemma SizeEndAgrees(a: Sys, tid: Tid)
    requires WordsSuffice(a.q)
    ensures SizeReturned(WrapSys(a), tid) <==> SizeReturned(a, tid)
    ensures SizeReturned(a, tid) ==>
              tid in a.q.threads && tid in WrapSys(a).q.threads &&
              SizeRead(WrapSys(a).q.threads[tid], |WrapSys(a).q.cells|) == SizeRead(a.q.threads[tid], |a.q.cells|)
  {
    hide WordsSuffice, WrapState, Enabled, WrapSys, SizeRead;
    CallersAgree(a);
    ThreadsAgree(a.q);
    SizeReturnAgrees(a.q, tid);
  }

  lemma AccessAgrees(q: State<AsyncMsg>, m: Move<AsyncMsg>)
    requires WordsSuffice(q)
    ensures WordEnabled(WrapState(q), m) <==> Enabled(q, m)
  {
    EnabledAgrees(q, m);
  }

  lemma ReturnAgrees(q: State<AsyncMsg>, tid: Tid)
    requires WordsSuffice(q)
    ensures Enabled(WrapState(q), Move(tid, Return)) <==> Enabled(q, Move(tid, Return))
    ensures Enabled(q, Move(tid, Return)) ==> tid in q.threads
  {
    CallBoundaryAgrees(q, Move(tid, Return));
  }

  lemma SizeReturnAgrees(q: State<AsyncMsg>, tid: Tid)
    requires WordsSuffice(q)
    ensures Enabled(WrapState(q), Move(tid, Return)) <==> Enabled(q, Move(tid, Return))
    ensures Enabled(q, Move(tid, Return)) ==> tid in q.threads
    ensures tid in q.threads && q.threads[tid].pc.SizeReturn? ==>
              SizeRead(WrapState(q).threads[tid], |q.cells|) == SizeRead(q.threads[tid], |q.cells|)
  {
    CallBoundaryAgrees(q, Move(tid, Return));
    if tid in q.threads && q.threads[tid].pc.SizeReturn? {
      SizeReadAgrees(q, tid);
    }
  }

  // ----- the same steps are taken

  lemma WrapUpdate(callers: map<Tid, Caller>, tid: Tid, c: Caller)
    ensures WrapCallers(callers[tid := c]) == WrapCallers(callers)[tid := WrapCaller(c)]
  {
  }

  lemma ReturnKeepsWords(q: State<AsyncMsg>, tid: Tid)
    requires WordsSuffice(q) && Enabled(q, Move(tid, Return))
    ensures WordsSuffice(Step(q, Move(tid, Return)))
    ensures var q' := Step(q, Move(tid, Return)); tid in q'.threads && q'.threads[tid].pc.Idle? && |q'.cells| > 0
  {
    var q' := Step(q, Move(tid, Return));
    forall o | o in q'.threads
      ensures SequenceNear(q'.threads[o], q') && LagIsLittle(q'.threads[o], q')
      ensures SizeIsExact(q'.threads[o]) && SizeInOrder(q'.threads[o])
    {
      if o != tid {
        assert SequenceNear(q.threads[o], q) && LagIsLittle(q.threads[o], q);
        assert SizeIsExact(q.threads[o]) && SizeInOrder(q.threads[o]);
      }
    }
  }

  lemma ReturnAndCallAgrees(q: State<AsyncMsg>, tid: Tid, action: Action<AsyncMsg>)
    requires WordsSuffice(q) && Enabled(q, Move(tid, Return)) && (action.CallEnqueue? || action.CallSize?)
    ensures Enabled(WrapState(q), Move(tid, Return))
    ensures ReturnAndCall(WrapState(q), tid, action) == WrapState(ReturnAndCall(q, tid, action))
  {
    hide WordsSuffice, WrapState;
    CallBoundaryAgrees(q, Move(tid, Return));
    ReturnKeepsWords(q, tid);
    CallBoundaryAgrees(Step(q, Move(tid, Return)), Move(tid, action));
  }

  lemma AfterPushAgrees(a: Sys, tid: Tid)
    requires WordsSuffice(a.q) && tid in a.callers && a.callers[tid].Pushing? && Enabled(a.q, Move(tid, Return))
    requires a.q.threads[tid].pc.EnqReturn?
    ensures var w := WrapSys(a);
            && tid in w.callers && w.callers[tid] == a.callers[tid] && Enabled(w.q, Move(tid, Return))
            && AfterPush(w, tid) == WrapSys(AfterPush(a, tid))
  {
    hide WordsSuffice, WrapState, Step, ReturnAndCall;
    CallersAgree(a);
    ThreadsAgree(a.q);
    CallBoundaryAgrees(a.q, Move(tid, Return));
    ReturnAndCallAgrees(a.q, tid, CallSize);
    WrapUpdate(a.callers, tid, NextCaller(a.callers[tid].call, a.q.threads[tid]));
  }

  /** And they lead to the same words. */
  lemma SysStepAgrees(a: Sys, b: Label)
    requires WordsSuffice(a.q) && SysEnabled(a, b)
    ensures WordSysEnabled(WrapSys(a), b)
    ensures WordSysStep(WrapSys(a), b) == WrapSys(SysStep(a, b))
  {
    hide WordsSuffice, WrapState, WrapCallers, Step, WordStep, WordSysEnabled, Enabled, WordEnabled, ReturnAndCall, AfterPush;
    SysEnabledAgrees(a, b);
    CallersAgree(a);
    ThreadsAgree(a.q);
    match b
    case CallerCalls(tid, call) =>
      CallBoundaryAgrees(a.q, Move(tid, CallEnqueue(MsgOf(call))));
      WrapUpdate(a.callers, tid, Pushing(call));
    case QueueAccess(tid, spurious) => QueueAccessAgrees(a.q, Move(tid, Access(spurious)));
    case PushAgain(tid) =>
      ReturnAgrees(a.q, tid);
      ReturnAndCallAgrees(a.q, tid, CallEnqueue(a.q.threads[tid].item.value));
    case PushDropped(tid) => AfterPushAgrees(a.(kept := a.kept[tid := a.kept[tid][..|a.kept[tid]| - 1]]), tid);
    case PushReturns(tid) => AfterPushAgrees(a, tid);
    case SizeAgain(tid) => ReturnAndCallAgrees(a.q, tid, CallSize);
    case WaitReturns(tid) =>
      CallBoundaryAgrees(a.q, Move(tid, Return));
      WrapUpdate(a.callers, tid, Ready);
    case WorkerCallsDequeue => CallBoundaryAgrees(a.q, Move(WORKER, CallDequeue));
    case WorkerTakes => CallBoundaryAgrees(a.q, Move(WORKER, Return));
    case WorkerFindsEmpty(_) => CallBoundaryAgrees(a.q, Move(WORKER, Return));
    case _ =>
  }

  lemma QueueAccessAgrees(q: State<AsyncMsg>, m: Move<AsyncMsg>)
    requires WordsSuffice(q) && Enabled(q, m)
    ensures WordEnabled(WrapState(q), m) && WordStep(WrapState(q), m) == WrapState(Step(q, m))
  {
    StepAgrees(q, m);
  }

  // ----- runs

  /** What every step of the queue keeps besides its invariant. */
  ghost predicate QueueNear(q: State<AsyncMsg>, n: nat) {
    Inv(q) && SequencesNear(q) && SizesInOrder(q) && |q.cells| == n
  }

  lemma StepKeepsQueueNear(q: State<AsyncMsg>, m: Move<AsyncMsg>, n: nat)
    requires QueueNear(q, n) && Enabled(q, m)
    ensures QueueNear(Step(q, m), n)
  {
    hide Inv, Step, SequencesNear;
    var q' := Step(q, m);
    StepKeepsInv(q, m);
    StepKeepsNear(q, m);
    StepKeepsShape(q, m);
    OwnSizeInOrder(q, m);
    forall tid | tid in q'.threads
      ensures SizeInOrder(q'.threads[tid])
    {
      if tid != m.tid {
        assert SizeInOrder(q.threads[tid]);
      }
    }
  }

  lemma OwnSizeInOrder(q: State<AsyncMsg>, m: Move<AsyncMsg>)
    requires Inv(q) && Enabled(q, m) && SizesInOrder(q)
    ensures SizeInOrder(Step(q, m).threads[m.tid])
  {
    hide CellsOk, OwnersOk;
    assert SizeInOrder(q.threads[m.tid]);
    assert ThreadOk(q.threads[m.tid], m.tid, q.tickets, q.dequeuePos, |q.cells|);
  }

  lemma ReturnAndCallKeepsNear(q: State<AsyncMsg>, tid: Tid, action: Action<AsyncMsg>, n: nat)
    requires QueueNear(q, n) && Enabled(q, Move(tid, Return)) && (action.CallEnqueue? || action.CallSize?)
    ensures QueueNear(ReturnAndCall(q, tid, action), n)
  {
    hide QueueNear;
    StepKeepsQueueNear(q, Move(tid, Return), n);
    StepKeepsQueueNear(Step(q, Move(tid, Return)), Move(tid, action), n);
  }

  lemma AfterPushKeepsNear(a: Sys, tid: Tid, n: nat)
    requires QueueNear(a.q, n) && tid in a.callers && a.callers[tid].Pushing? && Enabled(a.q, Move(tid, Return))
    ensures QueueNear(AfterPush(a, tid).q, n)
  {
    hide QueueNear, Step, ReturnAndCall, Enabled;
    StepKeepsQueueNear(a.q, Move(tid, Return), n);
    ReturnAndCallKeepsNear(a.q, tid, CallSize, n);
  }

  lemma ThreadIsThere(q: State<AsyncMsg>, tid: Tid)
    requires Enabled(q, Move(tid, Return))
    ensures tid in q.threads
  {
  }

  lemma SysStepKeepsNear(a: Sys, b: Label, n: nat)
    requires QueueNear(a.q, n) && SysEnabled(a, b)
    ensures QueueNear(SysStep(a, b).q, n)
  {
    hide QueueNear, Step, ReturnAndCall, AfterPush, Enabled;
    match b
    case CallerCalls(tid, call) => StepKeepsQueueNear(a.q, Move(tid, CallEnqueue(MsgOf(call))), n);
    case QueueAccess(tid, spurious) => StepKeepsQueueNear(a.q, Move(tid, Access(spurious)), n);
    case PushAgain(tid) =>
      assert PushFailed(a, tid);
      ThreadIsThere(a.q, tid);
      ReturnAndCallKeepsNear(a.q, tid, CallEnqueue(a.q.threads[tid].item.value), n);
    case PushDropped(tid) => AfterPushKeepsNear(a.(kept := a.kept[tid := a.kept[tid][..|a.kept[tid]| - 1]]), tid, n);
    case PushReturns(tid) => AfterPushKeepsNear(a, tid, n);
    case SizeAgain(tid) => ReturnAndCallKeepsNear(a.q, tid, CallSize, n);
    case WaitReturns(tid) => StepKeepsQueueNear(a.q, Move(tid, Return), n);
    case WorkerCallsDequeue => StepKeepsQueueNear(a.q, Move(WORKER, CallDequeue), n);
    case WorkerTakes => StepKeepsQueueNear(a.q, Move(WORKER, Return), n);
    case WorkerFindsEmpty(_) => StepKeepsQueueNear(a.q, Move(WORKER, Return), n);
    case _ =>
  }

  ghost predicate IsWordSysRun(words: seq<Sys>, labels: seq<Label>) {
    && |words| == |labels| + 1
    && forall i | 0 <= i < |labels| ::
         WordSysEnabled(words[i], labels[i]) && words[i + 1] == WordSysStep(words[i], labels[i])
  }

  /** The same steps on unbounded tickets. */
  ghost function FollowSys(a: Sys, labels: seq<Label>): Sys {
    if labels == [] then a
    else
      var before, b := FollowSys(a, labels[..|labels| - 1]), labels[|labels| - 1];
      if SysEnabled(before, b) then SysStep(before, b) else before
  }

  /** No position lags its counter by half a word, and no approx_size result spans the
      wrap of the enqueue counter alone. */
  ghost predicate NoWrapShows(a: Sys) {
    LagsLittle(a.q) && SizesAreExact(a.q)
  }

  lemma {:induction false} WordSysFollows(words: seq<Sys>, labels: seq<Label>, a: Sys, j: nat)
    requires IsWordSysRun(words, labels) && InitSys(a) && words[0] == WrapSys(a) && j <= |labels|
    requires |a.q.cells| < WORD && IsPowerOfTwo(|a.q.cells|)
    requires forall i | 0 <= i < j :: NoWrapShows(FollowSys(a, labels[..i]))
    ensures var t := FollowSys(a, labels[..j]);
            words[j] == WrapSys(t) && QueueNear(t.q, |a.q.cells|)
    ensures j > 0 ==> SysEnabled(FollowSys(a, labels[..j - 1]), labels[j - 1]) &&
                      FollowSys(a, labels[..j]) == SysStep(FollowSys(a, labels[..j - 1]), labels[j - 1])
  {
    hide WrapSys, SysStep, SysEnabled, WordSysStep, WordSysEnabled, QueueNear, WordsSuffice, NoWrapShows;
    if j == 0 {
      InitIsQueueNear(a);
      assert labels[..0] == [];
    } else {
      WordSysFollows(words, labels, a, j - 1);
      var t, b := FollowSys(a, labels[..j - 1]), labels[j - 1];
      assert labels[..j][..j - 1] == labels[..j - 1] && labels[..j][j - 1] == b;
      WordsDoSuffice(t, |a.q.cells|);
      SysEnabledAgrees(t, b);
      SysStepAgrees(t, b);
      SysStepKeepsNear(t, b, |a.q.cells|);
    }
  }

  lemma WordsDoSuffice(a: Sys, n: nat)
    requires QueueNear(a.q, n) && NoWrapShows(a) && n < WORD && IsPowerOfTwo(n)
    ensures WordsSuffice(a.q)
  {
    hide SequencesNear, LagsLittle, SizesAreExact, SizesInOrder;
    InvHasCells(a.q);
  }

  lemma InitIsQueueNear(a: Sys)
    requires InitSys(a)
    ensures QueueNear(a.q, |a.q.cells|)
  {
    InitSatisfiesInv(a.q);
    InitIsNear(a.q);
  }

  /** Refinement: every run of the logging system on words in which no wrap shows is,
      word for word, a run on unbounded tickets; callers, worker and sinks do the same. */
  lemma WordSysRunsRefine(words: seq<Sys>, labels: seq<Label>, a: Sys) returns (states: seq<Sys>)
    requires IsWordSysRun(words, labels) && InitSys(a) && words[0] == WrapSys(a)
    requires |a.q.cells| < WORD && IsPowerOfTwo(|a.q.cells|)
    requires forall i | 0 <= i <= |labels| :: NoWrapShows(FollowSys(a, labels[..i]))
    ensures IsSysRun(states, labels)
    ensures forall j | 0 <= j <= |labels| :: words[j] == WrapSys(states[j])
  {
    hide WrapSys, SysStep, SysEnabled, WordSysStep, WordSysEnabled, QueueNear, NoWrapShows, InitSys;
    states := seq(|labels| + 1, j requires 0 <= j <= |labels| => FollowSys(a, labels[..j]));
    forall j | 0 <= j <= |labels|
      ensures words[j] == WrapSys(states[j])
    {
      WordSysFollows(words, labels, a, j);
    }
    assert labels[..0] == [];
    forall i | 0 <= i < |labels|
      ensures SysEnabled(states[i], labels[i]) && states[i + 1] == SysStep(states[i], labels[i])
    {
      WordSysFollows(words, labels, a, i + 1);
    }
  }

  /** So on words, too, the worker leaves its loop only when everything is delivered:
      there is one order of the messages kept, each caller's in its own order, in which
      every sink got those it admits. */
  lemma WordExitMeansDelivered(words: seq<Sys>, labels: seq<Label>, a: Sys, j: nat)
    requires IsWordSysRun(words, labels) && InitSys(a) && words[0] == WrapSys(a)
    requires |a.q.cells| < WORD && IsPowerOfTwo(|a.q.cells|)
    requires forall i | 0 <= i <= |labels| :: NoWrapShows(FollowSys(a, labels[..i]))
    requires j <= |labels| && words[j].worker.pc.Exited?
    ensures exists puts ::
              && IsInterleaving(puts, words[j].kept)
              && (words[j].blockRetry ==> IsInterleaving(puts, words[j].given))
              && (forall i | 0 <= i < |words[j].sinks| ::
                    && LoggedOf(words[j].sinks[i].events) == Delivered(words[j].sinks[i].level, puts)
                    && EndsWithFlush(words[j].sinks[i]))
  {
    hide InitSys, NoWrapShows, IsInterleaving, EndsWithFlush;
    var states := WordSysRunsRefine(words, labels, a);
    CallersAgree(states[j]);
    ExitMeansEverythingDelivered(states, labels, j);
    assert IsInterleaving(Puts(states[j].q), words[j].kept);
  }
}
