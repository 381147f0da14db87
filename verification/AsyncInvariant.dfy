/** What every step of the logging system keeps. The invariant is stated on what
    callers, worker and sinks can see of the queue: their own locals, the history
    of puts and the dequeue counter. */
module AsyncInvariant {
  import opened Options
  import opened MpmcProtocol
  import opened MpmcInvariant
  import opened AsyncQueueSteps
  import opened AsyncLog

  datatype View = View(threads: map<Tid, Local<AsyncMsg>>, puts: seq<Put<AsyncMsg>>, head: nat)

  datatype LogView = LogView(
    v: View, callers: map<Tid, Caller>, worker: Worker, sinks: seq<Sink>, destructor: Option<Tid>,
    blockRetry: bool, given: map<Tid, seq<AsyncMsg>>, kept: map<Tid, seq<AsyncMsg>>)

  function ViewOf(q: State<AsyncMsg>): View {
    View(q.threads, Puts(q), q.dequeuePos)
  }

  function LogOf(a: Sys): LogView {
    LogView(ViewOf(a.q), a.callers, a.worker, a.sinks, a.destructor, a.blockRetry, a.given, a.kept)
  }

  // ----- the invariant

  ghost predicate ThreadsMatch(a: LogView) {
    && WORKER !in a.callers && a.v.threads.Keys == a.callers.Keys + {WORKER}
    && a.given.Keys == a.callers.Keys && a.kept.Keys == a.callers.Keys
  }

  /** The queue call a caller is in fits what it is doing, and the ticket it was
      given carries its message. */
  ghost predicate CallerOk(c: Caller, l: Local<AsyncMsg>, tid: Tid, puts: seq<Put<AsyncMsg>>) {
    match c
    case Ready => l.pc.Idle?
    case Joining => l.pc.Idle?
    case Pushing(call) =>
      && InEnqueue(l)
      && (if HoldsArgument(l) then l.item == Some(MsgOf(call))
          else l.pos < |puts| && puts[l.pos] == Put(tid, MsgOf(call)))
    case Waiting(ticket) =>
      && InSize(l)
      && (ticket.Some? ==>
            && ticket.value < |puts| && puts[ticket.value] == Put(tid, Control(Flush))
            && (l.pc.SizeReturn? ==> l.sequence > ticket.value))
  }

  /** What is in hand and not yet in the queue. */
  function InHand(c: Caller, l: Local<AsyncMsg>): seq<AsyncMsg> {
    if c.Pushing? && HoldsArgument(l) then [MsgOf(c.call)] else []
  }

  ghost predicate CallerFits(a: LogView, tid: Tid)
    requires ThreadsMatch(a) && tid in a.callers
  {
    && CallerOk(a.callers[tid], a.v.threads[tid], tid, a.v.puts)
    && a.kept[tid] == ByProducer(a.v.puts, tid) + InHand(a.callers[tid], a.v.threads[tid])
    && (a.blockRetry ==> a.given[tid] == a.kept[tid])
  }

  ghost predicate CallersOk(a: LogView)
    requires ThreadsMatch(a)
  {
    forall tid | tid in a.callers :: CallerFits(a, tid)
  }

  /** The worker has claimed the message after the `done` ones and not finished it. */
  predicate HasMessage(w: Worker, l: Local<AsyncMsg>) {
    w.pc.Delivering? || HoldsTicket(l)
  }

  predicate HasTerminate(puts: seq<Put<AsyncMsg>>) {
    exists t :: 0 <= t < |puts| && puts[t].item.msgType.Terminate?
  }

  ghost predicate WorkerFits(w: Worker, l: Local<AsyncMsg>, puts: seq<Put<AsyncMsg>>, head: nat) {
    && (if w.pc.Dequeuing? then InDequeue(l) && (HoldsTicket(l) ==> l.pos == w.done) else l.pc.Idle?)
    && w.done + (if HasMessage(w, l) then 1 else 0) == head <= |puts|
    && (w.pc.Delivering? ==>
          w.done < |puts| && puts[w.done].item.msgType.Log? && w.pc.msg == FillLogMsg(puts[w.done].item))
    && (w.terminateRequested <==> HasTerminate(puts[..w.done]))
    && (w.terminateRequested && (w.pc.Top? || w.pc.Dequeuing? || w.pc.Delivering?) ==> w.flushRequested)
    && (w.pc.Exited? ==> w.terminateRequested)
  }

  ghost predicate WorkerOk(a: LogView)
    requires ThreadsMatch(a)
  {
    WorkerFits(a.worker, a.v.threads[WORKER], a.v.puts, a.v.head)
  }

  /** The part of the message in hand that this sink has already been given. */
  function PartlyDelivered(w: Worker, i: nat, level: int): seq<LogMsg> {
    if w.pc.Delivering? && i < w.pc.next && w.pc.msg.level >= level then [w.pc.msg] else []
  }

  ghost predicate EndsWithFlush(s: Sink) {
    |s.events| > 0 && s.events[|s.events| - 1].Flushed?
  }

  ghost predicate SinkOk(w: Worker, s: Sink, i: nat, puts: seq<Put<AsyncMsg>>) {
    && w.done <= |puts|
    && LoggedOf(s.events) == Delivered(s.level, puts[..w.done]) + PartlyDelivered(w, i, s.level)
    && (w.pc.Exited? || (w.pc.Flushing? && i < w.pc.next) ==> EndsWithFlush(s))
  }

  ghost predicate SinksOk(a: LogView) {
    forall i | 0 <= i < |a.sinks| :: SinkOk(a.worker, a.sinks[i], i, a.v.puts)
  }

  /** Every entry is a caller's, and the terminate message is the last to enter. */
  ghost predicate HistoryFits(destructor: Option<Tid>, callers: map<Tid, Caller>, inHand: bool, puts: seq<Put<AsyncMsg>>) {
    && (forall t | 0 <= t < |puts| :: puts[t].producer in callers)
    && match destructor
    case None =>
      && !HasTerminate(puts)
      && (forall tid | tid in callers ::
            !callers[tid].Joining? && (callers[tid].Pushing? ==> !callers[tid].call.DestructorCall?))
    case Some(d) =>
      && d in callers && (callers[d].Joining? || callers[d] == Pushing(DestructorCall))
      && (forall tid | tid in callers && tid != d :: callers[tid].Ready?)
      && (inHand ==> !HasTerminate(puts))
      && (forall t | 0 <= t < |puts| - 1 :: !puts[t].item.msgType.Terminate?)
  }

  predicate DestructorInHand(a: LogView) {
    && a.destructor.Some? && a.destructor.value in a.callers && a.destructor.value in a.v.threads
    && InHand(a.callers[a.destructor.value], a.v.threads[a.destructor.value]) != []
  }

  ghost predicate DestructorOk(a: LogView) {
    HistoryFits(a.destructor, a.callers, DestructorInHand(a), a.v.puts)
  }

  ghost predicate LogInv(a: LogView) {
    ThreadsMatch(a) && CallersOk(a) && WorkerOk(a) && SinksOk(a) && DestructorOk(a)
  }

  ghost predicate SysInv(a: Sys) {
    Inv(a.q) && LogInv(LogOf(a))
  }

  lemma InitSysSatisfiesInv(a: Sys)
    requires InitSys(a)
    ensures SysInv(a)
  {
    InitSatisfiesInv(a.q);
    assert Puts(a.q) == [];
  }

  // ----- steps of the queue seen from outside

  ghost predicate OthersSame(v: View, v': View, tid: Tid) {
    && v'.threads.Keys == v.threads.Keys && tid in v.threads
    && forall o | o in v.threads && o != tid :: v'.threads[o] == v.threads[o]
  }

  /** `tid` moved inside its queue call, when the enqueue counter was the length
      of the history. */
  ghost predicate Inside(v: View, v': View, tid: Tid) {
    && OthersSame(v, v', tid)
    && InsideThread(v.threads[tid], v'.threads[tid], |v.puts|)
    && var l, l' := v.threads[tid], v'.threads[tid];
       && (HoldsArgument(l) ==> l.item.Some?)
       && (if HoldsArgument(l) && !HoldsArgument(l')
           then l.item.Some? && v'.puts == v.puts + [Put(tid, l.item.value)] && l'.pos == |v.puts|
           else v'.puts == v.puts)
       && (if HoldsTicket(l') && !HoldsTicket(l)
           then v'.head == v.head + 1 && l'.pos == v.head
           else v'.head == v.head)
       && v'.head <= |v'.puts|
  }

  ghost predicate InsideThread(l: Local<AsyncMsg>, l': Local<AsyncMsg>, last: nat) {
    && (InEnqueue(l) <==> InEnqueue(l')) && (InDequeue(l) <==> InDequeue(l')) && (InSize(l) <==> InSize(l'))
    && (HoldsArgument(l') ==> HoldsArgument(l) && l'.item == l.item)
    && (HoldsTicket(l) ==> HoldsTicket(l') && l'.pos == l.pos)
    && (InEnqueue(l) && !HoldsArgument(l) ==> !HoldsArgument(l') && l'.pos == l.pos)
    && (l'.pc.SizeReturn? ==> l'.sequence == last)
    && !l.pc.Idle?
  }

  /** `tid` returned from a queue call, or made one, or both. */
  ghost predicate Boundary(v: View, v': View, tid: Tid, l': Local<AsyncMsg>) {
    OthersSame(v, v', tid) && v'.threads[tid] == l' && v'.puts == v.puts && v'.head == v.head
  }

  function CalledThread(action: Action<AsyncMsg>): Local<AsyncMsg> {
    match action
    case CallEnqueue(arg) => IdleThread<AsyncMsg>().(pc := EnqLoadPos, item := Some(arg))
    case CallDequeue => IdleThread<AsyncMsg>().(pc := DeqLoadPos)
    case CallSize => IdleThread<AsyncMsg>().(pc := SizeLoadFirst)
    case _ => IdleThread()
  }

  lemma AccessIsInside(q: State<AsyncMsg>, tid: Tid, spurious: bool)
    requires Inv(q) && Enabled(q, Move(tid, Access(spurious)))
    ensures var q' := Step(q, Move(tid, Access(spurious))); Inv(q') && Inside(ViewOf(q), ViewOf(q'), tid)
  {
    var m := Move(tid, Access(spurious));
    StepKeepsOthers(q, m);
    StepInsideCall(q, m);
    StepOnCounters(q, m);
    ThreadKnows(q, tid);
    ThreadKnows(Step(q, m), tid);
  }

  lemma CallIsBoundary(q: State<AsyncMsg>, tid: Tid, action: Action<AsyncMsg>)
    requires Inv(q) && Enabled(q, Move(tid, action)) && !action.Advance? && !action.SpuriousFailure?
    ensures var q' := Step(q, Move(tid, action));
            Inv(q') && Boundary(ViewOf(q), ViewOf(q'), tid, CalledThread(action))
  {
    StepAtCallBoundary(q, Move(tid, action));
  }

  lemma ReturnAndCallIsBoundary(q: State<AsyncMsg>, tid: Tid, action: Action<AsyncMsg>)
    requires Inv(q) && Enabled(q, Move(tid, Return)) && (action.CallEnqueue? || action.CallSize?)
    ensures var q' := ReturnAndCall(q, tid, action);
            Inv(q') && Boundary(ViewOf(q), ViewOf(q'), tid, CalledThread(action))
  {
    CallIsBoundary(q, tid, Return);
    var r := Step(q, Move(tid, Return));
    CallIsBoundary(r, tid, action);
  }

  lemma AfterPushIsBoundary(q: State<AsyncMsg>, tid: Tid, wait: bool)
    requires Inv(q) && Enabled(q, Move(tid, Return))
    ensures var q' := if wait then ReturnAndCall(q, tid, CallSize) else Step(q, Move(tid, Return));
            Inv(q') && Boundary(ViewOf(q), ViewOf(q'), tid, CalledThread(if wait then CallSize else Return))
  {
    if wait {
      ReturnAndCallIsBoundary(q, tid, CallSize);
    } else {
      CallIsBoundary(q, tid, Return);
    }
  }

  // ----- a queue access by a caller or by the worker

  ghost predicate CallerAccess(a: LogView, a': LogView, tid: Tid) {
    LogInv(a) && tid in a.callers && Inside(a.v, a'.v, tid) && a' == a.(v := a'.v)
  }

  /** The history is as it was, or longer by the caller's message. */
  lemma HistoryAfterAccess(a: LogView, a': LogView, tid: Tid)
    requires CallerAccess(a, a', tid)
    ensures var puts, puts', c := a.v.puts, a'.v.puts, a.callers[tid];
            && |puts| <= |puts'| && puts'[..|puts|] == puts
            && (puts' == puts || (|puts'| == |puts| + 1 && c.Pushing? && puts'[|puts|] == Put(tid, MsgOf(c.call))
                                  && InHand(c, a.v.threads[tid]) == [MsgOf(c.call)]
                                  && InHand(c, a'.v.threads[tid]) == []))
            && (puts' == puts ==> InHand(c, a'.v.threads[tid]) == InHand(c, a.v.threads[tid]))
            && a'.v.head == a.v.head
  {
    assert CallerFits(a, tid);
  }

  lemma CallerAccessKeepsCallers(a: LogView, a': LogView, tid: Tid)
    requires CallerAccess(a, a', tid)
    ensures ThreadsMatch(a') && CallersOk(a')
  {
    HistoryAfterAccess(a, a', tid);
    var puts, puts' := a.v.puts, a'.v.puts;
    forall o | o in a'.callers
      ensures CallerFits(a', o)
    {
      assert CallerFits(a, o);
      if puts' != puts {
        assert puts'[..|puts'| - 1] == puts;
        assert ByProducer(puts', o) == ByProducer(puts, o) + (if o == tid then [puts'[|puts|].item] else []);
      }
      if o == tid {
        AccessFitsCaller(a.callers[tid], a.v, a'.v, tid);
      }
    }
  }

  lemma AccessFitsCaller(c: Caller, v: View, v': View, tid: Tid)
    requires Inside(v, v', tid) && CallerOk(c, v.threads[tid], tid, v.puts)
    ensures |v.puts| <= |v'.puts| && CallerOk(c, v'.threads[tid], tid, v'.puts)
  {
  }

  lemma CallerAccessKeepsWorker(a: LogView, a': LogView, tid: Tid)
    requires CallerAccess(a, a', tid)
    ensures ThreadsMatch(a') && WorkerOk(a') && SinksOk(a')
  {
    HistoryAfterAccess(a, a', tid);
    var puts, puts' := a.v.puts, a'.v.puts;
    assert puts'[..a.worker.done] == puts[..a.worker.done];
    forall i | 0 <= i < |a'.sinks|
      ensures SinkOk(a'.worker, a'.sinks[i], i, puts')
    {
      assert SinkOk(a.worker, a.sinks[i], i, puts);
    }
  }

  lemma CallerAccessKeepsDestructor(a: LogView, a': LogView, tid: Tid)
    requires CallerAccess(a, a', tid)
    ensures ThreadsMatch(a') && DestructorOk(a')
  {
    HistoryAfterAccess(a, a', tid);
    assert CallerOk(a.callers[tid], a.v.threads[tid], tid, a.v.puts);
    var puts, puts' := a.v.puts, a'.v.puts;
    forall t | 0 <= t < |puts|
      ensures puts'[t] == puts[t]
    {
      assert puts'[..|puts|][t] == puts'[t];
    }
  }

  lemma CallerAccessKeeps(a: LogView, a': LogView, tid: Tid)
    requires CallerAccess(a, a', tid)
    ensures LogInv(a')
  {
    CallerAccessKeepsCallers(a, a', tid);
    CallerAccessKeepsWorker(a, a', tid);
    CallerAccessKeepsDestructor(a, a', tid);
  }

  lemma WorkerAccessKeeps(a: LogView, a': LogView)
    requires LogInv(a) && Inside(a.v, a'.v, WORKER) && a' == a.(v := a'.v)
    ensures LogInv(a')
  {
    assert a'.v.puts == a.v.puts;
    forall i | 0 <= i < |a'.sinks|
      ensures SinkOk(a'.worker, a'.sinks[i], i, a'.v.puts)
    {
      assert SinkOk(a.worker, a.sinks[i], i, a.v.puts);
    }
  }

  // ----- callers starting and finishing calls

  /** Caller `tid` starts or finishes a queue call; the rest stays. */
  ghost predicate CallerMoves(a: LogView, a': LogView, tid: Tid, l': Local<AsyncMsg>) {
    && LogInv(a) && tid in a.callers && Boundary(a.v, a'.v, tid, l')
    && a'.callers.Keys == a.callers.Keys && a'.given.Keys == a.given.Keys && a'.kept.Keys == a.kept.Keys
    && (forall o | o in a.callers && o != tid ::
          a'.callers[o] == a.callers[o] && a'.given[o] == a.given[o] && a'.kept[o] == a.kept[o])
    && a'.worker == a.worker && a'.sinks == a.sinks && a'.blockRetry == a.blockRetry
  }

  lemma CallerMoveKeeps(a: LogView, a': LogView, tid: Tid, l': Local<AsyncMsg>)
    requires CallerMoves(a, a', tid, l')
    requires CallerOk(a'.callers[tid], l', tid, a.v.puts)
    requires a'.kept[tid] == ByProducer(a.v.puts, tid) + InHand(a'.callers[tid], l')
    requires a.blockRetry ==> a'.given[tid] == a'.kept[tid]
    ensures ThreadsMatch(a') && CallersOk(a') && WorkerOk(a') && SinksOk(a')
  {
    hide HistoryFits;
    forall o | o in a'.callers
      ensures CallerFits(a', o)
    {
      if o != tid {
        assert CallerFits(a, o);
      }
    }
    forall i | 0 <= i < |a'.sinks|
      ensures SinkOk(a'.worker, a'.sinks[i], i, a'.v.puts)
    {
      assert SinkOk(a.worker, a.sinks[i], i, a.v.puts);
    }
  }

  lemma CallerStartsKeeps(a: LogView, a': LogView, tid: Tid, call: Call)
    requires LogInv(a) && tid in a.callers && a.callers[tid].Ready? && a.destructor.None?
    requires call.DestructorCall? ==> forall o | o in a.callers :: a.callers[o].Ready?
    requires Boundary(a.v, a'.v, tid, CalledThread(CallEnqueue(MsgOf(call))))
    requires a' == a.(v := a'.v, callers := a.callers[tid := Pushing(call)],
                      destructor := if call.DestructorCall? then Some(tid) else a.destructor,
                      given := a.given[tid := a.given[tid] + [MsgOf(call)]],
                      kept := a.kept[tid := a.kept[tid] + [MsgOf(call)]])
    ensures LogInv(a')
  {
    hide SinksOk, WorkerOk, DestructorOk, CallersOk, CallerMoves, CallerOk;
    CallerStartMoves(a, a', tid, call);
    CallerMoveKeeps(a, a', tid, CalledThread(CallEnqueue(MsgOf(call))));
    CallerStartKeepsDestructor(a, a', tid, call);
  }

  lemma CallerStartMoves(a: LogView, a': LogView, tid: Tid, call: Call)
    requires LogInv(a) && tid in a.callers && a.callers[tid].Ready? && a.destructor.None?
    requires Boundary(a.v, a'.v, tid, CalledThread(CallEnqueue(MsgOf(call))))
    requires a' == a.(v := a'.v, callers := a.callers[tid := Pushing(call)], destructor := a'.destructor,
                      given := a.given[tid := a.given[tid] + [MsgOf(call)]],
                      kept := a.kept[tid := a.kept[tid] + [MsgOf(call)]])
    ensures var l' := CalledThread(CallEnqueue(MsgOf(call)));
            && CallerMoves(a, a', tid, l')
            && CallerOk(a'.callers[tid], l', tid, a.v.puts)
            && a'.kept[tid] == ByProducer(a.v.puts, tid) + InHand(a'.callers[tid], l')
            && (a.blockRetry ==> a'.given[tid] == a'.kept[tid])
  {
    hide LogInv, CallerOk, InHand, ByProducer, Boundary;
    CallerIsKnown(a, tid);
    CallerStartFits(a.callers[tid], MsgOf(call), call, tid, a.v.threads[tid], a.v.puts);
  }

  lemma CallerIsKnown(a: LogView, tid: Tid)
    requires LogInv(a) && tid in a.callers
    ensures a.given.Keys == a.callers.Keys && a.kept.Keys == a.callers.Keys && tid in a.v.threads
    ensures CallerFits(a, tid)
  {
    hide SinksOk, WorkerOk, DestructorOk;
  }

  lemma CallerStartFits(c: Caller, m: AsyncMsg, call: Call, tid: Tid, l: Local<AsyncMsg>, puts: seq<Put<AsyncMsg>>)
    requires c.Ready? && m == MsgOf(call)
    ensures InHand(c, l) == []
    ensures var l' := CalledThread(CallEnqueue(m));
            CallerOk(Pushing(call), l', tid, puts) && InHand(Pushing(call), l') == [m]
  {
  }

  lemma CallerStartKeepsDestructor(a: LogView, a': LogView, tid: Tid, call: Call)
    requires LogInv(a) && tid in a.callers && a.callers[tid].Ready? && a.destructor.None?
    requires call.DestructorCall? ==> forall o | o in a.callers :: a.callers[o].Ready?
    requires Boundary(a.v, a'.v, tid, CalledThread(CallEnqueue(MsgOf(call))))
    requires a'.callers == a.callers[tid := Pushing(call)]
    requires a'.destructor == if call.DestructorCall? then Some(tid) else None
    ensures DestructorOk(a')
  {
    hide SinksOk, WorkerOk, CallersOk;
    CallerStartKeepsHistory(a.callers, tid, call, a.v.puts);
  }

  lemma CallerStartKeepsHistory(callers: map<Tid, Caller>, tid: Tid, call: Call, puts: seq<Put<AsyncMsg>>)
    requires HistoryFits(None, callers, false, puts) && tid in callers
    requires call.DestructorCall? ==> forall o | o in callers :: callers[o].Ready?
    ensures HistoryFits(if call.DestructorCall? then Some(tid) else None, callers[tid := Pushing(call)],
                        call.DestructorCall?, puts)
  {
  }

  lemma PushRetriesKeeps(a: LogView, a': LogView, tid: Tid)
    requires LogInv(a) && tid in a.callers && a.callers[tid].Pushing? && HoldsArgument(a.v.threads[tid])
    requires a.v.threads[tid].item.Some?
    requires Boundary(a.v, a'.v, tid, CalledThread(CallEnqueue(a.v.threads[tid].item.value)))
    requires a' == a.(v := a'.v)
    ensures LogInv(a')
  {
    assert CallerFits(a, tid);
    CallerMoveKeeps(a, a', tid, CalledThread(CallEnqueue(a.v.threads[tid].item.value)));
  }

  function AfterPushThread(call: Call): Local<AsyncMsg> {
    CalledThread(if call == FlushCall(true) then CallSize else Return)
  }

  lemma PushEndKeepsDestructor(
    destructor: Option<Tid>, callers: map<Tid, Caller>, tid: Tid, l: Local<AsyncMsg>, inHand: bool,
    puts: seq<Put<AsyncMsg>>)
    requires HistoryFits(destructor, callers, inHand, puts)
    requires tid in callers && callers[tid].Pushing?
    ensures HistoryFits(destructor, callers[tid := NextCaller(callers[tid].call, l)], false, puts)
  {
  }

  /** The end of push_msg, successful or not. */
  ghost predicate PushEnds(a: LogView, a': LogView, tid: Tid) {
    && LogInv(a) && tid in a.callers && a.callers[tid].Pushing? && a.v.threads[tid].pc.EnqReturn?
    && Boundary(a.v, a'.v, tid, AfterPushThread(a.callers[tid].call))
    && a' == a.(v := a'.v, kept := a'.kept,
                callers := a.callers[tid := NextCaller(a.callers[tid].call, a.v.threads[tid])])
    && a'.kept == a.kept[tid := ByProducer(a.v.puts, tid)]
    && (a.blockRetry ==> a'.kept == a.kept)
  }

  lemma PushEndKeepsCallers(a: LogView, a': LogView, tid: Tid)
    requires PushEnds(a, a', tid)
    ensures ThreadsMatch(a') && CallersOk(a') && WorkerOk(a') && SinksOk(a')
  {
    hide SinksOk, WorkerOk, DestructorOk, CallersOk, CallerMoves, CallerOk, InHand, ByProducer;
    PushEndMoves(a, a', tid);
    CallerMoveKeeps(a, a', tid, AfterPushThread(a.callers[tid].call));
  }

  lemma PushEndMoves(a: LogView, a': LogView, tid: Tid)
    requires PushEnds(a, a', tid)
    ensures var l' := AfterPushThread(a.callers[tid].call);
            && CallerMoves(a, a', tid, l')
            && CallerOk(a'.callers[tid], l', tid, a.v.puts)
            && a'.kept[tid] == ByProducer(a.v.puts, tid) + InHand(a'.callers[tid], l')
            && (a.blockRetry ==> a'.given[tid] == a'.kept[tid])
  {
    hide LogInv, CallerOk, InHand, ByProducer, Boundary;
    CallerIsKnown(a, tid);
    PushEndFits(a.v.threads[tid], tid, a.callers[tid].call, a.v.puts);
  }

  lemma PushEndKeeps(a: LogView, a': LogView, tid: Tid)
    requires PushEnds(a, a', tid)
    ensures LogInv(a')
  {
    PushEndKeepsCallers(a, a', tid);
    assert DestructorOk(a') by {
      PushEndKeepsDestructor(a.destructor, a.callers, tid, a.v.threads[tid], DestructorInHand(a), a.v.puts);
    }
  }

  lemma PushEndFits(l: Local<AsyncMsg>, tid: Tid, call: Call, puts: seq<Put<AsyncMsg>>)
    requires l.pc.EnqReturn? && CallerOk(Pushing(call), l, tid, puts)
    ensures CallerOk(NextCaller(call, l), AfterPushThread(call), tid, puts)
    ensures InHand(NextCaller(call, l), AfterPushThread(call)) == []
  {
  }

  lemma SizeEndKeeps(a: LogView, a': LogView, tid: Tid, c: Caller, l': Local<AsyncMsg>)
    requires LogInv(a) && tid in a.callers && a.callers[tid].Waiting? && Boundary(a.v, a'.v, tid, l')
    requires a' == a.(v := a'.v, callers := a.callers[tid := c])
    requires (c == Ready && l' == CalledThread(Return)) || (c == a.callers[tid] && l' == CalledThread(CallSize))
    ensures LogInv(a')
  {
    hide SinksOk, WorkerOk, CallersOk, HistoryFits;
    CallerIsKnown(a, tid);
    CallerMoveKeeps(a, a', tid, l');
    assert DestructorOk(a') by {
      WaitEndKeepsDestructor(a.destructor, a.callers, tid, c, DestructorInHand(a), a.v.puts);
    }
  }

  lemma WaitEndKeepsDestructor(
    destructor: Option<Tid>, callers: map<Tid, Caller>, tid: Tid, c: Caller, inHand: bool, puts: seq<Put<AsyncMsg>>)
    requires HistoryFits(destructor, callers, inHand, puts)
    requires tid in callers && callers[tid].Waiting? && (c.Ready? || c.Waiting?)
    ensures destructor.None? && HistoryFits(destructor, callers[tid := c], false, puts)
  {
  }

  // ----- the worker

  /** The worker moves on; callers and history stay. */
  ghost predicate WorkerMoves(a: LogView, a': LogView, l': Local<AsyncMsg>) {
    && LogInv(a) && Boundary(a.v, a'.v, WORKER, l')
    && a' == a.(v := a'.v, worker := a'.worker, sinks := a'.sinks)
  }

  lemma WorkerMoveKeeps(a: LogView, a': LogView, l': Local<AsyncMsg>)
    requires WorkerMoves(a, a', l')
    ensures ThreadsMatch(a') && CallersOk(a') && DestructorOk(a')
  {
    forall o | o in a'.callers
      ensures CallerFits(a', o)
    {
      assert CallerFits(a, o);
    }
  }

  /** The worker makes a dequeue call, or returns from one that found nothing. */
  lemma WorkerTurnsKeeps(a: LogView, a': LogView, l': Local<AsyncMsg>)
    requires WorkerMoves(a, a', l') && a'.sinks == a.sinks && !HoldsTicket(a.v.threads[WORKER])
    requires || (a.worker.pc.Top? && l' == CalledThread(CallDequeue) && a'.worker == a.worker.(pc := Dequeuing))
             || (a.worker.pc.Dequeuing? && l' == CalledThread(Return)
                 && (a'.worker == a.worker.(pc := Flushing(0))
                     || (!a.worker.flushRequested && a'.worker == a.worker.(pc := Top))))
    ensures LogInv(a')
  {
    WorkerMoveKeeps(a, a', l');
    SinksFollow(a, a');
  }

  /** Sinks untouched while the worker's progress stays the same. */
  lemma SinksFollow(a: LogView, a': LogView)
    requires SinksOk(a) && a'.sinks == a.sinks && a'.v.puts == a.v.puts && a'.worker.done == a.worker.done
    requires !a'.worker.pc.Exited?
    requires a'.worker.pc.Flushing? ==> a'.worker.pc.next == 0
    requires a'.worker.pc.Delivering? ==> a'.worker.pc.next == 0
    requires !a.worker.pc.Delivering?
    ensures SinksOk(a')
  {
    forall i | 0 <= i < |a'.sinks|
      ensures SinkOk(a'.worker, a'.sinks[i], i, a'.v.puts)
    {
      assert SinkOk(a.worker, a.sinks[i], i, a.v.puts);
    }
  }

  lemma OneMoreDone(puts: seq<Put<AsyncMsg>>, k: nat, level: int)
    requires k < |puts|
    ensures Delivered(level, puts[..k + 1])
            == Delivered(level, puts[..k])
               + (if puts[k].item.msgType.Log? && puts[k].item.level >= level then [FillLogMsg(puts[k].item)] else [])
    ensures HasTerminate(puts[..k + 1]) <==> HasTerminate(puts[..k]) || puts[k].item.msgType.Terminate?
  {
    assert puts[..k + 1][..k] == puts[..k];
    if HasTerminate(puts[..k]) {
      var t :| 0 <= t < k && puts[..k][t].item.msgType.Terminate?;
      assert puts[..k + 1][t].item.msgType.Terminate?;
    }
    if puts[k].item.msgType.Terminate? {
      assert puts[..k + 1][k].item.msgType.Terminate?;
    }
  }

  /** Taking the next message off the queue: one sink's view. */
  lemma TakeKeepsSink(w: Worker, s: Sink, i: nat, puts: seq<Put<AsyncMsg>>)
    requires w.done < |puts| && w.pc.Dequeuing? && SinkOk(w, s, i, puts)
    ensures SinkOk(Handle(w, puts[w.done].item), s, i, puts)
  {
    OneMoreDone(puts, w.done, s.level);
  }

  lemma TakeKeeps(a: LogView, a': LogView)
    requires WorkerMoves(a, a', CalledThread(Return)) && a.worker.pc.Dequeuing?
    requires a.v.threads[WORKER].pc.DeqReturn? && a.v.threads[WORKER].ok && a.worker.done < |a.v.puts|
    requires a'.sinks == a.sinks && a'.worker == Handle(a.worker, a.v.puts[a.worker.done].item)
    ensures LogInv(a')
  {
    hide CallersOk, DestructorOk, HistoryFits;
    WorkerMoveKeeps(a, a', CalledThread(Return));
    OneMoreDone(a.v.puts, a.worker.done, 0);
    forall i | 0 <= i < |a'.sinks|
      ensures SinkOk(a'.worker, a'.sinks[i], i, a.v.puts)
    {
      assert SinkOk(a.worker, a.sinks[i], i, a.v.puts);
      TakeKeepsSink(a.worker, a.sinks[i], i, a.v.puts);
    }
  }

  lemma LastEvent(events: seq<SinkEvent>, e: SinkEvent)
    ensures LoggedOf(events + [e]) == LoggedOf(events) + (match e case Logged(m) => [m] case Flushed => [])
  {
    assert (events + [e])[..|events|] == events;
  }

  lemma DeliverKeepsSink(w: Worker, s: Sink, i: nat, sinks: nat, puts: seq<Put<AsyncMsg>>)
    requires w.pc.Delivering? && i < sinks && w.done < |puts| && SinkOk(w, s, i, puts)
    requires puts[w.done].item.msgType.Log? && w.pc.msg == FillLogMsg(puts[w.done].item)
    ensures SinkOk(AfterDelivery(w, sinks), if i == w.pc.next then Deliver(w.pc.msg, s) else s, i, puts)
  {
    OneMoreDone(puts, w.done, s.level);
    LastEvent(s.events, Logged(w.pc.msg));
  }

  lemma FlushKeepsSink(w: Worker, s: Sink, i: nat, sinks: nat, puts: seq<Put<AsyncMsg>>)
    requires w.pc.Flushing? && i < sinks && SinkOk(w, s, i, puts)
    ensures SinkOk(AfterFlush(w, sinks), if i == w.pc.next then AddEvent(s, Flushed) else s, i, puts)
  {
    LastEvent(s.events, Flushed);
  }

  lemma DeliveryKeeps(a: LogView, a': LogView)
    requires LogInv(a) && a.worker.pc.Delivering?
    requires a' == a.(worker := AfterDelivery(a.worker, |a.sinks|), sinks := DeliverSinks(a.worker, a.sinks))
    ensures LogInv(a')
  {
    WorkerStaysKeeps(a, a');
    OneMoreDone(a.v.puts, a.worker.done, 0);
    forall i | 0 <= i < |a'.sinks|
      ensures SinkOk(a'.worker, a'.sinks[i], i, a.v.puts)
    {
      assert SinkOk(a.worker, a.sinks[i], i, a.v.puts);
      DeliverKeepsSink(a.worker, a.sinks[i], i, |a.sinks|, a.v.puts);
    }
  }

  lemma FlushKeeps(a: LogView, a': LogView)
    requires LogInv(a) && a.worker.pc.Flushing?
    requires a' == a.(worker := AfterFlush(a.worker, |a.sinks|), sinks := FlushSinks(a.worker, a.sinks))
    ensures LogInv(a')
  {
    WorkerStaysKeeps(a, a');
    forall i | 0 <= i < |a'.sinks|
      ensures SinkOk(a'.worker, a'.sinks[i], i, a.v.puts)
    {
      assert SinkOk(a.worker, a.sinks[i], i, a.v.puts);
      FlushKeepsSink(a.worker, a.sinks[i], i, |a.sinks|, a.v.puts);
    }
  }

  /** A step of the worker outside the queue. */
  lemma WorkerStaysKeeps(a: LogView, a': LogView)
    requires LogInv(a) && a' == a.(worker := a'.worker, sinks := a'.sinks)
    ensures ThreadsMatch(a') && CallersOk(a') && DestructorOk(a')
  {
    forall o | o in a'.callers
      ensures CallerFits(a', o)
    {
      assert CallerFits(a, o);
    }
  }
}
