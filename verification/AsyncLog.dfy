/** The asynchronous log helper on top of the queue protocol: any number of
    caller threads push log, flush and terminate messages, one worker thread
    takes them and drives the sinks. A run is any interleaving of the callers',
    the worker's and the queue's atomic steps. */
module AsyncLog {
  import opened Options
  import opened MpmcProtocol
  import opened AsyncQueueSteps
  import MpmcRuns

  // ----- messages

  datatype LogMsg = LogMsg(loggerName: string, level: int, time: int, threadId: nat, raw: string)

  datatype MsgType = Log | Flush | Terminate

  datatype AsyncMsg = AsyncMsg(
    loggerName: string, level: int, time: int, threadId: nat, txt: string, msgType: MsgType)

  function FromLogMsg(m: LogMsg): AsyncMsg {
    AsyncMsg(m.loggerName, m.level, m.time, m.threadId, m.raw, Log)
  }

  function FillLogMsg(a: AsyncMsg): LogMsg {
    LogMsg(a.loggerName, a.level, a.time, a.threadId, a.txt)
  }

  function Control(t: MsgType): AsyncMsg {
    AsyncMsg("", 0, 0, 0, "", t)
  }

  datatype Call = LogCall(msg: LogMsg) | FlushCall(wait: bool) | DestructorCall

  function MsgOf(call: Call): AsyncMsg {
    match call
    case LogCall(msg) => FromLogMsg(msg)
    case FlushCall(_) => Control(Flush)
    case DestructorCall => Control(Terminate)
  }

  // ----- state

  const WORKER: Tid := 0

  /** Waiting: in wait_empty_q, after the flush message went in under `ticket` or,
      with the discarding policy, did not go in at all. */
  datatype Caller = Ready | Pushing(call: Call) | Waiting(ticket: Option<nat>) | Joining

  datatype WorkerPc = Top | Dequeuing | Delivering(msg: LogMsg, next: nat) | Flushing(next: nat) | Exited

  /** `done` counts the messages completely handled. */
  datatype Worker = Worker(pc: WorkerPc, flushRequested: bool, terminateRequested: bool, done: nat)

  datatype SinkEvent = Logged(msg: LogMsg) | Flushed

  datatype Sink = Sink(level: int, events: seq<SinkEvent>)

  /** `given` and `kept` are histories: every message a caller passed in, and those
      of them that the overflow policy did not discard. */
  datatype Sys = Sys(
    q: State<AsyncMsg>, callers: map<Tid, Caller>, worker: Worker, sinks: seq<Sink>,
    destructor: Option<Tid>, blockRetry: bool,
    given: map<Tid, seq<AsyncMsg>>, kept: map<Tid, seq<AsyncMsg>>)

  ghost predicate InitSys(a: Sys) {
    && Init(a.q) && a.q.threads.Keys == a.callers.Keys + {WORKER} && WORKER !in a.callers
    && a.given.Keys == a.callers.Keys && a.kept.Keys == a.callers.Keys
    && (forall tid | tid in a.callers :: a.callers[tid] == Ready && a.given[tid] == [] && a.kept[tid] == [])
    && a.worker == Worker(Top, false, false, 0)
    && (forall i | 0 <= i < |a.sinks| :: a.sinks[i].events == [])
    && a.destructor == None
  }

  // ----- steps

  datatype Label =
    | CallerCalls(tid: Tid, call: Call)
    | QueueAccess(tid: Tid, spurious: bool)
    | PushAgain(tid: Tid)
    | PushDropped(tid: Tid)
    | PushReturns(tid: Tid)
    | SizeAgain(tid: Tid)
    | WaitReturns(tid: Tid)
    | WorkerCallsDequeue
    | WorkerTakes
    | WorkerDelivers
    | WorkerFindsEmpty(intervalElapsed: bool)
    | WorkerFlushes

  function Access(spurious: bool): Action<AsyncMsg> {
    if spurious then SpuriousFailure else Advance
  }

  function SizeRead(l: Local<AsyncMsg>, n: nat): nat {
    MpmcRuns.ApproxSize(l.pos, l.sequence, n)
  }

  /** No call may overlap the destructor: it starts when every caller is ready,
      and no call starts after it. */
  predicate SysEnabled(a: Sys, b: Label) {
    match b
    case CallerCalls(tid, call) =>
      && tid in a.callers && a.callers[tid].Ready? && a.destructor.None?
      && (call.DestructorCall? ==> forall o | o in a.callers :: a.callers[o].Ready?)
      && tid in a.given && tid in a.kept
      && Enabled(a.q, Move(tid, CallEnqueue(MsgOf(call))))
    case QueueAccess(tid, spurious) => Enabled(a.q, Move(tid, Access(spurious)))
    case PushAgain(tid) => PushFailed(a, tid) && a.blockRetry
    case PushDropped(tid) => PushFailed(a, tid) && !a.blockRetry && tid in a.kept && a.kept[tid] != []
    case PushReturns(tid) =>
      && tid in a.callers && a.callers[tid].Pushing? && Enabled(a.q, Move(tid, Return))
      && a.q.threads[tid].pc.EnqReturn? && a.q.threads[tid].ok
    case SizeAgain(tid) => SizeReturned(a, tid) && SizeRead(a.q.threads[tid], |a.q.cells|) > 0
    case WaitReturns(tid) => SizeReturned(a, tid) && SizeRead(a.q.threads[tid], |a.q.cells|) == 0
    case WorkerCallsDequeue => a.worker.pc.Top? && Enabled(a.q, Move(WORKER, CallDequeue))
    case WorkerTakes => WorkerReturned(a) && a.q.threads[WORKER].ok && a.q.threads[WORKER].item.Some?
    case WorkerDelivers => a.worker.pc.Delivering?
    case WorkerFindsEmpty(_) => WorkerReturned(a) && !a.q.threads[WORKER].ok
    case WorkerFlushes => a.worker.pc.Flushing?
  }

  predicate PushFailed(a: Sys, tid: Tid) {
    && tid in a.callers && a.callers[tid].Pushing? && Enabled(a.q, Move(tid, Return))
    && a.q.threads[tid].pc.EnqReturn? && !a.q.threads[tid].ok && a.q.threads[tid].item.Some?
  }

  predicate SizeReturned(a: Sys, tid: Tid) {
    && tid in a.callers && a.callers[tid].Waiting? && Enabled(a.q, Move(tid, Return))
    && a.q.threads[tid].pc.SizeReturn?
  }

  predicate WorkerReturned(a: Sys) {
    && a.worker.pc.Dequeuing? && Enabled(a.q, Move(WORKER, Return)) && a.q.threads[WORKER].pc.DeqReturn?
  }

  /** A call returns and the thread makes another one. */
  function ReturnAndCall(q: State<AsyncMsg>, tid: Tid, action: Action<AsyncMsg>): State<AsyncMsg>
    requires Enabled(q, Move(tid, Return))
    requires action.CallEnqueue? || action.CallSize?
  {
    Step(Step(q, Move(tid, Return)), Move(tid, action))
  }

  function SysStep(a: Sys, b: Label): Sys
    requires SysEnabled(a, b)
  {
    match b
    case CallerCalls(tid, call) =>
      a.(q := Step(a.q, Move(tid, CallEnqueue(MsgOf(call)))),
         callers := a.callers[tid := Pushing(call)],
         destructor := if call.DestructorCall? then Some(tid) else a.destructor,
         given := a.given[tid := a.given[tid] + [MsgOf(call)]],
         kept := a.kept[tid := a.kept[tid] + [MsgOf(call)]])
    case QueueAccess(tid, spurious) => a.(q := Step(a.q, Move(tid, Access(spurious))))
    case PushAgain(tid) => a.(q := ReturnAndCall(a.q, tid, CallEnqueue(a.q.threads[tid].item.value)))
    case PushDropped(tid) =>
      AfterPush(a.(kept := a.kept[tid := a.kept[tid][..|a.kept[tid]| - 1]]), tid)
    case PushReturns(tid) => AfterPush(a, tid)
    case SizeAgain(tid) => a.(q := ReturnAndCall(a.q, tid, CallSize))
    case WaitReturns(tid) =>
      a.(q := Step(a.q, Move(tid, Return)), callers := a.callers[tid := Ready])
    case WorkerCallsDequeue =>
      a.(q := Step(a.q, Move(WORKER, CallDequeue)), worker := a.worker.(pc := Dequeuing))
    case WorkerTakes =>
      a.(q := Step(a.q, Move(WORKER, Return)), worker := Handle(a.worker, a.q.threads[WORKER].item.value))
    case WorkerDelivers => DeliverStep(a)
    case WorkerFindsEmpty(intervalElapsed) =>
      a.(q := Step(a.q, Move(WORKER, Return)),
         worker := if a.worker.flushRequested || intervalElapsed then a.worker.(pc := Flushing(0))
                   else a.worker.(pc := if a.worker.terminateRequested then Exited else Top))
    case WorkerFlushes => FlushStep(a)
  }

  /** push_msg is over: log returns, flush waits if asked to, the destructor joins. */
  function AfterPush(a: Sys, tid: Tid): Sys
    requires tid in a.callers && a.callers[tid].Pushing? && Enabled(a.q, Move(tid, Return))
  {
    a.(q := if a.callers[tid].call == FlushCall(true) then ReturnAndCall(a.q, tid, CallSize)
            else Step(a.q, Move(tid, Return)),
       callers := a.callers[tid := NextCaller(a.callers[tid].call, a.q.threads[tid])])
  }

  function NextCaller(call: Call, l: Local<AsyncMsg>): Caller {
    match call
    case LogCall(_) => Ready
    case FlushCall(wait) => if wait then Waiting(if l.ok then Some(l.pos) else None) else Ready
    case DestructorCall => Joining
  }

  /** The switch on the message type. */
  function Handle(w: Worker, m: AsyncMsg): Worker {
    match m.msgType
    case Flush => w.(pc := Top, flushRequested := true, done := w.done + 1)
    case Terminate => w.(pc := Top, flushRequested := true, terminateRequested := true, done := w.done + 1)
    case Log => w.(pc := Delivering(FillLogMsg(m), 0))
  }

  function AddEvent(s: Sink, e: SinkEvent): Sink {
    s.(events := s.events + [e])
  }

  /** Give the message to sink `next` if its level admits it; after the last sink
      the message is done. */
  function DeliverStep(a: Sys): Sys
    requires a.worker.pc.Delivering?
  {
    a.(worker := AfterDelivery(a.worker, |a.sinks|), sinks := DeliverSinks(a.worker, a.sinks))
  }

  function DeliverSinks(w: Worker, sinks: seq<Sink>): seq<Sink>
    requires w.pc.Delivering?
  {
    var i := w.pc.next;
    if i < |sinks| then sinks[i := Deliver(w.pc.msg, sinks[i])] else sinks
  }

  function Deliver(m: LogMsg, s: Sink): Sink {
    if m.level >= s.level then AddEvent(s, Logged(m)) else s
  }

  function AfterDelivery(w: Worker, sinks: nat): Worker
    requires w.pc.Delivering?
  {
    if w.pc.next < sinks then w.(pc := Delivering(w.pc.msg, w.pc.next + 1))
    else w.(pc := Top, done := w.done + 1)
  }

  /** Flush sink `next`; after the last one the flush request is served, and the
      worker leaves its loop if it was asked to terminate. */
  function FlushStep(a: Sys): Sys
    requires a.worker.pc.Flushing?
  {
    a.(worker := AfterFlush(a.worker, |a.sinks|), sinks := FlushSinks(a.worker, a.sinks))
  }

  function FlushSinks(w: Worker, sinks: seq<Sink>): seq<Sink>
    requires w.pc.Flushing?
  {
    var i := w.pc.next;
    if i < |sinks| then sinks[i := AddEvent(sinks[i], Flushed)] else sinks
  }

  function AfterFlush(w: Worker, sinks: nat): Worker
    requires w.pc.Flushing?
  {
    if w.pc.next < sinks then w.(pc := Flushing(w.pc.next + 1))
    else w.(pc := if w.terminateRequested then Exited else Top, flushRequested := false)
  }

  // ----- what the sinks and the callers should see

  /** The log messages a sink of this level admits, in order. */
  function Delivered(level: int, puts: seq<Put<AsyncMsg>>): seq<LogMsg> {
    if puts == [] then []
    else
      var m := puts[|puts| - 1].item;
      Delivered(level, puts[..|puts| - 1])
      + (if m.msgType.Log? && m.level >= level then [FillLogMsg(m)] else [])
  }

  function LoggedOf(events: seq<SinkEvent>): seq<LogMsg> {
    if events == [] then []
    else LoggedOf(events[..|events| - 1])
         + (match events[|events| - 1] case Logged(m) => [m] case Flushed => [])
  }

  /** What one caller put in, in ticket order. */
  function ByProducer(puts: seq<Put<AsyncMsg>>, tid: Tid): seq<AsyncMsg> {
    if puts == [] then []
    else ByProducer(puts[..|puts| - 1], tid)
         + (if puts[|puts| - 1].producer == tid then [puts[|puts| - 1].item] else [])
  }
}
