/** The lock-free bounded queue as a step machine. Any number of threads call
    enqueue, dequeue and approx_size; each atomic access to shared memory is one
    step, and a run is any interleaving of enabled steps. Counters are unbounded
    tickets here; MachineWords says when the 64-bit ones agree with them.

    `tickets` is a history: entry t records who claimed ticket t of the enqueue
    counter, with which item, and how far its producer and its consumer have
    come. No step reads it. */
module MpmcProtocol {
  import opened Options

  type Tid = nat

  // ----- state

  /** Where a thread is inside its call. */
  datatype Pc =
    | Idle
    | EnqLoadPos | EnqLoadSeq | EnqTry | EnqMove | EnqPublish | EnqReturn
    | DeqLoadPos | DeqLoadSeq | DeqTry | DeqMove | DeqRelease | DeqReturn
    | SizeLoadFirst | SizeLoadLast | SizeReturn

  /** A call's local variables. `item` is the argument of enqueue until it is
      moved into a cell, and the result of dequeue once it is moved out. `start`
      and `retries` are counters of the model: the position the call first read,
      and how often it had to read a position again. */
  datatype Local<T> = Local(
    pc: Pc, pos: nat, sequence: nat, item: Option<T>, ok: bool, start: nat, retries: nat)

  datatype Cell<T> = Cell(sequence: nat, data: Option<T>)

  datatype PutStage = Claimed | Moved | Published
  datatype TakeStage = Unclaimed | Taking(consumer: Tid) | Taken(consumer: Tid) | Released(consumer: Tid)

  datatype Ticket<T> = Ticket(producer: Tid, item: T, put: PutStage, take: TakeStage)

  datatype State<T> = State(
    cells: seq<Cell<T>>, enqueuePos: nat, dequeuePos: nat,
    threads: map<Tid, Local<T>>, tickets: seq<Ticket<T>>)

  datatype Action<T> =
    | CallEnqueue(arg: T)
    | CallDequeue
    | CallSize
    | Advance            // the next atomic access of the call
    | SpuriousFailure    // compare_exchange_weak fails although the values agree
    | Return

  datatype Move<T> = Move(tid: Tid, action: Action<T>)

  // ----- initial states and steps

  function IdleThread<T>(): Local<T> {
    Local(Idle, 0, 0, None, false, 0, 0)
  }

  ghost predicate Init<T>(s: State<T>) {
    && |s.cells| >= 2
    && (forall i | 0 <= i < |s.cells| :: s.cells[i].sequence == i)
    && s.enqueuePos == 0 && s.dequeuePos == 0
    && (forall tid | tid in s.threads :: s.threads[tid] == IdleThread())
    && s.tickets == []
  }

  function Slot(pos: nat, n: nat): (i: nat)
    requires n > 0
    ensures i < n
  {
    pos % n
  }

  predicate Enabled<T>(s: State<T>, m: Move<T>) {
    && |s.cells| > 0
    && m.tid in s.threads
    && var l := s.threads[m.tid];
       match m.action
       case CallEnqueue(_) => l.pc.Idle?
       case CallDequeue => l.pc.Idle?
       case CallSize => l.pc.Idle?
       case Return => l.pc.EnqReturn? || l.pc.DeqReturn? || l.pc.SizeReturn?
       case SpuriousFailure =>
         || (l.pc.EnqTry? && l.sequence == l.pos && s.enqueuePos == l.pos)
         || (l.pc.DeqTry? && l.sequence == l.pos + 1 && s.dequeuePos == l.pos)
       case Advance =>
         && !l.pc.Idle? && !l.pc.EnqReturn? && !l.pc.DeqReturn? && !l.pc.SizeReturn?
         && (l.pc.EnqTry? ==> l.item.Some?)
  }

  function SetPut<T>(tickets: seq<Ticket<T>>, t: nat, stage: PutStage): seq<Ticket<T>> {
    if t < |tickets| then tickets[t := tickets[t].(put := stage)] else tickets
  }

  function SetTake<T>(tickets: seq<Ticket<T>>, t: nat, stage: TakeStage): seq<Ticket<T>> {
    if t < |tickets| then tickets[t := tickets[t].(take := stage)] else tickets
  }

  function SetThread<T>(s: State<T>, tid: Tid, l: Local<T>): State<T> {
    s.(threads := s.threads[tid := l])
  }

  function Step<T>(s: State<T>, m: Move<T>): State<T>
    requires Enabled(s, m)
  {
    var l := s.threads[m.tid];
    match m.action
    case CallEnqueue(arg) => SetThread(s, m.tid, IdleThread<T>().(pc := EnqLoadPos, item := Some(arg)))
    case CallDequeue => SetThread(s, m.tid, IdleThread<T>().(pc := DeqLoadPos))
    case CallSize => SetThread(s, m.tid, IdleThread<T>().(pc := SizeLoadFirst))
    case Return => SetThread(s, m.tid, IdleThread())
    case SpuriousFailure =>
      SetThread(s, m.tid, l.(pc := if l.pc.EnqTry? then EnqLoadSeq else DeqLoadSeq))
    case Advance => AdvanceStep(s, m.tid)
  }

  function AdvanceStep<T>(s: State<T>, tid: Tid): State<T>
    requires Enabled(s, Move(tid, Advance))
  {
    var l := s.threads[tid];
    match l.pc
    case EnqLoadPos => SetThread(s, tid, l.(pc := EnqLoadSeq, pos := s.enqueuePos, start := s.enqueuePos))
    case EnqLoadSeq => SetThread(s, tid, l.(pc := EnqTry, sequence := s.cells[Slot(l.pos, |s.cells|)].sequence))
    case EnqTry => EnqTryStep(s, tid)
    case EnqMove => EnqMoveStep(s, tid)
    case EnqPublish => EnqPublishStep(s, tid)
    case DeqLoadPos => SetThread(s, tid, l.(pc := DeqLoadSeq, pos := s.dequeuePos, start := s.dequeuePos))
    case DeqLoadSeq => SetThread(s, tid, l.(pc := DeqTry, sequence := s.cells[Slot(l.pos, |s.cells|)].sequence))
    case DeqTry => DeqTryStep(s, tid)
    case DeqMove => DeqMoveStep(s, tid)
    case DeqRelease => DeqReleaseStep(s, tid)
    case SizeLoadFirst => SetThread(s, tid, l.(pc := SizeLoadLast, pos := s.dequeuePos))
    case SizeLoadLast => SetThread(s, tid, l.(pc := SizeReturn, sequence := s.enqueuePos))
  }

  /** The branch on `dif`, with the compare-and-swap when it is zero. */
  function EnqTryStep<T>(s: State<T>, tid: Tid): State<T>
    requires tid in s.threads && s.threads[tid].item.Some?
  {
    var l := s.threads[tid];
    var dif := l.sequence - l.pos;
    if dif == 0 && s.enqueuePos == l.pos then
      s.(enqueuePos := l.pos + 1,
         tickets := s.tickets + [Ticket(tid, l.item.value, Claimed, Unclaimed)],
         threads := s.threads[tid := l.(pc := EnqMove)])
    else if dif < 0 then
      SetThread(s, tid, l.(pc := EnqReturn, ok := false))
    else
      SetThread(s, tid, l.(pc := EnqLoadSeq, pos := s.enqueuePos, retries := l.retries + 1))
  }

  function EnqMoveStep<T>(s: State<T>, tid: Tid): State<T>
    requires tid in s.threads && |s.cells| > 0
  {
    var l := s.threads[tid];
    var i := Slot(l.pos, |s.cells|);
    s.(cells := s.cells[i := s.cells[i].(data := l.item)],
       tickets := SetPut(s.tickets, l.pos, Moved),
       threads := s.threads[tid := l.(pc := EnqPublish, item := None)])
  }

  function EnqPublishStep<T>(s: State<T>, tid: Tid): State<T>
    requires tid in s.threads && |s.cells| > 0
  {
    var l := s.threads[tid];
    var i := Slot(l.pos, |s.cells|);
    s.(cells := s.cells[i := s.cells[i].(sequence := l.pos + 1)],
       tickets := SetPut(s.tickets, l.pos, Published),
       threads := s.threads[tid := l.(pc := EnqReturn, ok := true)])
  }

  function DeqTryStep<T>(s: State<T>, tid: Tid): State<T>
    requires tid in s.threads
  {
    var l := s.threads[tid];
    var dif := l.sequence - (l.pos + 1);
    if dif == 0 && s.dequeuePos == l.pos then
      s.(dequeuePos := l.pos + 1,
         tickets := SetTake(s.tickets, l.pos, Taking(tid)),
         threads := s.threads[tid := l.(pc := DeqMove)])
    else if dif < 0 then
      SetThread(s, tid, l.(pc := DeqReturn, ok := false))
    else
      SetThread(s, tid, l.(pc := DeqLoadSeq, pos := s.dequeuePos, retries := l.retries + 1))
  }

  function DeqMoveStep<T>(s: State<T>, tid: Tid): State<T>
    requires tid in s.threads && |s.cells| > 0
  {
    var l := s.threads[tid];
    var i := Slot(l.pos, |s.cells|);
    s.(cells := s.cells[i := s.cells[i].(data := None)],
       tickets := SetTake(s.tickets, l.pos, Taken(tid)),
       threads := s.threads[tid := l.(pc := DeqRelease, item := s.cells[i].data)])
  }

  function DeqReleaseStep<T>(s: State<T>, tid: Tid): State<T>
    requires tid in s.threads && |s.cells| > 0
  {
    var l := s.threads[tid];
    var i := Slot(l.pos, |s.cells|);
    s.(cells := s.cells[i := s.cells[i].(sequence := l.pos + |s.cells|)],
       tickets := SetTake(s.tickets, l.pos, Released(tid)),
       threads := s.threads[tid := l.(pc := DeqReturn, ok := true)])
  }
}
