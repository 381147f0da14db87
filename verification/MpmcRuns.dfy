/** What the queue promises over whole runs: FIFO by ticket with no loss and no
    duplication, mutual exclusion on cells, what a false return means, and the
    bound on retries. */
module MpmcRuns {
  import opened Options
  import opened MpmcProtocol
  import opened MpmcInvariant
  import opened MpmcPreservation

  /** An interleaving: `moves[i]` leads from `states[i]` to `states[i + 1]`. */
  ghost predicate IsRun<T>(states: seq<State<T>>, moves: seq<Move<T>>) {
    && |states| == |moves| + 1
    && Init(states[0])
    && forall i | 0 <= i < |moves| :: Enabled(states[i], moves[i]) && states[i + 1] == Step(states[i], moves[i])
  }

  lemma {:induction false} RunKeepsInv<T>(states: seq<State<T>>, moves: seq<Move<T>>, j: nat)
    requires IsRun(states, moves) && j <= |moves|
    ensures Inv(states[j])
    ensures |states[j].cells| == |states[0].cells| && states[j].threads.Keys == states[0].threads.Keys
  {
    hide Inv;
    if j == 0 {
      InitSatisfiesInv(states[0]);
    } else {
      RunKeepsInv(states, moves, j - 1);
      StepKeepsInv(states[j - 1], moves[j - 1]);
    }
  }

  // ----- properties of every reachable state

  /** The counters bracket the queue, and a sequence number tells the phase of
      its cell: free for the ticket q, claimed and being filled for q, or
      holding the published and not yet released ticket q - 1; never two of them. */
  lemma ReachableStateIsSound<T>(states: seq<State<T>>, moves: seq<Move<T>>, j: nat)
    requires IsRun(states, moves) && j <= |moves|
    ensures var s, n := states[j], |states[j].cells|;
            && s.dequeuePos <= s.enqueuePos <= s.dequeuePos + n
            && forall i | 0 <= i < n ::
                 var q := s.cells[i].sequence;
                 var forTicket, pastTicket := Slot(q, n) == i, q > 0 && Slot(q - 1, n) == i;
                 && (forTicket <==> !pastTicket)
                 && (forTicket ==> IsFree(s.tickets, n, q) && !IsPublished(s.tickets, q))
                 && (pastTicket ==> IsPublished(s.tickets, q - 1) && !IsReleased(s.tickets, q - 1))
  {
    RunKeepsInv(states, moves, j);
    var s, n := states[j], |states[j].cells|;
    if s.dequeuePos < s.enqueuePos {
      assert TicketOk(s, s.dequeuePos);
    }
    forall i | 0 <= i < n
      ensures var q := s.cells[i].sequence;
              var forTicket, pastTicket := Slot(q, n) == i, q > 0 && Slot(q - 1, n) == i;
              && (forTicket <==> !pastTicket)
              && (forTicket ==> IsFree(s.tickets, n, q) && !IsPublished(s.tickets, q))
              && (pastTicket ==> IsPublished(s.tickets, q - 1) && !IsReleased(s.tickets, q - 1))
    {
      PhaseOfCell(s, i);
    }
  }

  lemma PhaseOfCell<T>(s: State<T>, i: nat)
    requires Inv(s) && i < |s.cells|
    ensures var q, n := s.cells[i].sequence, |s.cells|;
            var forTicket, pastTicket := Slot(q, n) == i, q > 0 && Slot(q - 1, n) == i;
            && (forTicket <==> !pastTicket)
            && (forTicket ==> IsFree(s.tickets, n, q) && !IsPublished(s.tickets, q))
            && (pastTicket ==> IsPublished(s.tickets, q - 1) && !IsReleased(s.tickets, q - 1))
  {
    var q, n := s.cells[i].sequence, |s.cells|;
    var u := TicketOfCell(s, i);
    if q > 0 {
      SlotsDiffer(q - 1, q, n);
    }
    assert FreeCellOk(s, u);
    if IsFree(s.tickets, n, u) {
    } else {
      assert LiveCellOk(s, u - n) && TicketOk(s, u - n);
      if q == u - n && q >= n {
        assert TicketOk(s, q - n);
      }
    }
  }

  /** The ticket of the current lap that belongs to cell i. */
  lemma TicketOfCell<T>(s: State<T>, i: nat) returns (u: nat)
    requires CountersOk(s) && i < |s.cells|
    ensures s.enqueuePos <= u < s.enqueuePos + |s.cells| && Slot(u, |s.cells|) == i
    ensures u >= |s.cells| ==> Slot(u - |s.cells|, |s.cells|) == i
  {
    var n := |s.cells|;
    assert Slot(i, n) == i;
    if i <= s.enqueuePos {
      u := WindowTicket(i, s.enqueuePos, n);
      WindowTicketSharesSlot(i, s.enqueuePos, n);
    } else {
      u := i;
    }
    if u >= n {
      SlotOfNextLap(u - n, n);
    }
  }

  ghost predicate InTransit<T>(l: Local<T>) {
    l.pc.EnqMove? || l.pc.EnqPublish? || l.pc.DeqMove? || l.pc.DeqRelease?
  }

  /** No two threads are between claim and sequence store on the same cell. */
  lemma CellsAreExclusive<T>(states: seq<State<T>>, moves: seq<Move<T>>, j: nat, a: Tid, b: Tid)
    requires IsRun(states, moves) && j <= |moves|
    requires a in states[j].threads && b in states[j].threads && a != b
    requires InTransit(states[j].threads[a]) && InTransit(states[j].threads[b])
    ensures var n := |states[j].cells|;
            n > 0 && Slot(states[j].threads[a].pos, n) != Slot(states[j].threads[b].pos, n)
  {
    RunKeepsInv(states, moves, j);
    var s := states[j];
    var la, lb := s.threads[a], s.threads[b];
    assert ThreadOk(la, a, s.tickets, s.dequeuePos, |s.cells|);
    assert ThreadOk(lb, b, s.tickets, s.dequeuePos, |s.cells|);
    assert TicketOk(s, la.pos) && TicketOk(s, lb.pos);
    if la.pos < lb.pos {
      SlotsDiffer(la.pos, lb.pos, |s.cells|);
    } else if lb.pos < la.pos {
      SlotsDiffer(lb.pos, la.pos, |s.cells|);
    }
  }

  /** No step of the machine is blocked by its side conditions: a thread that
      is inside a call, or about to return from one, can always move. */
  lemma ThreadsNeverBlock<T>(states: seq<State<T>>, moves: seq<Move<T>>, j: nat, tid: Tid)
    requires IsRun(states, moves) && j <= |moves| && tid in states[j].threads
    requires !states[j].threads[tid].pc.Idle?
    ensures Enabled(states[j], Move(tid, Advance)) || Enabled(states[j], Move(tid, Return))
  {
    RunKeepsInv(states, moves, j);
    assert ThreadOk(states[j].threads[tid], tid, states[j].tickets, states[j].dequeuePos, |states[j].cells|);
  }

  // ----- claims

  /** Step i is a successful compare-and-swap on the enqueue counter. */
  ghost predicate EnqueueClaim<T>(states: seq<State<T>>, moves: seq<Move<T>>, i: nat, t: nat)
    requires IsRun(states, moves)
  {
    && i < |moves| && moves[i].action.Advance?
    && states[i].threads[moves[i].tid].pc.EnqTry? && states[i].threads[moves[i].tid].pos == t
    && states[i + 1].threads[moves[i].tid].pc.EnqMove?
  }

  ghost predicate DequeueClaim<T>(states: seq<State<T>>, moves: seq<Move<T>>, i: nat, t: nat)
    requires IsRun(states, moves)
  {
    && i < |moves| && moves[i].action.Advance?
    && states[i].threads[moves[i].tid].pc.DeqTry? && states[i].threads[moves[i].tid].pos == t
    && states[i + 1].threads[moves[i].tid].pc.DeqMove?
  }

  lemma {:induction false} CountersGrow<T>(states: seq<State<T>>, moves: seq<Move<T>>, i: nat, j: nat)
    requires IsRun(states, moves) && i <= j <= |moves|
    ensures states[i].enqueuePos <= states[j].enqueuePos && states[i].dequeuePos <= states[j].dequeuePos
    decreases j - i
  {
    if i < j {
      CountersGrow(states, moves, i, j - 1);
      assert states[j] == Step(states[j - 1], moves[j - 1]);
    }
  }

  /** Each ticket is claimed by at most one enqueuer and at most one dequeuer. */
  lemma TicketsAreClaimedOnce<T>(states: seq<State<T>>, moves: seq<Move<T>>, i: nat, j: nat, t: nat)
    requires IsRun(states, moves)
    requires || (EnqueueClaim(states, moves, i, t) && EnqueueClaim(states, moves, j, t))
             || (DequeueClaim(states, moves, i, t) && DequeueClaim(states, moves, j, t))
    ensures i == j
  {
    assert states[i + 1] == Step(states[i], moves[i]);
    assert states[j + 1] == Step(states[j], moves[j]);
    if i < j {
      CountersGrow(states, moves, i + 1, j);
    } else if j < i {
      CountersGrow(states, moves, j + 1, i);
    }
  }

  /** The call that `tid` is in at state j started in step c, as an enqueue of x. */
  ghost predicate CalledWith<T>(moves: seq<Move<T>>, tid: Tid, x: T, c: nat, j: nat) {
    && c < j && c < |moves| && moves[c] == Move(tid, CallEnqueue(x))
    && forall m | c < m < j && m < |moves| && moves[m].tid == tid ::
         moves[m].action.Advance? || moves[m].action.SpuriousFailure?
  }

  /** The argument has not been moved into a cell. */
  predicate HasArgument<T>(l: Local<T>) {
    l.pc.EnqLoadPos? || l.pc.EnqLoadSeq? || l.pc.EnqTry? || l.pc.EnqMove? || (l.pc.EnqReturn? && !l.ok)
  }

  /** What an enqueue has in hand is what it was called with. */
  lemma {:induction false} ArgumentInHand<T>(states: seq<State<T>>, moves: seq<Move<T>>, j: nat, tid: Tid) returns (c: nat)
    requires IsRun(states, moves) && j <= |moves| && tid in states[j].threads && HasArgument(states[j].threads[tid])
    ensures states[j].threads[tid].item.Some?
    ensures CalledWith(moves, tid, states[j].threads[tid].item.value, c, j)
  {
    hide Step;
    assert j > 0 by {
      assert forall o | o in states[0].threads :: states[0].threads[o] == IdleThread();
    }
    RunKeepsThreads(states, moves, j - 1);
    assert states[j] == Step(states[j - 1], moves[j - 1]);
    if moves[j - 1].tid == tid {
      StepToArgument(states[j - 1], moves[j - 1]);
      if moves[j - 1].action.CallEnqueue? {
        c := j - 1;
      } else {
        c := ArgumentInHand(states, moves, j - 1, tid);
      }
    } else {
      c := ArgumentInHand(states, moves, j - 1, tid);
    }
  }

  lemma StepToArgument<T>(s: State<T>, m: Move<T>)
    requires Enabled(s, m) && HasArgument(Step(s, m).threads[m.tid])
    ensures var l, l' := s.threads[m.tid], Step(s, m).threads[m.tid];
            match m.action
            case CallEnqueue(x) => l'.item == Some(x)
            case _ => (m.action.Advance? || m.action.SpuriousFailure?) && HasArgument(l) && l'.item == l.item
  {
  }

  /** The step that claimed ticket t, and the call whose argument it claimed it for. */
  lemma ClaimOfTicket<T>(states: seq<State<T>>, moves: seq<Move<T>>, j: nat, t: nat) returns (c: nat, i: nat)
    requires IsRun(states, moves) && j <= |moves| && t < |states[j].tickets|
    ensures i < j && EnqueueClaim(states, moves, i, t)
    ensures moves[i].tid == states[j].tickets[t].producer
    ensures CalledWith(moves, moves[i].tid, states[j].tickets[t].item, c, i)
  {
    i := ClaimWithItem(states, moves, j, t);
    c := ArgumentInHand(states, moves, i, moves[i].tid);
  }

  lemma {:induction false} ClaimWithItem<T>(states: seq<State<T>>, moves: seq<Move<T>>, j: nat, t: nat) returns (i: nat)
    requires IsRun(states, moves) && j <= |moves| && t < |states[j].tickets|
    ensures i < j && EnqueueClaim(states, moves, i, t)
    ensures moves[i].tid == states[j].tickets[t].producer
    ensures states[i].threads[moves[i].tid].item == Some(states[j].tickets[t].item)
  {
    hide Inv, Step;
    RunKeepsInv(states, moves, j - 1);
    assert states[j] == Step(states[j - 1], moves[j - 1]);
    NewTicket(states[j - 1], moves[j - 1], t);
    if t < |states[j - 1].tickets| {
      i := ClaimWithItem(states, moves, j - 1, t);
    } else {
      i := j - 1;
    }
  }

  /** A step that makes a ticket is the claim that makes it. */
  lemma NewTicket<T>(s: State<T>, m: Move<T>, t: nat)
    requires Inv(s) && Enabled(s, m) && t < |Step(s, m).tickets|
    ensures var s' := Step(s, m);
            if t < |s.tickets| then s'.tickets[t].producer == s.tickets[t].producer && s'.tickets[t].item == s.tickets[t].item
            else
              && m.action.Advance? && s.threads[m.tid].pc.EnqTry? && s.threads[m.tid].pos == t
              && s'.threads[m.tid].pc.EnqMove?
              && m.tid == s'.tickets[t].producer && s.threads[m.tid].item == Some(s'.tickets[t].item)
  {
    hide CellsOk, OwnersOk;
  }

  /** The step that took ticket t, and whose it was. */
  lemma {:induction false} TakeOfTicket<T>(states: seq<State<T>>, moves: seq<Move<T>>, j: nat, t: nat) returns (i: nat)
    requires IsRun(states, moves) && j <= |moves| && t < states[j].dequeuePos
    ensures i < j && DequeueClaim(states, moves, i, t)
    ensures t < |states[j].tickets| && !states[j].tickets[t].take.Unclaimed?
    ensures moves[i].tid == states[j].tickets[t].take.consumer
  {
    hide Inv, Step;
    RunKeepsInv(states, moves, j - 1);
    assert states[j] == Step(states[j - 1], moves[j - 1]);
    TakenTicket(states[j - 1], moves[j - 1], t);
    if t < states[j - 1].dequeuePos {
      i := TakeOfTicket(states, moves, j - 1, t);
    } else {
      i := j - 1;
    }
  }

  /** A step that moves the dequeue counter past t is the claim of t, and who took
      a ticket never changes. */
  lemma TakenTicket<T>(s: State<T>, m: Move<T>, t: nat)
    requires Inv(s) && Enabled(s, m) && t < Step(s, m).dequeuePos
    ensures var s' := Step(s, m);
            && t < |s'.tickets| && !s'.tickets[t].take.Unclaimed?
            && (t < s.dequeuePos ==>
                  && t < |s.tickets| && !s.tickets[t].take.Unclaimed?
                  && s'.tickets[t].take.consumer == s.tickets[t].take.consumer)
            && (t >= s.dequeuePos ==>
                  && m.action.Advance? && s.threads[m.tid].pc.DeqTry? && s.threads[m.tid].pos == t
                  && s'.threads[m.tid].pc.DeqMove? && s'.tickets[t].take.consumer == m.tid)
  {
    hide OwnersOk, FreeCellOk, LiveCellOk;
    assert ThreadOk(s.threads[m.tid], m.tid, s.tickets, s.dequeuePos, |s.cells|);
    assert t < |s.tickets| ==> TicketOk(s, t);
  }

  /** The dequeue call a thread is in, or about to return true from, made its claim
      itself, and has not returned since. */
  ghost predicate HoldsTake<T>(l: Local<T>) {
    l.pc.DeqMove? || l.pc.DeqRelease? || (l.pc.DeqReturn? && l.ok)
  }

  /** No call of `tid` ends in steps from..to. */
  ghost predicate NoReturn<T>(moves: seq<Move<T>>, tid: Tid, from: nat, to: nat) {
    forall m | from <= m < to && m < |moves| && moves[m].tid == tid :: !moves[m].action.Return?
  }

  lemma {:induction false} OwnDequeueClaim<T>(states: seq<State<T>>, moves: seq<Move<T>>, j: nat, tid: Tid) returns (i: nat)
    requires IsRun(states, moves) && j <= |moves| && tid in states[j].threads && HoldsTake(states[j].threads[tid])
    ensures i < j && moves[i].tid == tid && DequeueClaim(states, moves, i, states[j].threads[tid].pos)
    ensures NoReturn(moves, tid, i, j)
  {
    hide Step;
    assert j > 0 by {
      assert forall o | o in states[0].threads :: states[0].threads[o] == IdleThread();
    }
    RunKeepsThreads(states, moves, j - 1);
    assert states[j] == Step(states[j - 1], moves[j - 1]);
    if moves[j - 1].tid == tid {
      StepToTake(states[j - 1], moves[j - 1]);
      if HoldsTake(states[j - 1].threads[tid]) {
        i := OwnDequeueClaim(states, moves, j - 1, tid);
      } else {
        i := j - 1;
      }
    } else {
      i := OwnDequeueClaim(states, moves, j - 1, tid);
    }
  }

  lemma StepToTake<T>(s: State<T>, m: Move<T>)
    requires Enabled(s, m) && HoldsTake(Step(s, m).threads[m.tid])
    ensures m.action.Advance?
    ensures var l, l' := s.threads[m.tid], Step(s, m).threads[m.tid];
            && l'.pos == l.pos
            && (HoldsTake(l) || (l.pc.DeqTry? && l'.pc.DeqMove?))
  {
  }

  /** FIFO by ticket, no loss. In every interleaving, a dequeue that returns true
      under ticket t claimed t itself, in the call that now returns; its claim is the
      only one of t, and it returns the argument of the one enqueue call that claimed t,
      and did so first. */
  lemma DequeueReturnsItemOfItsTicket<T>(states: seq<State<T>>, moves: seq<Move<T>>, j: nat, tid: Tid)
    requires IsRun(states, moves) && j <= |moves| && tid in states[j].threads
    requires states[j].threads[tid].pc.DeqReturn? && states[j].threads[tid].ok
    ensures var l := states[j].threads[tid];
            && l.item.Some?
            && (exists c: nat, i: nat, k: nat ::
                  && i < k < j
                  && EnqueueClaim(states, moves, i, l.pos)
                  && CalledWith(moves, moves[i].tid, l.item.value, c, i)
                  && DequeueClaim(states, moves, k, l.pos)
                  && moves[k].tid == tid && NoReturn(moves, tid, k, j))
            && (forall i, k | EnqueueClaim(states, moves, i, l.pos) && EnqueueClaim(states, moves, k, l.pos) :: i == k)
            && (forall i, k | DequeueClaim(states, moves, i, l.pos) && DequeueClaim(states, moves, k, l.pos) :: i == k)
  {
    RunKeepsInv(states, moves, j);
    var s, l := states[j], states[j].threads[tid];
    assert ThreadOk(l, tid, s.tickets, s.dequeuePos, |s.cells|);
    var k := OwnDequeueClaim(states, moves, j, tid);
    var c, i := ClaimOfTicket(states, moves, j, l.pos);
    ClaimsInOrder(states, moves, i, k, l.pos);
    forall i, k | EnqueueClaim(states, moves, i, l.pos) && EnqueueClaim(states, moves, k, l.pos)
      ensures i == k
    {
      TicketsAreClaimedOnce(states, moves, i, k, l.pos);
    }
    forall i, k | DequeueClaim(states, moves, i, l.pos) && DequeueClaim(states, moves, k, l.pos)
      ensures i == k
    {
      TicketsAreClaimedOnce(states, moves, i, k, l.pos);
    }
  }

  /** A ticket is claimed by its enqueuer before it is claimed by its dequeuer. */
  lemma ClaimsInOrder<T>(states: seq<State<T>>, moves: seq<Move<T>>, i: nat, k: nat, t: nat)
    requires IsRun(states, moves) && EnqueueClaim(states, moves, i, t) && DequeueClaim(states, moves, k, t)
    ensures i < k
  {
    RunKeepsInv(states, moves, k);
    var s, l := states[k], states[k].threads[moves[k].tid];
    assert ThreadOk(l, moves[k].tid, s.tickets, s.dequeuePos, |s.cells|);
    assert states[k + 1] == Step(s, moves[k]);
    assert states[i + 1] == Step(states[i], moves[i]);
    assert t < s.enqueuePos && states[i].enqueuePos == t;
    if k <= i {
      CountersGrow(states, moves, k, i);
    }
  }

  /** No duplication: no two dequeue calls ever return true under the same ticket. */
  lemma TicketsAreReturnedOnce<T>(states: seq<State<T>>, moves: seq<Move<T>>, i: nat, j: nat)
    requires IsRun(states, moves) && i < |moves| && j < |moves|
    requires ReturnsTake(states, moves, i) && ReturnsTake(states, moves, j)
    requires states[i].threads[moves[i].tid].pos == states[j].threads[moves[j].tid].pos
    ensures i == j
  {
    var t := states[i].threads[moves[i].tid].pos;
    var k := OwnDequeueClaim(states, moves, i, moves[i].tid);
    var m := OwnDequeueClaim(states, moves, j, moves[j].tid);
    TicketsAreClaimedOnce(states, moves, k, m, t);
    assert moves[i].tid == moves[j].tid && k == m;
  }

  /** Step i ends a dequeue call that returns true. */
  ghost predicate ReturnsTake<T>(states: seq<State<T>>, moves: seq<Move<T>>, i: nat)
    requires IsRun(states, moves) && i < |moves|
  {
    && moves[i].action.Return?
    && states[i].threads[moves[i].tid].pc.DeqReturn? && states[i].threads[moves[i].tid].ok
  }

  /** Nothing is lost: when no call is in progress, every ticket below the
      dequeue counter has been handed out and every other one is in its cell. */
  lemma QuiescentQueueHoldsTheRest<T>(states: seq<State<T>>, moves: seq<Move<T>>, j: nat)
    requires IsRun(states, moves) && j <= |moves|
    requires forall tid | tid in states[j].threads :: states[j].threads[tid].pc.Idle?
    ensures IsQuiescent(states[j])
  {
    RunKeepsInv(states, moves, j);
    IdleMeansQuiescent(states[j]);
  }

  ghost predicate IsQuiescent<T>(s: State<T>) {
    && |s.cells| >= 2 && |s.tickets| == s.enqueuePos && s.dequeuePos <= s.enqueuePos
    && (forall t | 0 <= t < s.dequeuePos :: IsReleased(s.tickets, t))
    && (forall t | s.dequeuePos <= t < s.enqueuePos ::
          s.cells[Slot(t, |s.cells|)] == Cell(t + 1, Some(s.tickets[t].item)))
  }

  lemma IdleMeansQuiescent<T>(s: State<T>)
    requires Inv(s) && forall tid | tid in s.threads :: s.threads[tid].pc.Idle?
    ensures IsQuiescent(s)
  {
    forall t | 0 <= t < s.enqueuePos
      ensures t < s.dequeuePos ==> IsReleased(s.tickets, t)
      ensures t >= s.dequeuePos ==> s.cells[Slot(t, |s.cells|)] == Cell(t + 1, Some(s.tickets[t].item))
    {
      assert HasOwner(s, t) && TicketOk(s, t) && LiveCellOk(s, t);
    }
  }

  // ----- what false means

  lemma StepTouchesOwnThreadOnly<T>(s: State<T>, m: Move<T>)
    requires Enabled(s, m)
    ensures Step(s, m).threads.Keys == s.threads.Keys
    ensures forall o | o in s.threads && o != m.tid :: Step(s, m).threads[o] == s.threads[o]
  {
  }

  lemma RunKeepsThreads<T>(states: seq<State<T>>, moves: seq<Move<T>>, i: nat)
    requires IsRun(states, moves) && i < |moves|
    ensures states[i + 1].threads.Keys == states[i].threads.Keys
    ensures forall o | o in states[i].threads && o != moves[i].tid :: states[i + 1].threads[o] == states[i].threads[o]
  {
    assert states[i + 1] == Step(states[i], moves[i]);
    StepTouchesOwnThreadOnly(states[i], moves[i]);
  }

  /** `tid` takes none of the steps from..to. */
  ghost predicate Quiet<T>(moves: seq<Move<T>>, tid: Tid, from: nat, to: nat) {
    forall m | from <= m < to && m < |moves| :: moves[m].tid != tid
  }

  /** The last step of `tid` before state j left it as it is in state j. */
  lemma {:induction false} LastOwnStep<T>(states: seq<State<T>>, moves: seq<Move<T>>, j: nat, tid: Tid) returns (i: nat)
    requires IsRun(states, moves) && j <= |moves|
    requires tid in states[j].threads && !states[j].threads[tid].pc.Idle?
    ensures i < j && moves[i].tid == tid && tid in states[i].threads
    ensures states[i + 1].threads[tid] == states[j].threads[tid] && Quiet(moves, tid, i + 1, j)
  {
    assert j > 0 by {
      assert forall o | o in states[0].threads :: states[0].threads[o] == IdleThread();
    }
    RunKeepsThreads(states, moves, j - 1);
    if moves[j - 1].tid == tid {
      i := j - 1;
    } else {
      i := LastOwnStep(states, moves, j - 1, tid);
    }
  }

  /** The load of the sequence number that a thread now branches on. */
  lemma SequenceLoad<T>(states: seq<State<T>>, moves: seq<Move<T>>, j: nat, tid: Tid) returns (i: nat)
    requires IsRun(states, moves) && j <= |moves| && tid in states[j].threads
    requires states[j].threads[tid].pc.EnqTry? || states[j].threads[tid].pc.DeqTry?
    ensures i < j && |states[i].cells| > 0 && Quiet(moves, tid, i + 1, j)
    ensures moves[i] == Move(tid, Advance) && tid in states[i].threads
    ensures states[i].threads[tid].pos == states[j].threads[tid].pos
    ensures states[i].threads[tid].pc == if states[j].threads[tid].pc.EnqTry? then EnqLoadSeq else DeqLoadSeq
    ensures states[j].threads[tid].sequence
            == states[i].cells[Slot(states[j].threads[tid].pos, |states[i].cells|)].sequence
    ensures states[j].threads[tid].pc.EnqTry? ==> states[j].threads[tid].pos <= states[i].enqueuePos
    ensures states[j].threads[tid].pc.DeqTry? ==> states[j].threads[tid].pos <= states[i].dequeuePos
  {
    hide Inv, Step;
    i := LastOwnStep(states, moves, j, tid);
    RunKeepsInv(states, moves, i);
    assert states[i + 1] == Step(states[i], moves[i]);
    LoadOfStep(states[i], moves[i]);
  }

  /** Only the load of the sequence number leads to the branch on it. */
  lemma LoadOfStep<T>(s: State<T>, m: Move<T>)
    requires Inv(s) && Enabled(s, m)
    requires var pc := Step(s, m).threads[m.tid].pc; pc.EnqTry? || pc.DeqTry?
    ensures |s.cells| > 0 && m.action.Advance?
    ensures var l := Step(s, m).threads[m.tid];
            && s.threads[m.tid].pos == l.pos
            && s.threads[m.tid].pc == (if l.pc.EnqTry? then EnqLoadSeq else DeqLoadSeq)
            && l.sequence == s.cells[Slot(l.pos, |s.cells|)].sequence
            && (l.pc.EnqTry? ==> l.pos <= s.enqueuePos)
            && (l.pc.DeqTry? ==> l.pos <= s.dequeuePos)
  {
    hide CellsOk, OwnersOk;
    assert ThreadOk(s.threads[m.tid], m.tid, s.tickets, s.dequeuePos, |s.cells|);
  }

  lemma OnlyTryReturnsFalse<T>(s: State<T>, m: Move<T>)
    requires Enabled(s, m)
    requires var l' := Step(s, m).threads[m.tid]; (l'.pc.EnqReturn? || l'.pc.DeqReturn?) && !l'.ok
    ensures m.action.Advance?
    ensures var l, l' := s.threads[m.tid], Step(s, m).threads[m.tid];
            && l'.pos == l.pos && l'.item == l.item
            && (l'.pc.EnqReturn? ==> l.pc.EnqTry? && l.sequence < l.pos)
            && (l'.pc.DeqReturn? ==> l.pc.DeqTry? && l.sequence < l.pos + 1)
  {
  }

  /** In state j, `tid` is about to return what it decided in its step k on the
      sequence number it loaded in its step i for the position it still has. Between
      and after these steps it took no other. */
  ghost predicate DecidedOn<T>(states: seq<State<T>>, moves: seq<Move<T>>, j: nat, tid: Tid, load: Pc, i: nat, k: nat)
    requires IsRun(states, moves) && j <= |moves| && tid in states[j].threads
  {
    && i < k < j && tid in states[i].threads
    && moves[i] == Move(tid, Advance) && moves[k] == Move(tid, Advance)
    && states[i].threads[tid].pc == load && states[i].threads[tid].pos == states[j].threads[tid].pos
    && Quiet(moves, tid, i + 1, k) && Quiet(moves, tid, k + 1, j)
  }

  /** Enqueue returns false only if, when it loaded the sequence number it decided on,
      ticket pos - N was claimed but not yet released; the argument of the call, which
      started before that load, is then still in its hands. */
  lemma EnqueueFalseMeansLapNotReleased<T>(states: seq<State<T>>, moves: seq<Move<T>>, j: nat, tid: Tid)
    requires IsRun(states, moves) && j <= |moves| && tid in states[j].threads
    requires states[j].threads[tid].pc.EnqReturn? && !states[j].threads[tid].ok
    ensures states[j].threads[tid].item.Some?
    ensures var pos, n := states[j].threads[tid].pos, |states[j].cells|;
            exists c: nat, i: nat, k: nat ::
              && CalledWith(moves, tid, states[j].threads[tid].item.value, c, j) && c < i
              && DecidedOn(states, moves, j, tid, EnqLoadSeq, i, k)
              && n <= pos && pos - n < |states[i].tickets| && !IsReleased(states[i].tickets, pos - n)
  {
    var l := states[j].threads[tid];
    RunKeepsInv(states, moves, j);
    assert ThreadOk(l, tid, states[j].tickets, states[j].dequeuePos, |states[j].cells|);
    var k := LastOwnStep(states, moves, j, tid);
    OnlyTryReturnsFalse(states[k], moves[k]);
    var i := SequenceLoad(states, moves, k, tid);
    RunKeepsInv(states, moves, i);
    EnqueueSequenceMeaning(states[i], l.pos);
    assert DecidedOn(states, moves, j, tid, EnqLoadSeq, i, k);
    var c := ArgumentInHand(states, moves, j, tid);
    assert c < i;
  }

  /** Dequeue returns false only if, when it loaded the sequence number it decided on,
      ticket pos was not published, whatever later tickets were, and all before it
      were claimed by dequeuers. */
  lemma DequeueFalseMeansNotPublished<T>(states: seq<State<T>>, moves: seq<Move<T>>, j: nat, tid: Tid)
    requires IsRun(states, moves) && j <= |moves| && tid in states[j].threads
    requires states[j].threads[tid].pc.DeqReturn? && !states[j].threads[tid].ok
    ensures var pos := states[j].threads[tid].pos;
            exists i: nat, k: nat ::
              && DecidedOn(states, moves, j, tid, DeqLoadSeq, i, k)
              && states[i].dequeuePos == pos && !IsPublished(states[i].tickets, pos)
  {
    var k := LastOwnStep(states, moves, j, tid);
    var l := states[j].threads[tid];
    OnlyTryReturnsFalse(states[k], moves[k]);
    var i := SequenceLoad(states, moves, k, tid);
    RunKeepsInv(states, moves, i);
    DequeueSequenceMeaning(states[i], l.pos);
    assert l.pos < |states[i].tickets| ==> TicketOk(states[i], l.pos);
    assert DecidedOn(states, moves, j, tid, DeqLoadSeq, i, k);
  }

  /** approx_size reads the dequeue counter before the enqueue counter, so its
      zero means that every ticket was claimed by a dequeuer at this call's first read. */
  function ApproxSize(first: nat, last: nat, maxSize: nat): nat {
    if last <= first then 0 else if last - first < maxSize then last - first else maxSize
  }

  /** The two reads of the approx_size call that `tid` is about to return from. */
  ghost predicate SizeReads<T>(states: seq<State<T>>, moves: seq<Move<T>>, j: nat, tid: Tid, i: nat, k: nat)
    requires IsRun(states, moves) && j <= |moves| && tid in states[j].threads
  {
    && i < k < j && moves[i] == Move(tid, Advance) && moves[k] == Move(tid, Advance)
    && tid in states[i].threads && tid in states[k].threads
    && states[i].threads[tid].pc.SizeLoadFirst? && states[k].threads[tid].pc.SizeLoadLast?
    && Quiet(moves, tid, i + 1, k) && Quiet(moves, tid, k + 1, j)
    && states[j].threads[tid].pos == states[i].dequeuePos && states[j].threads[tid].sequence == states[k].enqueuePos
  }

  lemma SizeReadsAre<T>(states: seq<State<T>>, moves: seq<Move<T>>, j: nat, tid: Tid) returns (i: nat, k: nat)
    requires IsRun(states, moves) && j <= |moves| && tid in states[j].threads && states[j].threads[tid].pc.SizeReturn?
    ensures SizeReads(states, moves, j, tid, i, k)
    ensures states[i].dequeuePos <= states[i].enqueuePos <= states[k].enqueuePos
  {
    RunKeepsInv(states, moves, j);
    k := LastOwnStep(states, moves, j, tid);
    assert states[k + 1] == Step(states[k], moves[k]);
    SizeSteps(states[k], moves[k]);
    i := LastOwnStep(states, moves, k, tid);
    assert states[i + 1] == Step(states[i], moves[i]);
    SizeSteps(states[i], moves[i]);
    RunKeepsInv(states, moves, i);
    CountersGrow(states, moves, i, k);
  }

  lemma ApproxSizeZeroMeansDrained<T>(states: seq<State<T>>, moves: seq<Move<T>>, j: nat, tid: Tid)
    requires IsRun(states, moves) && j <= |moves| && tid in states[j].threads
    requires states[j].threads[tid].pc.SizeReturn?
    requires ApproxSize(states[j].threads[tid].pos, states[j].threads[tid].sequence, |states[j].cells|) == 0
    ensures exists i: nat, k: nat :: SizeReads(states, moves, j, tid, i, k) && states[i].dequeuePos == states[i].enqueuePos
  {
    RunKeepsInv(states, moves, j);
    var i, k := SizeReadsAre(states, moves, j, tid);
  }

  /** What approx_size returns lies between the number of tickets outstanding at its
      first read and that at its second plus those taken in between, and is never more
      than the size of the queue. */
  lemma ApproxSizeIsBracketed<T>(states: seq<State<T>>, moves: seq<Move<T>>, j: nat, tid: Tid)
    requires IsRun(states, moves) && j <= |moves| && tid in states[j].threads && states[j].threads[tid].pc.SizeReturn?
    ensures var n := |states[j].cells|;
            var size := ApproxSize(states[j].threads[tid].pos, states[j].threads[tid].sequence, n);
            && size <= n
            && exists i: nat, k: nat ::
                 && SizeReads(states, moves, j, tid, i, k)
                 && states[i].enqueuePos - states[i].dequeuePos <= size
                 && size <= (states[k].enqueuePos - states[k].dequeuePos) + (states[k].dequeuePos - states[i].dequeuePos)
                 && (states[k].enqueuePos - states[i].dequeuePos <= n ==> size == states[k].enqueuePos - states[i].dequeuePos)
  {
    hide Inv;
    var i, k := SizeReadsAre(states, moves, j, tid);
    RunKeepsInv(states, moves, j);
    RunKeepsInv(states, moves, i);
    InvBrackets(states[i]);
  }

  lemma InvBrackets<T>(s: State<T>)
    requires Inv(s)
    ensures s.enqueuePos <= s.dequeuePos + |s.cells|
  {
    CountersBracket(s);
  }

  lemma CountersBracket<T>(s: State<T>)
    requires CountersOk(s) && CellsOk(s)
    ensures s.enqueuePos <= s.dequeuePos + |s.cells|
  {
    if s.dequeuePos < s.enqueuePos {
      assert TicketOk(s, s.dequeuePos);
    }
  }

  lemma SizeSteps<T>(s: State<T>, m: Move<T>)
    requires Enabled(s, m)
    requires var l' := Step(s, m).threads[m.tid]; l'.pc.SizeReturn? || l'.pc.SizeLoadLast?
    ensures var l, l' := s.threads[m.tid], Step(s, m).threads[m.tid];
            && m.action.Advance?
            && (l'.pc.SizeReturn? ==> l.pc.SizeLoadLast? && l'.pos == l.pos && l'.sequence == s.enqueuePos)
            && (l'.pc.SizeLoadLast? ==> l.pc.SizeLoadFirst? && l'.pos == s.dequeuePos)
  {
  }

  // ----- retries

  /** Reading a position again means another thread's claim got there first: the
      new position is strictly greater. */
  lemma RetryAdvances<T>(states: seq<State<T>>, moves: seq<Move<T>>, i: nat)
    requires IsRun(states, moves) && i < |moves| && moves[i].action.Advance?
    requires var pc := states[i].threads[moves[i].tid].pc; pc.EnqTry? || pc.DeqTry?
    requires var pc := states[i + 1].threads[moves[i].tid].pc; pc.EnqLoadSeq? || pc.DeqLoadSeq?
    ensures states[i + 1].threads[moves[i].tid].pos > states[i].threads[moves[i].tid].pos
  {
    RunKeepsInv(states, moves, i);
    var s, tid := states[i], moves[i].tid;
    assert states[i + 1] == Step(s, moves[i]);
    assert ThreadOk(s.threads[tid], tid, s.tickets, s.dequeuePos, |s.cells|);
  }

  /** How many of the steps i..j are claims by threads other than `tid` on the
      enqueue counter (`enq`) or on the dequeue counter. */
  ghost function ClaimsByOthers<T>(
    states: seq<State<T>>, moves: seq<Move<T>>, tid: Tid, enq: bool, i: nat, j: nat): nat
    requires |states| == |moves| + 1 && i <= j <= |moves|
    decreases j - i
  {
    if i == j then 0
    else ClaimsByOthers(states, moves, tid, enq, i, j - 1)
         + (if moves[j - 1].tid != tid && Counter(states[j], enq) > Counter(states[j - 1], enq) then 1 else 0)
  }

  function Counter<T>(s: State<T>, enq: bool): nat {
    if enq then s.enqueuePos else s.dequeuePos
  }

  predicate InCall<T>(l: Local<T>, enq: bool) {
    if enq then l.pc.EnqLoadPos? || l.pc.EnqLoadSeq? || l.pc.EnqTry? || l.pc.EnqMove? || l.pc.EnqPublish? || l.pc.EnqReturn?
    else l.pc.DeqLoadPos? || l.pc.DeqLoadSeq? || l.pc.DeqTry? || l.pc.DeqMove? || l.pc.DeqRelease? || l.pc.DeqReturn?
  }

  function OwnClaims<T>(l: Local<T>): nat {
    if l.pc.EnqMove? || l.pc.EnqPublish? || l.pc.DeqMove? || l.pc.DeqRelease?
       || ((l.pc.EnqReturn? || l.pc.DeqReturn?) && l.ok) then 1 else 0
  }

  predicate HasStart<T>(l: Local<T>) {
    !l.pc.EnqLoadPos? && !l.pc.DeqLoadPos?
  }

  lemma StepInsideCall<T>(s: State<T>, m: Move<T>, enq: bool)
    requires Enabled(s, m) && InCall(s.threads[m.tid], enq) && !m.action.Return?
    ensures var l, l' := s.threads[m.tid], Step(s, m).threads[m.tid];
            && InCall(l', enq)
            && Counter(Step(s, m), enq) - Counter(s, enq) <= OwnClaims(l') - OwnClaims(l)
            && (HasStart(l') ==> if HasStart(l) then l'.start == l.start else l'.start == Counter(s, enq))
  {
  }

  lemma CounterMovesByOne<T>(s: State<T>, m: Move<T>, enq: bool)
    requires Enabled(s, m)
    ensures Counter(s, enq) <= Counter(Step(s, m), enq) <= Counter(s, enq) + 1
  {
  }

  /** How the counter, and what `tid` remembers of it, move in step k of a call. */
  ghost predicate CallProgress<T>(states: seq<State<T>>, moves: seq<Move<T>>, tid: Tid, enq: bool, k: nat)
    requires |states| == |moves| + 1 && k < |moves|
  {
    tid in states[k].threads && InCall(states[k].threads[tid], enq) ==>
      && tid in states[k + 1].threads
      && var l, l' := states[k].threads[tid], states[k + 1].threads[tid];
         var byOther := moves[k].tid != tid && Counter(states[k + 1], enq) > Counter(states[k], enq);
         && InCall(l', enq)
         && Counter(states[k], enq) <= Counter(states[k + 1], enq)
         && Counter(states[k + 1], enq) - Counter(states[k], enq)
            <= OwnClaims(l') - OwnClaims(l) + (if byOther then 1 else 0)
         && (HasStart(l') ==> if HasStart(l) then l'.start == l.start else l'.start >= Counter(states[k], enq))
  }

  lemma StepsProgress<T>(states: seq<State<T>>, moves: seq<Move<T>>, tid: Tid, enq: bool, k: nat)
    requires IsRun(states, moves) && k < |moves|
    requires moves[k].tid == tid ==> !moves[k].action.Return?
    ensures CallProgress(states, moves, tid, enq, k)
  {
    if tid in states[k].threads && InCall(states[k].threads[tid], enq) {
      CounterMovesByOne(states[k], moves[k], enq);
      if moves[k].tid == tid {
        StepInsideCall(states[k], moves[k], enq);
      } else {
        StepTouchesOwnThreadOnly(states[k], moves[k]);
      }
    }
  }

  /** While `tid` stays inside a call, the counter it uses moves by the claims of
      others, plus one if it has made its own. */
  lemma {:induction false} CounterMovesByOthersClaims<T>(
    states: seq<State<T>>, moves: seq<Move<T>>, tid: Tid, enq: bool, i: nat, j: nat)
    requires |states| == |moves| + 1 && i <= j <= |moves|
    requires tid in states[i].threads && InCall(states[i].threads[tid], enq) && !HasStart(states[i].threads[tid])
    requires forall k | i <= k < j :: CallProgress(states, moves, tid, enq, k)
    ensures tid in states[j].threads
    ensures var l := states[j].threads[tid];
            && InCall(l, enq)
            && Counter(states[i], enq) <= Counter(states[j], enq)
            && Counter(states[j], enq) - Counter(states[i], enq)
               <= ClaimsByOthers(states, moves, tid, enq, i, j) + OwnClaims(l)
            && (HasStart(l) ==> l.start >= Counter(states[i], enq))
    decreases j - i
  {
    if i < j {
      CounterMovesByOthersClaims(states, moves, tid, enq, i, j - 1);
      assert CallProgress(states, moves, tid, enq, j - 1);
    }
  }

  /** Lock-freedom: a call never reads its position again more often than other
      threads claimed tickets of the same counter during it. */
  lemma RetriesNeverExceedOthersClaims<T>(
    states: seq<State<T>>, moves: seq<Move<T>>, tid: Tid, enq: bool, i: nat, j: nat)
    requires IsRun(states, moves) && i < j <= |moves|
    requires moves[i].tid == tid && if enq then moves[i].action.CallEnqueue? else moves[i].action.CallDequeue?
    requires forall k | i < k < j && moves[k].tid == tid :: !moves[k].action.Return?
    ensures tid in states[j].threads
    ensures states[j].threads[tid].retries <= ClaimsByOthers(states, moves, tid, enq, i + 1, j)
  {
    forall k | i + 1 <= k < j
      ensures CallProgress(states, moves, tid, enq, k)
    {
      StepsProgress(states, moves, tid, enq, k);
    }
    assert states[i + 1] == Step(states[i], moves[i]);
    CounterMovesByOthersClaims(states, moves, tid, enq, i + 1, j);
    RunKeepsInv(states, moves, j);
    PositionIsBelowCounter(states[j], tid, enq);
  }

  lemma PositionIsBelowCounter<T>(s: State<T>, tid: Tid, enq: bool)
    requires Inv(s) && tid in s.threads && InCall(s.threads[tid], enq)
    ensures var l := s.threads[tid];
            if HasStart(l) then RetriesBounded(l) && l.pos + OwnClaims(l) <= Counter(s, enq) else l.retries == 0
  {
    var l := s.threads[tid];
    assert ThreadOk(l, tid, s.tickets, s.dequeuePos, |s.cells|);
    if l.pos < |s.tickets| {
      assert TicketOk(s, l.pos);
    }
  }
}
