/** A call that runs without interference, from a state where no other call is in
    progress, acts on the bounded sequence of the items not yet handed out. */
module MpmcSolo {
  import opened Options
  import opened MpmcProtocol
  import opened MpmcInvariant
  import opened MpmcPreservation
  import opened MpmcRuns

  /** The items enqueued and not yet dequeued, oldest first. */
  ghost function Pending<T>(s: State<T>): seq<T>
    requires s.dequeuePos <= s.enqueuePos == |s.tickets|
  {
    seq(s.enqueuePos - s.dequeuePos, i requires 0 <= i < s.enqueuePos - s.dequeuePos => s.tickets[s.dequeuePos + i].item)
  }

  ghost predicate AllIdleBut<T>(s: State<T>, tid: Tid) {
    tid in s.threads && forall o | o in s.threads && o != tid :: s.threads[o].pc.Idle?
  }

  /** `tid` runs its call to the end. */
  ghost predicate RunsTo<T>(s: State<T>, tid: Tid, s': State<T>, fuel: nat)
    decreases fuel
  {
    tid in s.threads &&
    if s.threads[tid].pc.EnqReturn? || s.threads[tid].pc.DeqReturn? then s' == s
    else fuel > 0 && Enabled(s, Move(tid, Advance)) && RunsTo(AdvanceStep(s, tid), tid, s', fuel - 1)
  }

  lemma OneMore<T>(s: State<T>, tid: Tid, s': State<T>, fuel: nat)
    requires Enabled(s, Move(tid, Advance)) && RunsTo(AdvanceStep(s, tid), tid, s', fuel)
    ensures RunsTo(s, tid, s', fuel + 1)
  {
  }

  lemma ReleasedWhenIdle<T>(s: State<T>, tid: Tid, t: nat)
    requires Inv(s) && AllIdleBut(s, tid) && !InTransit(s.threads[tid]) && t < s.dequeuePos
    ensures IsReleased(s.tickets, t)
  {
    assert HasOwner(s, t) && TicketOk(s, t);
  }

  lemma PublishedWhenIdle<T>(s: State<T>, tid: Tid, t: nat)
    requires Inv(s) && AllIdleBut(s, tid) && !InTransit(s.threads[tid]) && t < s.enqueuePos
    ensures IsPublished(s.tickets, t)
  {
    assert HasOwner(s, t);
  }

  lemma FreeWhenIdle<T>(s: State<T>, tid: Tid)
    requires Inv(s) && AllIdleBut(s, tid) && !InTransit(s.threads[tid])
    ensures IsFree(s.tickets, |s.cells|, s.enqueuePos) <==> s.enqueuePos - s.dequeuePos < |s.cells|
  {
    var t := s.enqueuePos - |s.cells|;
    if t >= 0 {
      assert TicketOk(s, t);
      if t < s.dequeuePos {
        ReleasedWhenIdle(s, tid, t);
      }
    }
  }

  /** Same counters, cells and history. */
  ghost predicate SameQueue<T>(s: State<T>, s': State<T>) {
    && s'.cells == s.cells && s'.tickets == s.tickets
    && s'.enqueuePos == s.enqueuePos && s'.dequeuePos == s.dequeuePos
  }

  /** The two loads, up to the branch on the sequence number. */
  lemma LoadsAlone<T>(a: State<T>, tid: Tid) returns (c: State<T>)
    requires Inv(a) && AllIdleBut(a, tid)
    requires a.threads[tid].pc.EnqLoadPos? || a.threads[tid].pc.DeqLoadPos?
    ensures forall s', fuel: nat | RunsTo(c, tid, s', fuel) :: RunsTo(a, tid, s', fuel + 2)
    ensures Inv(c) && AllIdleBut(c, tid) && SameQueue(a, c) && c.threads[tid].item == a.threads[tid].item
    ensures var l := c.threads[tid];
            if a.threads[tid].pc.EnqLoadPos? then
              && l.pc.EnqTry? && l.pos == a.enqueuePos
              && (l.sequence == l.pos <==> a.enqueuePos - a.dequeuePos < |a.cells|) && l.sequence <= l.pos
            else
              && l.pc.DeqTry? && l.pos == a.dequeuePos
              && (l.sequence == l.pos + 1 <==> a.dequeuePos < a.enqueuePos) && l.sequence <= l.pos + 1
  {
    var b := AdvanceStep(a, tid);
    AdvanceKeepsInv(a, tid);
    c := AdvanceStep(b, tid);
    AdvanceKeepsInv(b, tid);
    if a.threads[tid].pc.EnqLoadPos? {
      EnqueueSequenceMeaning(b, b.enqueuePos);
      FreeWhenIdle(b, tid);
    } else {
      DequeueSequenceMeaning(b, b.dequeuePos);
      if b.dequeuePos < b.enqueuePos {
        PublishedWhenIdle(b, tid, b.dequeuePos);
      }
    }
    forall s', fuel: nat | RunsTo(c, tid, s', fuel)
      ensures RunsTo(a, tid, s', fuel + 2)
    {
      OneMore(b, tid, s', fuel);
      OneMore(a, tid, s', fuel + 1);
    }
  }

  /** The steps between claim and release change no item and no counter. */
  lemma TransitKeepsPending<T>(d: State<T>, tid: Tid)
    requires Inv(d) && AllIdleBut(d, tid) && InTransit(d.threads[tid])
    ensures Enabled(d, Move(tid, Advance))
    ensures var e := AdvanceStep(d, tid);
            && Inv(e) && AllIdleBut(e, tid) && |e.cells| == |d.cells| && Pending(e) == Pending(d)
            && e.threads[tid].pos == d.threads[tid].pos
            && |e.tickets| == |d.tickets|
            && (forall t | 0 <= t < |d.tickets| :: e.tickets[t].item == d.tickets[t].item)
            && e.threads[tid].pc == (match d.threads[tid].pc
                                     case EnqMove => EnqPublish case EnqPublish => EnqReturn
                                     case DeqMove => DeqRelease case _ => DeqReturn)
            && (!InTransit(e.threads[tid]) ==> e.threads[tid].ok)
  {
    AdvanceKeepsInv(d, tid);
  }

  lemma EnqueueAloneFinishes<T>(d: State<T>, tid: Tid) returns (s': State<T>)
    requires Inv(d) && AllIdleBut(d, tid) && d.threads[tid].pc.EnqMove?
    ensures RunsTo(d, tid, s', 2)
    ensures Inv(s') && AllIdleBut(s', tid) && s'.threads[tid].pc.EnqReturn? && s'.threads[tid].ok
    ensures |s'.cells| == |d.cells| && Pending(s') == Pending(d)
  {
    TransitKeepsPending(d, tid);
    var e := AdvanceStep(d, tid);
    TransitKeepsPending(e, tid);
    s' := AdvanceStep(e, tid);
    OneMore(e, tid, s', 0);
    OneMore(d, tid, s', 1);
  }

  lemma DequeueAloneFinishes<T>(d: State<T>, tid: Tid) returns (s': State<T>)
    requires Inv(d) && AllIdleBut(d, tid) && d.threads[tid].pc.DeqMove?
    ensures RunsTo(d, tid, s', 2)
    ensures Inv(s') && AllIdleBut(s', tid) && s'.threads[tid].pc.DeqReturn? && s'.threads[tid].ok
    ensures |s'.cells| == |d.cells| && Pending(s') == Pending(d)
    ensures d.threads[tid].pos < |d.tickets| && s'.threads[tid].item == Some(d.tickets[d.threads[tid].pos].item)
  {
    ItemOfTaker(d, tid);
    TransitKeepsPending(d, tid);
    var e := AdvanceStep(d, tid);
    TransitKeepsPending(e, tid);
    s' := AdvanceStep(e, tid);
    OneMore(e, tid, s', 0);
    OneMore(d, tid, s', 1);
    ItemOfTaker(s', tid);
  }

  lemma ItemOfTaker<T>(s: State<T>, tid: Tid)
    requires Inv(s) && tid in s.threads
    requires s.threads[tid].pc.DeqMove? || (s.threads[tid].pc.DeqReturn? && s.threads[tid].ok)
    ensures var l := s.threads[tid];
            l.pos < |s.tickets| && (l.pc.DeqReturn? ==> l.item == Some(s.tickets[l.pos].item))
  {
    assert ThreadOk(s.threads[tid], tid, s.tickets, s.dequeuePos, |s.cells|);
  }

  lemma EnqueueTryOutcome<T>(c: State<T>, tid: Tid)
    requires Inv(c) && AllIdleBut(c, tid) && c.threads[tid].pc.EnqTry? && c.threads[tid].item.Some?
    requires c.threads[tid].pos == c.enqueuePos && c.threads[tid].sequence <= c.enqueuePos
    ensures var d, l := EnqTryStep(c, tid), c.threads[tid];
            if l.sequence < l.pos then
              d.threads[tid].pc.EnqReturn? && !d.threads[tid].ok && d.threads[tid].item == l.item && SameQueue(c, d)
            else
              && d.threads[tid].pc.EnqMove? && |d.cells| == |c.cells|
              && d.dequeuePos <= d.enqueuePos == |d.tickets|
              && Pending(d) == Pending(c) + [l.item.value]
  {
    var d := EnqTryStep(c, tid);
    if c.threads[tid].sequence == c.enqueuePos {
      assert Pending(d) == Pending(c) + [c.threads[tid].item.value];
    }
  }

  /** The branch of an enqueuer that is alone, and the rest of its call. */
  lemma EnqueueTryAlone<T>(c: State<T>, tid: Tid) returns (s': State<T>)
    requires Inv(c) && AllIdleBut(c, tid) && c.threads[tid].pc.EnqTry? && c.threads[tid].item.Some?
    requires c.threads[tid].pos == c.enqueuePos && c.threads[tid].sequence <= c.enqueuePos
    ensures RunsTo(c, tid, s', 3)
    ensures Inv(s') && AllIdleBut(s', tid) && s'.threads[tid].pc.EnqReturn?
    ensures var l, l' := c.threads[tid], s'.threads[tid];
            && (l'.ok <==> l.sequence == l.pos)
            && Pending(s') == (if l'.ok then Pending(c) + [l.item.value] else Pending(c))
            && (!l'.ok ==> l'.item == l.item)
  {
    var d := AdvanceStep(c, tid);
    AdvanceKeepsInv(c, tid);
    EnqueueTryOutcome(c, tid);
    if c.threads[tid].sequence < c.enqueuePos {
      s' := d;
    } else {
      s' := EnqueueAloneFinishes(d, tid);
    }
    OneMore(c, tid, s', 2);
  }

  lemma DequeueTryOutcome<T>(c: State<T>, tid: Tid)
    requires Inv(c) && AllIdleBut(c, tid) && c.threads[tid].pc.DeqTry?
    requires c.threads[tid].pos == c.dequeuePos && c.threads[tid].sequence <= c.dequeuePos + 1
    requires c.threads[tid].sequence == c.dequeuePos + 1 <==> c.dequeuePos < c.enqueuePos
    ensures var d := DeqTryStep(c, tid);
            if Pending(c) == [] then d.threads[tid].pc.DeqReturn? && !d.threads[tid].ok && SameQueue(c, d)
            else
              && d.threads[tid].pc.DeqMove? && d.threads[tid].pos == c.dequeuePos
              && |d.tickets| == |c.tickets| && d.dequeuePos <= d.enqueuePos == |d.tickets|
              && c.dequeuePos < |d.tickets|
              && Pending(c) == [d.tickets[c.dequeuePos].item] + Pending(d)
  {
    var d := DeqTryStep(c, tid);
    if c.dequeuePos < c.enqueuePos {
      assert Pending(c) == [d.tickets[c.dequeuePos].item] + Pending(d);
    }
  }

  lemma DequeueTryAlone<T>(c: State<T>, tid: Tid) returns (s': State<T>)
    requires Inv(c) && AllIdleBut(c, tid) && c.threads[tid].pc.DeqTry?
    requires c.threads[tid].pos == c.dequeuePos && c.threads[tid].sequence <= c.dequeuePos + 1
    requires c.threads[tid].sequence == c.dequeuePos + 1 <==> c.dequeuePos < c.enqueuePos
    ensures RunsTo(c, tid, s', 3)
    ensures Inv(s') && AllIdleBut(s', tid) && s'.threads[tid].pc.DeqReturn?
    ensures var l, l' := c.threads[tid], s'.threads[tid];
            && (l'.ok <==> Pending(c) != [])
            && (l'.ok ==> l'.item.Some? && [l'.item.value] + Pending(s') == Pending(c))
            && (!l'.ok ==> Pending(s') == Pending(c))
  {
    var d := AdvanceStep(c, tid);
    AdvanceKeepsInv(c, tid);
    DequeueTryOutcome(c, tid);
    if c.threads[tid].sequence < c.dequeuePos + 1 {
      s' := d;
    } else {
      s' := DequeueAloneFinishes(d, tid);
    }
    OneMore(c, tid, s', 2);
  }

  lemma CallStarts<T>(s: State<T>, tid: Tid, call: Action<T>)
    requires Inv(s) && AllIdleBut(s, tid) && s.threads[tid].pc.Idle? && (call.CallEnqueue? || call.CallDequeue?)
    ensures Enabled(s, Move(tid, call))
    ensures var a := Step(s, Move(tid, call));
            && Inv(a) && AllIdleBut(a, tid) && SameQueue(s, a) && tid in a.threads
            && (if call.CallEnqueue? then a.threads[tid].pc.EnqLoadPos? && a.threads[tid].item == Some(call.arg)
                else a.threads[tid].pc.DeqLoadPos?)
  {
    StepKeepsInv(s, Move(tid, call));
  }

  /** Enqueue returns true exactly when fewer than N items are pending, and then
      appends its argument; otherwise it changes nothing and keeps the argument. */
  lemma EnqueueAloneAppends<T>(s: State<T>, tid: Tid, x: T) returns (s': State<T>)
    requires Inv(s) && AllIdleBut(s, tid) && s.threads[tid].pc.Idle?
    ensures RunsTo(Step(s, Move(tid, CallEnqueue(x))), tid, s', 5)
    ensures Inv(s') && AllIdleBut(s', tid) && s'.threads[tid].pc.EnqReturn?
    ensures var l := s'.threads[tid];
            && (l.ok <==> |Pending(s)| < |s.cells|)
            && Pending(s') == (if l.ok then Pending(s) + [x] else Pending(s))
            && (!l.ok ==> l.item == Some(x))
  {
    hide Step, RunsTo, CellsOk, OwnersOk, ThreadsOk;
    var a := Step(s, Move(tid, CallEnqueue(x)));
    CallStarts(s, tid, CallEnqueue(x));
    var c := LoadsAlone(a, tid);
    s' := EnqueueTryAlone(c, tid);
    assert Pending(c) == Pending(s);
  }

  /** Dequeue returns true exactly when an item is pending, and then returns and
      removes the oldest; otherwise it changes nothing. */
  lemma DequeueAloneTakesOldest<T>(s: State<T>, tid: Tid) returns (s': State<T>)
    requires Inv(s) && AllIdleBut(s, tid) && s.threads[tid].pc.Idle?
    ensures RunsTo(Step(s, Move(tid, CallDequeue)), tid, s', 5)
    ensures Inv(s') && AllIdleBut(s', tid) && s'.threads[tid].pc.DeqReturn?
    ensures var l := s'.threads[tid];
            && (l.ok <==> Pending(s) != [])
            && (l.ok ==> l.item.Some? && [l.item.value] + Pending(s') == Pending(s))
            && (!l.ok ==> Pending(s') == Pending(s))
  {
    hide Step, RunsTo, CellsOk, OwnersOk, ThreadsOk;
    var a := Step(s, Move(tid, CallDequeue));
    CallStarts(s, tid, CallDequeue);
    var c := LoadsAlone(a, tid);
    s' := DequeueTryAlone(c, tid);
    assert Pending(c) == Pending(s);
  }
}
