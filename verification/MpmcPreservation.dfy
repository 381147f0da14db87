/** Every step of every thread keeps the queue's invariant, so it holds in every
    state of every run. */
module MpmcPreservation {
  import opened MpmcProtocol
  import opened MpmcInvariant

  /** One step of thread `tid` on the history: stages only advance, only tickets
      `tid` owns change, and a new ticket is `tid`'s. */
  ghost predicate Evolves<T>(before: seq<Ticket<T>>, after: seq<Ticket<T>>, tid: Tid) {
    && |before| <= |after|
    && (forall t | 0 <= t < |before| :: TicketEvolves(before[t], after[t], tid))
    && (forall t | |before| <= t < |after| :: after[t].producer == tid && after[t].take.Unclaimed?)
  }

  ghost predicate TicketEvolves<T>(k: Ticket<T>, k': Ticket<T>, tid: Tid) {
    && k'.producer == k.producer && k'.item == k.item
    && (k'.put == k.put || (k.producer == tid && !k.put.Published?))
    && (k'.take == k.take
        || (!k.take.Released? && !k'.take.Unclaimed? && k'.take.consumer == tid
            && (k.take.Unclaimed? || k.take.consumer == tid)))
  }

  /** What another thread knows about its own tickets survives the step. */
  lemma OtherThreadKeeps<T>(l: Local<T>, other: Tid, before: seq<Ticket<T>>, after: seq<Ticket<T>>,
                            head: nat, head': nat, n: nat, tid: Tid)
    requires other != tid && Evolves(before, after, tid) && head <= head'
    requires ThreadOk(l, other, before, head, n)
    ensures ThreadOk(l, other, after, head', n)
  {
    if l.pos < |before| {
      assert TicketEvolves(before[l.pos], after[l.pos], tid);
    }
    if 0 <= l.pos - n < |before| {
      assert TicketEvolves(before[l.pos - n], after[l.pos - n], tid);
    }
  }

  ghost predicate OnlyThreadChanged<T>(s: State<T>, s': State<T>, tid: Tid) {
    && tid in s.threads && s'.threads.Keys == s.threads.Keys
    && (forall o | o in s.threads && o != tid :: s'.threads[o] == s.threads[o])
    && |s'.cells| == |s.cells| && s.dequeuePos <= s'.dequeuePos
    && Evolves(s.tickets, s'.tickets, tid)
  }

  lemma OtherThreadsKeep<T>(s: State<T>, s': State<T>, tid: Tid)
    requires ThreadsOk(s) && OnlyThreadChanged(s, s', tid)
    requires ThreadOk(s'.threads[tid], tid, s'.tickets, s'.dequeuePos, |s'.cells|)
    ensures ThreadsOk(s')
  {
    forall o | o in s'.threads
      ensures ThreadOk(s'.threads[o], o, s'.tickets, s'.dequeuePos, |s'.cells|)
    {
      if o != tid {
        OtherThreadKeeps(s.threads[o], o, s.tickets, s'.tickets, s.dequeuePos, s'.dequeuePos, |s.cells|, tid);
      }
    }
  }

  /** A step that writes only its own local variables. */
  lemma LocalStepKeeps<T>(s: State<T>, tid: Tid, l': Local<T>)
    requires Inv(s) && tid in s.threads
    requires var l := s.threads[tid]; !(l.pc.EnqMove? || l.pc.EnqPublish? || l.pc.DeqMove? || l.pc.DeqRelease?)
    requires ThreadOk(l', tid, s.tickets, s.dequeuePos, |s.cells|)
    ensures Inv(SetThread(s, tid, l'))
  {
    var s' := SetThread(s, tid, l');
    OtherThreadsKeep(s, s', tid);
    forall t | 0 <= t < |s.tickets|
      ensures HasOwner(s', t) && TicketOk(s', t) && LiveCellOk(s', t)
    {
      assert HasOwner(s, t) && TicketOk(s, t) && LiveCellOk(s, t);
    }
    forall t: nat | |s.tickets| <= t < |s.tickets| + |s.cells|
      ensures FreeCellOk(s', t)
    {
      assert FreeCellOk(s, t);
    }
  }

  lemma LoadSequenceKeeps<T>(s: State<T>, tid: Tid)
    requires Inv(s) && Enabled(s, Move(tid, Advance))
    requires s.threads[tid].pc.EnqLoadSeq? || s.threads[tid].pc.DeqLoadSeq?
    ensures Inv(AdvanceStep(s, tid))
  {
    var l := s.threads[tid];
    var q := s.cells[Slot(l.pos, |s.cells|)].sequence;
    if l.pc.EnqLoadSeq? {
      EnqueueSequenceMeaning(s, l.pos);
      LocalStepKeeps(s, tid, l.(pc := EnqTry, sequence := q));
    } else {
      DequeueSequenceMeaning(s, l.pos);
      LocalStepKeeps(s, tid, l.(pc := DeqTry, sequence := q));
    }
  }

  /** The successful compare-and-swap of an enqueuer. */
  lemma EnqueueClaimKeeps<T>(s: State<T>, tid: Tid)
    requires Inv(s) && Enabled(s, Move(tid, Advance)) && s.threads[tid].pc.EnqTry?
    requires s.threads[tid].sequence == s.threads[tid].pos == s.enqueuePos
    ensures Inv(EnqTryStep(s, tid))
  {
    var l, n, s' := s.threads[tid], |s.cells|, EnqTryStep(s, tid);
    assert ThreadOk(l, tid, s.tickets, s.dequeuePos, n);
    assert s'.tickets == s.tickets + [Ticket(tid, l.item.value, Claimed, Unclaimed)];
    OtherThreadsKeep(s, s', tid);
    EnqueueClaimKeepsCells(s, s', s'.tickets[l.pos]);
    forall t | 0 <= t < |s'.tickets|
      ensures HasOwner(s', t)
    {
      if t < l.pos {
        assert HasOwner(s, t);
      }
    }
  }

  lemma EnqueueClaimKeepsCells<T>(s: State<T>, s': State<T>, k: Ticket<T>)
    requires CountersOk(s) && CellsOk(s) && IsFree(s.tickets, |s.cells|, s.enqueuePos)
    requires k.put.Claimed? && k.take.Unclaimed?
    requires s'.cells == s.cells && s'.tickets == s.tickets + [k]
    requires s'.dequeuePos == s.dequeuePos && s'.enqueuePos == s.enqueuePos + 1
    ensures CellsOk(s')
  {
    var p, n := s.enqueuePos, |s.cells|;
    forall t | 0 <= t < |s'.tickets|
      ensures TicketOk(s', t) && LiveCellOk(s', t)
    {
      if t < p {
        assert TicketOk(s, t) && LiveCellOk(s, t);
      } else {
        assert FreeCellOk(s, t);
      }
    }
    forall t: nat | |s'.tickets| <= t < |s'.tickets| + n
      ensures FreeCellOk(s', t)
    {
      if t < |s.tickets| + n {
        assert FreeCellOk(s, t);
      }
    }
  }

  lemma EnqTryKeeps<T>(s: State<T>, tid: Tid)
    requires Inv(s) && Enabled(s, Move(tid, Advance)) && s.threads[tid].pc.EnqTry?
    ensures Inv(EnqTryStep(s, tid))
  {
    var l := s.threads[tid];
    if l.sequence == l.pos && s.enqueuePos == l.pos {
      EnqueueClaimKeeps(s, tid);
    } else if l.sequence < l.pos {
      LocalStepKeeps(s, tid, l.(pc := EnqReturn, ok := false));
    } else {
      assert ThreadOk(l, tid, s.tickets, s.dequeuePos, |s.cells|);
      LocalStepKeeps(s, tid, l.(pc := EnqLoadSeq, pos := s.enqueuePos, retries := l.retries + 1));
    }
  }

  lemma DeqTryKeeps<T>(s: State<T>, tid: Tid)
    requires Inv(s) && Enabled(s, Move(tid, Advance)) && s.threads[tid].pc.DeqTry?
    ensures Inv(DeqTryStep(s, tid))
  {
    var l, n := s.threads[tid], |s.cells|;
    var s' := DeqTryStep(s, tid);
    if l.sequence == l.pos + 1 && s.dequeuePos == l.pos {
      assert TicketOk(s, l.pos);
      OtherThreadsKeep(s, s', tid);
      TicketStageKeepsCells(s, s', l.pos);
      OwnersKept(s, s', tid, l.pos);
    } else if l.sequence < l.pos + 1 {
      LocalStepKeeps(s, tid, l.(pc := DeqReturn, ok := false));
    } else {
      LocalStepKeeps(s, tid, l.(pc := DeqLoadSeq, pos := s.dequeuePos, retries := l.retries + 1));
    }
  }

  /** Writing the cell of a live ticket p, and p's stage, leaves every other
      ticket's cell as it was. */
  lemma TicketStageKeepsCells<T>(s: State<T>, s': State<T>, p: nat)
    requires CountersOk(s) && CellsOk(s) && CountersOk(s')
    requires |s'.cells| == |s.cells| && |s'.tickets| == |s.tickets|
    requires p < |s.tickets| && !s.tickets[p].take.Released?
    requires s'.dequeuePos == s.dequeuePos || (s.dequeuePos == p && s'.dequeuePos == p + 1)
    requires forall t | 0 <= t < |s.tickets| && t != p :: s'.tickets[t] == s.tickets[t]
    requires forall i | 0 <= i < |s.cells| && i != Slot(p, |s.cells|) :: s'.cells[i] == s.cells[i]
    requires TicketOk(s', p) && LiveCellOk(s', p)
    requires IsReleased(s'.tickets, p) ==> s'.cells[Slot(p, |s.cells|)].sequence == p + |s.cells|
    ensures CellsOk(s')
  {
    var n := |s.cells|;
    assert TicketOk(s, p);
    SlotsDifferWithin(p, n);
    forall t | 0 <= t < |s'.tickets|
      ensures TicketOk(s', t) && LiveCellOk(s', t)
    {
      if t != p {
        assert TicketOk(s, t) && LiveCellOk(s, t);
        if !s.tickets[t].take.Released? {
          assert p < t + n && t < p + n;
        }
      }
    }
    forall t: nat | |s'.tickets| <= t < |s'.tickets| + n
      ensures FreeCellOk(s', t)
    {
      assert FreeCellOk(s, t);
      if t == p + n {
        SlotOfNextLap(p, n);
      } else if IsFree(s'.tickets, n, t) {
        assert t - n < p + n && p < t;
        if t > p + n {
          assert t - n < |s.tickets|;
          SlotsDiffer(p, t - n, n);
          SlotOfNextLap(t - n, n);
        }
      }
    }
  }

  lemma OwnersKept<T>(s: State<T>, s': State<T>, tid: Tid, p: nat)
    requires OwnersOk(s) && |s'.tickets| == |s.tickets| && p < |s.tickets|
    requires s'.threads.Keys == s.threads.Keys && tid in s.threads
    requires forall o | o in s.threads && o != tid :: s'.threads[o] == s.threads[o]
    requires forall t | 0 <= t < |s.tickets| && t != p :: s'.tickets[t] == s.tickets[t]
    requires var l := s.threads[tid];
             l.pos == p || !(l.pc.EnqMove? || l.pc.EnqPublish? || l.pc.DeqMove? || l.pc.DeqRelease?)
    requires HasOwner(s', p)
    ensures OwnersOk(s')
  {
    forall t | 0 <= t < |s'.tickets|
      ensures HasOwner(s', t)
    {
      if t != p {
        assert HasOwner(s, t);
      }
    }
  }

  /** The two steps between an enqueuer's claim and its sequence store. */
  lemma EnqueueTransitKeeps<T>(s: State<T>, tid: Tid)
    requires Inv(s) && Enabled(s, Move(tid, Advance))
    requires var pc := s.threads[tid].pc; pc.EnqMove? || pc.EnqPublish?
    ensures Inv(AdvanceStep(s, tid))
  {
    var l := s.threads[tid];
    var s' := AdvanceStep(s, tid);
    assert ThreadOk(l, tid, s.tickets, s.dequeuePos, |s.cells|);
    assert TicketOk(s, l.pos) && LiveCellOk(s, l.pos);
    OtherThreadsKeep(s, s', tid);
    TicketStageKeepsCells(s, s', l.pos);
    OwnersKept(s, s', tid, l.pos);
  }

  /** The same for a dequeuer. */
  lemma DequeueTransitKeeps<T>(s: State<T>, tid: Tid)
    requires Inv(s) && Enabled(s, Move(tid, Advance))
    requires var pc := s.threads[tid].pc; pc.DeqMove? || pc.DeqRelease?
    ensures Inv(AdvanceStep(s, tid))
  {
    var l := s.threads[tid];
    var s' := AdvanceStep(s, tid);
    assert ThreadOk(l, tid, s.tickets, s.dequeuePos, |s.cells|);
    assert TicketOk(s, l.pos) && LiveCellOk(s, l.pos);
    OtherThreadsKeep(s, s', tid);
    TicketStageKeepsCells(s, s', l.pos);
    OwnersKept(s, s', tid, l.pos);
  }

  lemma LoadCounterKeeps<T>(s: State<T>, tid: Tid)
    requires Inv(s) && Enabled(s, Move(tid, Advance))
    requires var pc := s.threads[tid].pc;
             pc.EnqLoadPos? || pc.DeqLoadPos? || pc.SizeLoadFirst? || pc.SizeLoadLast?
    ensures Inv(AdvanceStep(s, tid))
  {
    var l := s.threads[tid];
    var l' := AdvanceStep(s, tid).threads[tid];
    assert ThreadOk(l, tid, s.tickets, s.dequeuePos, |s.cells|);
    NothingTakenFrom(s, tid);
    LocalStepKeeps(s, tid, l');
  }

  lemma AdvanceKeepsInv<T>(s: State<T>, tid: Tid)
    requires Inv(s) && Enabled(s, Move(tid, Advance))
    ensures Inv(AdvanceStep(s, tid))
  {
    match s.threads[tid].pc
    case EnqLoadSeq => LoadSequenceKeeps(s, tid);
    case DeqLoadSeq => LoadSequenceKeeps(s, tid);
    case EnqTry => EnqTryKeeps(s, tid);
    case DeqTry => DeqTryKeeps(s, tid);
    case EnqLoadPos => LoadCounterKeeps(s, tid);
    case DeqLoadPos => LoadCounterKeeps(s, tid);
    case SizeLoadFirst => LoadCounterKeeps(s, tid);
    case SizeLoadLast => LoadCounterKeeps(s, tid);
    case EnqMove => EnqueueTransitKeeps(s, tid);
    case EnqPublish => EnqueueTransitKeeps(s, tid);
    case _ => DequeueTransitKeeps(s, tid);
  }

  /** Every enabled step keeps the invariant. */
  lemma StepKeepsInv<T>(s: State<T>, m: Move<T>)
    requires Inv(s) && Enabled(s, m)
    ensures Inv(Step(s, m))
  {
    if m.action.Advance? {
      AdvanceKeepsInv(s, m.tid);
    } else {
      assert ThreadOk(s.threads[m.tid], m.tid, s.tickets, s.dequeuePos, |s.cells|);
      LocalStepKeeps(s, m.tid, Step(s, m).threads[m.tid]);
    }
  }

  lemma NothingTakenFrom<T>(s: State<T>, tid: Tid)
    requires CellsOk(s)
    ensures NoTakes(s.tickets, tid, s.dequeuePos, |s.tickets|)
  {
    forall t | s.dequeuePos <= t < |s.tickets|
      ensures s.tickets[t].take.Unclaimed?
    {
      assert TicketOk(s, t);
    }
  }
}
