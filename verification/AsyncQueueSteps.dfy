/** What one step of the queue protocol means to the code that calls it. */
module AsyncQueueSteps {
  import opened Options
  import opened MpmcProtocol
  import opened MpmcInvariant
  import opened MpmcPreservation

  datatype Put<T> = Put(producer: Tid, item: T)

  /** Who enqueued what, in ticket order. */
  function Puts<T>(s: State<T>): (ps: seq<Put<T>>)
    ensures |ps| == |s.tickets|
  {
    seq(|s.tickets|, i requires 0 <= i < |s.tickets| => Put(s.tickets[i].producer, s.tickets[i].item))
  }

  predicate InEnqueue<T>(l: Local<T>) {
    l.pc.EnqLoadPos? || l.pc.EnqLoadSeq? || l.pc.EnqTry? || l.pc.EnqMove? || l.pc.EnqPublish? || l.pc.EnqReturn?
  }

  predicate InDequeue<T>(l: Local<T>) {
    l.pc.DeqLoadPos? || l.pc.DeqLoadSeq? || l.pc.DeqTry? || l.pc.DeqMove? || l.pc.DeqRelease? || l.pc.DeqReturn?
  }

  predicate InSize<T>(l: Local<T>) {
    l.pc.SizeLoadFirst? || l.pc.SizeLoadLast? || l.pc.SizeReturn?
  }

  /** The enqueue has not claimed a ticket: the argument is still in hand. */
  predicate HoldsArgument<T>(l: Local<T>) {
    l.pc.EnqLoadPos? || l.pc.EnqLoadSeq? || l.pc.EnqTry? || (l.pc.EnqReturn? && !l.ok)
  }

  /** The dequeue has claimed a ticket. */
  predicate HoldsTicket<T>(l: Local<T>) {
    l.pc.DeqMove? || l.pc.DeqRelease? || (l.pc.DeqReturn? && l.ok)
  }

  /** A step inside a call stays inside it, and keeps the argument in hand until
      the claim. */
  lemma StepInsideCall<T>(s: State<T>, m: Move<T>)
    requires Enabled(s, m) && (m.action.Advance? || m.action.SpuriousFailure?)
    ensures var l, l' := s.threads[m.tid], Step(s, m).threads[m.tid];
            && (InEnqueue(l) <==> InEnqueue(l')) && (InDequeue(l) <==> InDequeue(l')) && (InSize(l) <==> InSize(l'))
            && (HoldsArgument(l') ==> HoldsArgument(l) && l'.item == l.item)
            && (HoldsTicket(l) ==> HoldsTicket(l') && l'.pos == l.pos)
            && (InEnqueue(l) && !HoldsArgument(l) ==> !HoldsArgument(l') && l'.pos == l.pos)
            && (l'.pc.SizeReturn? ==> l'.sequence == s.enqueuePos)
  {
  }

  lemma StepKeepsOthers<T>(s: State<T>, m: Move<T>)
    requires Inv(s) && Enabled(s, m)
    ensures var s' := Step(s, m);
            && Inv(s') && s'.threads.Keys == s.threads.Keys
            && (forall o | o in s.threads && o != m.tid :: s'.threads[o] == s.threads[o])
  {
    StepKeepsInv(s, m);
  }

  /** A ticket is appended exactly when an enqueue claims, and the dequeue counter
      moves exactly when a dequeue claims. */
  lemma StepOnCounters<T>(s: State<T>, m: Move<T>)
    requires Inv(s) && Enabled(s, m) && (m.action.Advance? || m.action.SpuriousFailure?)
    ensures var s', l, l' := Step(s, m), s.threads[m.tid], Step(s, m).threads[m.tid];
            && (if HoldsArgument(l) && !HoldsArgument(l')
                then l.item.Some? && Puts(s') == Puts(s) + [Put(m.tid, l.item.value)] && l'.pos == |Puts(s)|
                else Puts(s') == Puts(s))
            && (if HoldsTicket(l') && !HoldsTicket(l)
                then s'.dequeuePos == s.dequeuePos + 1 && l'.pos == s.dequeuePos
                else s'.dequeuePos == s.dequeuePos)
  {
    hide CellsOk, OwnersOk;
    StepKeepsInv(s, m);
    var s', l, l' := Step(s, m), s.threads[m.tid], Step(s, m).threads[m.tid];
    if HoldsArgument(l) && !HoldsArgument(l') {
      assert Puts(s') == Puts(s) + [Put(m.tid, l.item.value)];
    } else {
      assert Puts(s') == Puts(s);
    }
  }

  /** Starting a call and returning from one touch only the thread. */
  lemma StepAtCallBoundary<T>(s: State<T>, m: Move<T>)
    requires Inv(s) && Enabled(s, m) && !m.action.Advance? && !m.action.SpuriousFailure?
    ensures var s' := Step(s, m);
            && Inv(s') && s'.threads.Keys == s.threads.Keys
            && (forall o | o in s.threads && o != m.tid :: s'.threads[o] == s.threads[o])
            && Puts(s') == Puts(s) && s'.dequeuePos == s.dequeuePos && s'.enqueuePos == s.enqueuePos
  {
    StepKeepsInv(s, m);
  }

  /** What thread `tid` knows about its call. */
  ghost predicate Knows<T>(s: State<T>, tid: Tid)
    requires tid in s.threads
  {
    var l := s.threads[tid];
    && |Puts(s)| == s.enqueuePos && s.dequeuePos <= s.enqueuePos && |s.cells| >= 2
    && (HoldsArgument(l) ==> l.item.Some?)
    && (l.pc.EnqReturn? && l.ok ==> l.pos < |Puts(s)| && Puts(s)[l.pos].producer == tid)
    && (HoldsTicket(l) ==> l.pos < s.dequeuePos)
    && (l.pc.DeqReturn? && l.ok ==> l.item == Some(Puts(s)[l.pos].item))
    && (l.pc.SizeReturn? ==> l.pos <= s.dequeuePos)
  }

  lemma ThreadKnows<T>(s: State<T>, tid: Tid)
    requires Inv(s) && tid in s.threads
    ensures Knows(s, tid)
  {
    var l := s.threads[tid];
    assert ThreadOk(l, tid, s.tickets, s.dequeuePos, |s.cells|);
    if l.pos < |s.tickets| {
      assert TicketOk(s, l.pos);
    }
  }
}
