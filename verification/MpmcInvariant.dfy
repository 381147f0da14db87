/** What every step of the queue protocol keeps. The invariant ties each cell's
    sequence number to the history of tickets, and each thread between its
    compare-and-swap and its sequence store to the ticket it owns. */
module MpmcInvariant {
  import opened Options
  import opened MpmcProtocol
  import MachineWords

  // ----- arithmetic of slots

  /** Tickets less than a lap apart use different cells. */
  lemma SlotsDiffer(a: nat, b: nat, n: nat)
    requires a < b < a + n
    ensures Slot(a, n) != Slot(b, n)
  {
    if a % n == b % n {
      var qa, qb := a / n, b / n;
      assert a == qa * n + a % n && b == qb * n + b % n;
      MachineWords.ProductOfDifference(qb, qa, n);
      MachineWords.MultipleIsAtLeast(qb - qa, n);
    }
  }

  lemma SlotsDifferWithin(p: nat, n: nat)
    requires n > 0
    ensures forall t: nat {:trigger Slot(t, n)} | t != p && p < t + n && t < p + n :: Slot(t, n) != Slot(p, n)
  {
    forall t: nat | t != p && p < t + n && t < p + n
      ensures Slot(t, n) != Slot(p, n)
    {
      if t < p {
        SlotsDiffer(t, p, n);
      } else {
        SlotsDiffer(p, t, n);
      }
    }
  }

  /** A lap further on, the same cell. */
  lemma SlotOfNextLap(a: nat, n: nat)
    requires n > 0
    ensures Slot(a + n, n) == Slot(a, n)
  {
    var q, r := a / n, a % n;
    assert a + n == (q + 1) * n + r;
    MachineWords.RemainderIsUnique(a + n, n, q + 1, r);
  }

  // ----- the invariant

  ghost predicate IsPublished<T>(tickets: seq<Ticket<T>>, t: int) {
    0 <= t < |tickets| && tickets[t].put.Published?
  }

  ghost predicate IsReleased<T>(tickets: seq<Ticket<T>>, t: int) {
    0 <= t < |tickets| && tickets[t].take.Released?
  }

  /** The cell of ticket t is ready to be written for t. */
  ghost predicate IsFree<T>(tickets: seq<Ticket<T>>, n: nat, t: int) {
    t < n || IsReleased(tickets, t - n)
  }

  ghost predicate CountersOk<T>(s: State<T>) {
    |s.cells| >= 2 && |s.tickets| == s.enqueuePos && s.dequeuePos <= s.enqueuePos
  }

  ghost predicate TicketOk<T>(s: State<T>, t: nat)
    requires t < |s.tickets|
  {
    var k := s.tickets[t];
    && (k.take.Unclaimed? <==> t >= s.dequeuePos)
    && (!k.take.Unclaimed? ==> k.put.Published?)
    && (t + |s.cells| < |s.tickets| ==> k.take.Released?)
  }

  /** What the cell of a ticket that is not yet released holds. */
  ghost predicate LiveCellOk<T>(s: State<T>, t: nat)
    requires t < |s.tickets| && |s.cells| > 0
  {
    var k, cell := s.tickets[t], s.cells[Slot(t, |s.cells|)];
    !k.take.Released? ==>
      && cell.sequence == (if k.put.Published? then t + 1 else t)
      && (!k.put.Claimed? && (k.take.Unclaimed? || k.take.Taking?) ==> cell.data == Some(k.item))
  }

  ghost predicate FreeCellOk<T>(s: State<T>, t: nat)
    requires |s.cells| > 0
  {
    IsFree(s.tickets, |s.cells|, t) ==> s.cells[Slot(t, |s.cells|)].sequence == t
  }

  ghost predicate CellsOk<T>(s: State<T>) {
    && |s.cells| > 0
    && (forall t | 0 <= t < |s.tickets| :: TicketOk(s, t) && LiveCellOk(s, t))
    && (forall t: nat | |s.tickets| <= t < |s.tickets| + |s.cells| :: FreeCellOk(s, t))
  }

  ghost predicate NoClaims<T>(tickets: seq<Ticket<T>>, tid: Tid, from: nat, to: nat) {
    forall t | from <= t < to && t < |tickets| :: tickets[t].producer != tid
  }

  ghost predicate NoTakes<T>(tickets: seq<Ticket<T>>, tid: Tid, from: nat, to: nat) {
    forall t | from <= t < to && t < |tickets| ::
      tickets[t].take.Unclaimed? || tickets[t].take.consumer != tid
  }

  /** A call read its position again at most as often as others claimed tickets
      between where it started and where it is now. */
  ghost predicate RetriesBounded<T>(l: Local<T>) {
    l.start <= l.pos && l.retries <= l.pos - l.start
  }

  ghost predicate OwnsPut<T>(l: Local<T>, tid: Tid, tickets: seq<Ticket<T>>, stage: PutStage) {
    && l.pos < |tickets|
    && tickets[l.pos].producer == tid
    && tickets[l.pos].put == stage
    && (stage.Claimed? ==> l.item == Some(tickets[l.pos].item))
    && (!stage.Claimed? ==> l.item == None)
  }

  ghost predicate OwnsTake<T>(l: Local<T>, tickets: seq<Ticket<T>>, stage: TakeStage) {
    && l.pos < |tickets|
    && tickets[l.pos].take == stage
    && (stage.Taken? || stage.Released? ==> l.item == Some(tickets[l.pos].item))
  }

  ghost predicate ThreadOk<T>(l: Local<T>, tid: Tid, tickets: seq<Ticket<T>>, head: nat, n: nat) {
    match l.pc
    case Idle => true
    case EnqLoadPos => l.item.Some? && l.retries == 0
    case EnqLoadSeq =>
      && l.item.Some? && RetriesBounded(l) && l.pos <= |tickets|
      && NoClaims(tickets, tid, l.start, |tickets|)
    case EnqTry =>
      && l.item.Some? && RetriesBounded(l) && l.pos <= |tickets|
      && NoClaims(tickets, tid, l.start, |tickets|)
      && (l.sequence == l.pos ==> IsFree(tickets, n, l.pos))
      && (l.sequence > l.pos ==> l.pos < |tickets|)
    case EnqMove =>
      RetriesBounded(l) && NoClaims(tickets, tid, l.start, l.pos) && OwnsPut(l, tid, tickets, Claimed)
    case EnqPublish =>
      RetriesBounded(l) && NoClaims(tickets, tid, l.start, l.pos) && OwnsPut(l, tid, tickets, Moved)
    case EnqReturn =>
      && RetriesBounded(l) && l.pos <= |tickets| && NoClaims(tickets, tid, l.start, l.pos)
      && (if l.ok then OwnsPut(l, tid, tickets, Published) else l.item.Some?)
    case DeqLoadPos => l.retries == 0
    case DeqLoadSeq =>
      RetriesBounded(l) && l.pos <= head && NoTakes(tickets, tid, l.start, |tickets|)
    case DeqTry =>
      && RetriesBounded(l) && l.pos <= head && NoTakes(tickets, tid, l.start, |tickets|)
      && (l.sequence == l.pos + 1 ==> IsPublished(tickets, l.pos))
      && (l.sequence > l.pos + 1 ==> l.pos < head)
    case DeqMove =>
      RetriesBounded(l) && NoTakes(tickets, tid, l.start, l.pos) && OwnsTake(l, tickets, Taking(tid))
    case DeqRelease =>
      RetriesBounded(l) && NoTakes(tickets, tid, l.start, l.pos) && OwnsTake(l, tickets, Taken(tid))
    case DeqReturn =>
      && RetriesBounded(l) && l.pos <= head && NoTakes(tickets, tid, l.start, l.pos)
      && (l.ok ==> OwnsTake(l, tickets, Released(tid)))
    case SizeLoadFirst => true
    case SizeLoadLast => l.pos <= head
    case SizeReturn => l.pos <= head && l.sequence <= |tickets|
  }

  ghost predicate ThreadsOk<T>(s: State<T>) {
    forall tid | tid in s.threads :: ThreadOk(s.threads[tid], tid, s.tickets, s.dequeuePos, |s.cells|)
  }

  /** Every ticket in transit has its thread. */
  ghost predicate HasOwner<T>(s: State<T>, t: nat)
    requires t < |s.tickets|
  {
    var k := s.tickets[t];
    && (!k.put.Published? ==>
          && k.producer in s.threads && s.threads[k.producer].pos == t
          && s.threads[k.producer].pc == (if k.put.Claimed? then EnqMove else EnqPublish))
    && (k.take.Taking? || k.take.Taken? ==>
          && k.take.consumer in s.threads && s.threads[k.take.consumer].pos == t
          && s.threads[k.take.consumer].pc == (if k.take.Taking? then DeqMove else DeqRelease))
  }

  ghost predicate OwnersOk<T>(s: State<T>) {
    forall t | 0 <= t < |s.tickets| :: HasOwner(s, t)
  }

  ghost predicate Inv<T>(s: State<T>) {
    CountersOk(s) && CellsOk(s) && ThreadsOk(s) && OwnersOk(s)
  }

  lemma InitSatisfiesInv<T>(s: State<T>)
    requires Init(s)
    ensures Inv(s)
  {
    var n := |s.cells|;
    forall t: nat | t < n
      ensures FreeCellOk(s, t)
    {
      SlotOfSmall(t, n);
    }
  }

  lemma SlotOfSmall(t: nat, n: nat)
    requires t < n
    ensures Slot(t, n) == t
  {
    MachineWords.RemainderIsUnique(t, n, 0, t);
  }

  // ----- what a sequence number tells

  /** The ticket of the current lap that uses the same cell as `pos`. */
  function WindowTicket(pos: nat, from: nat, n: nat): (u: nat)
    requires pos <= from && n > 0
    ensures from <= u < from + n
  {
    from + (pos - from) % n
  }

  lemma WindowTicketSharesSlot(pos: nat, from: nat, n: nat)
    requires pos <= from && n > 0
    ensures var u := WindowTicket(pos, from, n);
            && Slot(u, n) == Slot(pos, n)
            && (u == pos || u >= pos + n)
            && (u >= n ==> Slot(u - n, n) == Slot(pos, n) && (u - n == pos || u == pos || u - n >= pos + n))
  {
    var u := WindowTicket(pos, from, n);
    var q := (pos - from) / n;
    assert pos - from == q * n + (pos - from) % n;
    var k := -q;
    assert u == pos + k * n;
    var a, r := pos / n, pos % n;
    assert u == (a + k) * n + r;
    MachineWords.RemainderIsUnique(u, n, a + k, r);
    MachineWords.MultipleIsAtLeast(k, n);
    if u >= n {
      SlotOfNextLap(u - n, n);
      MachineWords.MultipleIsAtLeast(k - 1, n);
      MachineWords.ProductOfDifference(k, 1, n);
    }
  }

  /** For an enqueuer at `pos`: equal means the cell is free for `pos`, greater
      means `pos` is already claimed, smaller means ticket `pos - n` has not
      been released. */
  lemma EnqueueSequenceMeaning<T>(s: State<T>, pos: nat)
    requires CountersOk(s) && CellsOk(s) && pos <= s.enqueuePos
    ensures var q := s.cells[Slot(pos, |s.cells|)].sequence;
            && (q == pos ==> IsFree(s.tickets, |s.cells|, pos))
            && (q > pos ==> pos < s.enqueuePos)
            && (q < pos <==> !IsFree(s.tickets, |s.cells|, pos))
  {
    var n := |s.cells|;
    var u := WindowTicket(pos, s.enqueuePos, n);
    WindowTicketSharesSlot(pos, s.enqueuePos, n);
    assert FreeCellOk(s, u);
    if !IsFree(s.tickets, n, u) {
      assert TicketOk(s, u - n) && LiveCellOk(s, u - n);
    }
    if n <= pos < s.enqueuePos {
      assert TicketOk(s, pos - n);
    }
  }

  /** For a dequeuer at `pos`: equal means ticket `pos` is published, greater
      means it is already taken, smaller means it is not published. */
  lemma DequeueSequenceMeaning<T>(s: State<T>, pos: nat)
    requires CountersOk(s) && CellsOk(s) && pos <= s.dequeuePos
    ensures var q := s.cells[Slot(pos, |s.cells|)].sequence;
            && (q == pos + 1 ==> IsPublished(s.tickets, pos))
            && (q > pos + 1 ==> pos < s.dequeuePos)
            && (q < pos + 1 <==> !IsPublished(s.tickets, pos))
  {
    var n := |s.cells|;
    var u := WindowTicket(pos, s.enqueuePos, n);
    WindowTicketSharesSlot(pos, s.enqueuePos, n);
    assert FreeCellOk(s, u);
    if pos < s.enqueuePos {
      assert TicketOk(s, pos);
    }
    if u >= n && u - n < s.enqueuePos {
      assert TicketOk(s, u - n) && LiveCellOk(s, u - n);
    }
  }
}
