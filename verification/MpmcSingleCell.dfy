/** Why the constructor asks for two cells: with one, a full queue cannot be told from
    an empty one. Here the protocol runs on a single cell. */
module MpmcSingleCell {
  import opened Options
  import opened MpmcProtocol

  /** The moves in order; None if one of them is not enabled. */
  function After<T>(s: State<T>, moves: seq<Move<T>>): Option<State<T>>
    decreases |moves|
  {
    if moves == [] then Some(s)
    else if Enabled(s, moves[0]) then After(Step(s, moves[0]), moves[1..])
    else None
  }

  /** Call, two loads, claim, move, publish. */
  function EnqueueMoves<T>(tid: Tid, x: T): seq<Move<T>> {
    [Move(tid, CallEnqueue(x))] + Advances(tid, 5)
  }

  function Advances<T>(tid: Tid, n: nat): seq<Move<T>> {
    if n == 0 then [] else [Move(tid, Advance)] + Advances(tid, n - 1)
  }

  ghost predicate OneCell<T>(s: State<T>, tid: Tid) {
    && |s.cells| == 1 && s.cells[0].sequence == s.enqueuePos == |s.tickets|
    && tid in s.threads && s.threads[tid].pc.Idle?
  }

  lemma OneMove<T>(s: State<T>, m: Move<T>, moves: seq<Move<T>>)
    requires Enabled(s, m)
    ensures After(s, [m] + moves) == After(Step(s, m), moves)
  {
    assert ([m] + moves)[1..] == moves;
  }

  /** On one cell, enqueue returns true whatever the cell holds, and overwrites it. */
  lemma EnqueueOverwrites<T>(s: State<T>, tid: Tid, x: T)
    requires OneCell(s, tid)
    ensures var r := After(s, EnqueueMoves(tid, x));
            && r.Some? && tid in r.value.threads
            && r.value.threads[tid].pc.EnqReturn? && r.value.threads[tid].ok
            && r.value.cells == [Cell(s.enqueuePos + 1, Some(x))]
            && r.value.enqueuePos == s.enqueuePos + 1 == |r.value.tickets| && r.value.dequeuePos == s.dequeuePos
  {
    var p: nat, go: Move<T> := s.enqueuePos, Move(tid, Advance);
    assert Slot(p, 1) == 0;
    var s1 := Step(s, Move(tid, CallEnqueue(x)));
    OneMove(s, Move(tid, CallEnqueue(x)), Advances(tid, 5));
    var s2 := Step(s1, go);
    OneMove(s1, go, Advances(tid, 4));
    var s3 := Step(s2, go);
    OneMove(s2, go, Advances(tid, 3));
    ClaimOverwrites(s3, tid, x, p);
  }

  /** The claim and the two steps that follow it. */
  lemma ClaimOverwrites<T>(s: State<T>, tid: Tid, x: T, p: nat)
    requires |s.cells| == 1 && s.cells[0].sequence == s.enqueuePos == |s.tickets| == p
    requires tid in s.threads && s.threads[tid].pc.EnqTry? && s.threads[tid].item == Some(x)
    requires s.threads[tid].pos == s.threads[tid].sequence == p
    ensures var r := After(s, Advances(tid, 3));
            && r.Some? && tid in r.value.threads
            && r.value.threads[tid].pc.EnqReturn? && r.value.threads[tid].ok
            && r.value.cells == [Cell(p + 1, Some(x))]
            && r.value.enqueuePos == p + 1 == |r.value.tickets| && r.value.dequeuePos == s.dequeuePos
  {
    var go: Move<T> := Move(tid, Advance);
    assert Slot(p, 1) == 0;
    var s1 := Step(s, go);
    OneMove(s, go, Advances(tid, 2));
    var s2 := Step(s1, go);
    OneMove(s1, go, Advances(tid, 1));
    OneMove(s2, go, Advances(tid, 0));
    assert s2.cells == [Cell(p, Some(x))];
    assert Step(s2, go).cells == [Cell(p + 1, Some(x))];
  }

  /** So two enqueues in a row both return true, N + 1 tickets are outstanding and the
      first item is gone. */
  lemma SecondItemReplacesFirst<T>(s: State<T>, tid: Tid, a: T, b: T)
    requires OneCell(s, tid) && s.dequeuePos == s.enqueuePos
    ensures var first := After(s, EnqueueMoves(tid, a));
            && first.Some? && Enabled(first.value, Move(tid, Return)) && first.value.threads[tid].ok
            && var second := After(Step(first.value, Move(tid, Return)), EnqueueMoves(tid, b));
               && second.Some? && tid in second.value.threads && second.value.threads[tid].ok
               && second.value.enqueuePos - second.value.dequeuePos == 2
               && second.value.cells == [Cell(s.enqueuePos + 2, Some(b))]
  {
    hide Step, After, EnqueueMoves;
    EnqueueOverwrites(s, tid, a);
    var t := After(s, EnqueueMoves(tid, a)).value;
    ReturnKeepsQueue(t, tid);
    EnqueueOverwrites(Step(t, Move(tid, Return)), tid, b);
  }

  lemma ReturnKeepsQueue<T>(t: State<T>, tid: Tid)
    requires |t.cells| == 1 && tid in t.threads && t.threads[tid].pc.EnqReturn?
    ensures Enabled(t, Move(tid, Return))
    ensures var u := Step(t, Move(tid, Return));
            && tid in u.threads && u.threads[tid].pc.Idle?
            && u.cells == t.cells && u.tickets == t.tickets
            && u.enqueuePos == t.enqueuePos && u.dequeuePos == t.dequeuePos
  {
  }

  /** The cell's sequence number is too great for the ticket a dequeuer asks for. */
  ghost predicate IsStuck<T>(s: State<T>, tid: Tid) {
    && |s.cells| == 1 && s.cells[0].sequence > s.dequeuePos + 1
    && tid in s.threads
    && var l := s.threads[tid];
       && (l.pc.DeqLoadSeq? || l.pc.DeqTry?) && l.pos == s.dequeuePos
       && (l.pc.DeqTry? ==> l.sequence == s.cells[0].sequence)
  }

  lemma StuckStep<T>(s: State<T>, tid: Tid)
    requires IsStuck(s, tid)
    ensures var go: Move<T> := Move(tid, Advance);
            && Enabled(s, go) && IsStuck(Step(s, go), tid)
            && Step(s, go).cells == s.cells && Step(s, go).dequeuePos == s.dequeuePos
  {
    assert Slot(s.dequeuePos, 1) == 0;
  }

  /** A dequeuer alone then loads the sequence number and its position in turn for
      ever: after no number of its steps has it returned. */
  lemma {:induction false} DequeueSpins<T>(s: State<T>, tid: Tid, n: nat)
    requires IsStuck(s, tid)
    ensures var r := After(s, Advances(tid, n));
            r.Some? && IsStuck(r.value, tid) && r.value.cells == s.cells && r.value.dequeuePos == s.dequeuePos
    decreases n
  {
    hide Step;
    if n > 0 {
      StuckStep(s, tid);
      OneMove(s, Move(tid, Advance), Advances(tid, n - 1));
      DequeueSpins(Step(s, Move(tid, Advance)), tid, n - 1);
    }
  }

  /** So it is for a dequeue called once two items have gone in. */
  lemma DequeueNeverReturns<T>(s: State<T>, tid: Tid, n: nat)
    requires |s.cells| == 1 && s.cells[0].sequence > s.dequeuePos + 1
    requires tid in s.threads && s.threads[tid].pc.Idle?
    ensures var r := After(s, [Move(tid, CallDequeue)] + Advances(tid, n + 1));
            r.Some? && IsStuck(r.value, tid) && r.value.cells == s.cells
  {
    var called := Step(s, Move(tid, CallDequeue));
    OneMove(s, Move(tid, CallDequeue), Advances(tid, n + 1));
    OneMove(called, Move(tid, Advance), Advances(tid, n));
    DequeueSpins(Step(called, Move(tid, Advance)), tid, n);
  }
}
