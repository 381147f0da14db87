/** The protocol on 64-bit words: counters, positions and sequence numbers wrap, cells
    are found by masking, and the branch is on a signed difference. It does what the
    protocol on unbounded tickets does as long as no thread's position lags its counter
    by half the range of a word. */
module MpmcWrapped {
  import opened MachineWords
  import opened Options
  import opened MpmcProtocol
  import opened MpmcInvariant
  import opened MpmcPreservation
  import opened MpmcQueue
  import opened MpmcRuns

  // ----- what a word machine sees of a state

  function WrapLocal<T>(l: Local<T>): Local<T> {
    l.(pos := Wrap(l.pos), sequence := Wrap(l.sequence), start := 0, retries := 0)
  }

  function WrapCell<T>(c: Cell<T>): Cell<T> {
    c.(sequence := Wrap(c.sequence))
  }

  /** All words wrapped; histories forgotten. */
  function WrapState<T>(s: State<T>): State<T> {
    State(
      seq(|s.cells|, i requires 0 <= i < |s.cells| => WrapCell(s.cells[i])),
      Wrap(s.enqueuePos), Wrap(s.dequeuePos),
      map tid | tid in s.threads :: WrapLocal(s.threads[tid]), [])
  }

  // ----- the word machine

  function WordSlot(pos: nat, n: nat): (i: nat)
    requires n > 0
    ensures i < n
  {
    BitAndAtMost(pos, n - 1);
    BitAnd(pos, n - 1)
  }

  lemma {:induction false} BitAndAtMost(a: nat, b: nat)
    ensures BitAnd(a, b) <= b
    decreases a
  {
    if a > 0 && b > 0 {
      BitAndAtMost(a / 2, b / 2);
    }
  }

  predicate WordEnabled<T>(w: State<T>, m: Move<T>) {
    && |w.cells| > 0
    && m.tid in w.threads
    && var l := w.threads[m.tid];
       match m.action
       case SpuriousFailure =>
         || (l.pc.EnqTry? && SignedDifference(l.sequence, l.pos) == 0 && w.enqueuePos == l.pos)
         || (l.pc.DeqTry? && SignedDifference(l.sequence, Wrap(l.pos + 1)) == 0 && w.dequeuePos == l.pos)
       case _ => Enabled(w, m)
  }

  function WordStep<T>(w: State<T>, m: Move<T>): State<T>
    requires WordEnabled(w, m)
  {
    match m.action
    case Advance => WordAdvance(w, m.tid)
    case SpuriousFailure =>
      var l := w.threads[m.tid];
      SetThread(w, m.tid, l.(pc := if l.pc.EnqTry? then EnqLoadSeq else DeqLoadSeq))
    case _ => Step(w, m)
  }

  function WordAdvance<T>(w: State<T>, tid: Tid): State<T>
    requires Enabled(w, Move(tid, Advance))
  {
    var l, n := w.threads[tid], |w.cells|;
    var i := WordSlot(l.pos, n);
    match l.pc
    case EnqLoadPos => SetThread(w, tid, l.(pc := EnqLoadSeq, pos := w.enqueuePos))
    case EnqLoadSeq => SetThread(w, tid, l.(pc := EnqTry, sequence := w.cells[i].sequence))
    case EnqTry =>
      var dif := SignedDifference(l.sequence, l.pos);
      if dif == 0 && w.enqueuePos == l.pos then
        w.(enqueuePos := Wrap(l.pos + 1), threads := w.threads[tid := l.(pc := EnqMove)])
      else if dif < 0 then SetThread(w, tid, l.(pc := EnqReturn, ok := false))
      else SetThread(w, tid, l.(pc := EnqLoadSeq, pos := w.enqueuePos))
    case EnqMove =>
      w.(cells := w.cells[i := w.cells[i].(data := l.item)],
         threads := w.threads[tid := l.(pc := EnqPublish, item := None)])
    case EnqPublish =>
      w.(cells := w.cells[i := w.cells[i].(sequence := Wrap(l.pos + 1))],
         threads := w.threads[tid := l.(pc := EnqReturn, ok := true)])
    case DeqLoadPos => SetThread(w, tid, l.(pc := DeqLoadSeq, pos := w.dequeuePos))
    case DeqLoadSeq => SetThread(w, tid, l.(pc := DeqTry, sequence := w.cells[i].sequence))
    case DeqTry =>
      var dif := SignedDifference(l.sequence, Wrap(l.pos + 1));
      if dif == 0 && w.dequeuePos == l.pos then
        w.(dequeuePos := Wrap(l.pos + 1), threads := w.threads[tid := l.(pc := DeqMove)])
      else if dif < 0 then SetThread(w, tid, l.(pc := DeqReturn, ok := false))
      else SetThread(w, tid, l.(pc := DeqLoadSeq, pos := w.dequeuePos))
    case DeqMove =>
      w.(cells := w.cells[i := w.cells[i].(data := None)],
         threads := w.threads[tid := l.(pc := DeqRelease, item := w.cells[i].data)])
    case DeqRelease =>
      w.(cells := w.cells[i := w.cells[i].(sequence := Wrap(l.pos + (n - 1) + 1))],
         threads := w.threads[tid := l.(pc := DeqReturn, ok := true)])
    case SizeLoadFirst => SetThread(w, tid, l.(pc := SizeLoadLast, pos := w.dequeuePos))
    case SizeLoadLast => SetThread(w, tid, l.(pc := SizeReturn, sequence := w.enqueuePos))
  }

  // ----- how far apart the words are

  /** The sequence number a thread branches on is within a lap or two of its position
      and the counter. */
  ghost predicate SequenceNear<T>(l: Local<T>, s: State<T>) {
    var n := |s.cells|;
    && (l.pc.EnqTry? ==> l.pos <= s.enqueuePos && l.pos - n <= l.sequence <= s.enqueuePos + n)
    && (l.pc.DeqTry? ==> l.pos <= s.dequeuePos && l.pos - n <= l.sequence <= s.dequeuePos + 2 * n)
  }

  ghost predicate SequencesNear<T>(s: State<T>) {
    forall tid | tid in s.threads :: SequenceNear(s.threads[tid], s)
  }

  lemma CellSequenceBounds<T>(s: State<T>, pos: nat)
    requires CountersOk(s) && CellsOk(s) && pos <= s.enqueuePos
    ensures var q := s.cells[Slot(pos, |s.cells|)].sequence;
            s.enqueuePos - |s.cells| <= q <= s.enqueuePos + |s.cells|
  {
    var n := |s.cells|;
    var u := WindowTicket(pos, s.enqueuePos, n);
    WindowTicketSharesSlot(pos, s.enqueuePos, n);
    assert FreeCellOk(s, u);
    if !IsFree(s.tickets, n, u) {
      assert TicketOk(s, u - n) && LiveCellOk(s, u - n);
    }
  }

  lemma StepKeepsNear<T>(s: State<T>, m: Move<T>)
    requires Inv(s) && Enabled(s, m) && SequencesNear(s)
    ensures SequencesNear(Step(s, m))
  {
    hide Step, Inv, SequenceNear;
    var s' := Step(s, m);
    StepKeepsShape(s, m);
    OwnSequenceNear(s, m);
    forall tid | tid in s'.threads
      ensures SequenceNear(s'.threads[tid], s')
    {
      if tid != m.tid {
        GrowingKeepsNear(s.threads[tid], s, s');
      }
    }
  }

  lemma StepKeepsShape<T>(s: State<T>, m: Move<T>)
    requires Enabled(s, m)
    ensures var s' := Step(s, m);
            && |s'.cells| == |s.cells| && s.enqueuePos <= s'.enqueuePos && s.dequeuePos <= s'.dequeuePos
            && s'.threads.Keys == s.threads.Keys
            && forall o | o in s.threads && o != m.tid :: s'.threads[o] == s.threads[o]
  {
  }

  lemma GrowingKeepsNear<T>(l: Local<T>, s: State<T>, s': State<T>)
    requires SequenceNear(l, s)
    requires |s'.cells| == |s.cells| && s.enqueuePos <= s'.enqueuePos && s.dequeuePos <= s'.dequeuePos
    ensures SequenceNear(l, s')
  {
  }

  lemma OwnSequenceNear<T>(s: State<T>, m: Move<T>)
    requires Inv(s) && Enabled(s, m)
    ensures SequenceNear(Step(s, m).threads[m.tid], Step(s, m))
  {
    hide OwnersOk, CellsOk, NoClaims, NoTakes, RetriesBounded, OwnsPut, OwnsTake;
    var l := s.threads[m.tid];
    assert ThreadOk(l, m.tid, s.tickets, s.dequeuePos, |s.cells|);
    CountersBracket(s);
    if l.pc.EnqLoadSeq? || l.pc.DeqLoadSeq? {
      CellSequenceBounds(s, l.pos);
    }
  }

  /** No position lags its counter by half a word, two laps taken off. */
  ghost predicate LagsLittle<T>(s: State<T>) {
    forall tid | tid in s.threads :: LagIsLittle(s.threads[tid], s)
  }

  ghost predicate LagIsLittle<T>(l: Local<T>, s: State<T>) {
    && (l.pc.EnqTry? ==> s.enqueuePos - l.pos < HALF - 2 * |s.cells|)
    && (l.pc.DeqTry? ==> s.dequeuePos - l.pos < HALF - 2 * |s.cells|)
  }

  lemma SameWord(a: nat, b: nat)
    requires a <= b < a + WORD
    ensures Wrap(a) == Wrap(b) <==> a == b
  {
    if Wrap(a) == Wrap(b) {
      var d := b / WORD - a / WORD;
      assert b - a == d * WORD;
    }
  }

  lemma WordSlotIsSlot(pos: nat, n: nat)
    requires 2 <= n < WORD && IsPowerOfTwo(n)
    ensures WordSlot(Wrap(pos), n) == Slot(pos, n)
  {
    CellOfWord(pos, n, n - 1);
  }

  // ----- one step

  /** The comparison and the compare-and-swap of a word machine decide as those on
      unbounded tickets do. */
  lemma DecisionsAgree(sequence: nat, expected: nat, counter: nat, pos: nat, n: nat)
    requires pos <= counter && counter - pos < HALF - 2 * n
    requires pos - n <= sequence <= counter + 2 * n && pos <= expected <= pos + 1 && n >= 2
    ensures SignedDifference(Wrap(sequence), Wrap(expected)) == sequence - expected
    ensures Wrap(counter) == Wrap(pos) <==> counter == pos
  {
    WrappedDifferenceIsExact(sequence, expected);
    SameWord(pos, counter);
  }

  lemma ThreadsWrap<T>(s: State<T>, tid: Tid, l: Local<T>)
    requires tid in s.threads
    ensures WrapState(s.(threads := s.threads[tid := l])).threads == WrapState(s).threads[tid := WrapLocal(l)]
  {
  }

  lemma CellsWrap<T>(s: State<T>, i: nat, c: Cell<T>)
    requires i < |s.cells|
    ensures WrapState(s.(cells := s.cells[i := c])).cells == WrapState(s).cells[i := WrapCell(c)]
  {
  }

  /** The same steps are enabled. */
  lemma EnabledAgrees<T>(s: State<T>, m: Move<T>)
    requires SequencesNear(s) && LagsLittle(s) && |s.cells| >= 2
    ensures WordEnabled(WrapState(s), m) <==> Enabled(s, m)
  {
    if m.tid in s.threads {
      var l := s.threads[m.tid];
      assert SequenceNear(l, s) && LagIsLittle(l, s);
      assert WrapState(s).threads[m.tid] == WrapLocal(l);
      if l.pc.EnqTry? {
        DecisionsAgree(l.sequence, l.pos, s.enqueuePos, l.pos, |s.cells|);
      } else if l.pc.DeqTry? {
        DecisionsAgree(l.sequence, l.pos + 1, s.dequeuePos, l.pos, |s.cells|);
        WrapOfSum(l.pos, 1);
      }
    }
  }

  /** And they lead to the same words. */
  lemma StepAgrees<T>(s: State<T>, m: Move<T>)
    requires SequencesNear(s) && LagsLittle(s) && 2 <= |s.cells| < WORD && IsPowerOfTwo(|s.cells|)
    requires Enabled(s, m)
    ensures WordEnabled(WrapState(s), m)
    ensures WordStep(WrapState(s), m) == WrapState(Step(s, m))
  {
    EnabledAgrees(s, m);
    var l := s.threads[m.tid];
    assert WrapState(s).threads[m.tid] == WrapLocal(l);
    ThreadsWrap(s, m.tid, Step(s, m).threads[m.tid]);
    if m.action.Advance? {
      if l.pc.EnqTry? {
        EnqTryAgrees(s, m.tid);
      } else if l.pc.DeqTry? {
        DeqTryAgrees(s, m.tid);
      } else if l.pc in [EnqMove, EnqPublish, DeqMove, DeqRelease] {
        WriteAgrees(s, m.tid);
      } else {
        LoadAgrees(s, m.tid);
      }
    }
  }

  /** What a thread on its branch compares. */
  lemma WordsDecide<T>(s: State<T>, tid: Tid)
    requires SequencesNear(s) && LagsLittle(s) && |s.cells| >= 2 && tid in s.threads
    ensures var l := s.threads[tid];
            && (l.pc.EnqTry? ==>
                  && SignedDifference(Wrap(l.sequence), Wrap(l.pos)) == l.sequence - l.pos
                  && (Wrap(s.enqueuePos) == Wrap(l.pos) <==> s.enqueuePos == l.pos))
            && (l.pc.DeqTry? ==>
                  && SignedDifference(Wrap(l.sequence), Wrap(l.pos + 1)) == l.sequence - (l.pos + 1)
                  && (Wrap(s.dequeuePos) == Wrap(l.pos) <==> s.dequeuePos == l.pos))
  {
    hide Wrap, SignedDifference;
    var l := s.threads[tid];
    assert SequenceNear(l, s) && LagIsLittle(l, s);
    if l.pc.EnqTry? {
      DecisionsAgree(l.sequence, l.pos, s.enqueuePos, l.pos, |s.cells|);
    } else if l.pc.DeqTry? {
      DecisionsAgree(l.sequence, l.pos + 1, s.dequeuePos, l.pos, |s.cells|);
    }
  }

  lemma EnqTryAgrees<T>(s: State<T>, tid: Tid)
    requires SequencesNear(s) && LagsLittle(s) && |s.cells| >= 2
    requires Enabled(s, Move(tid, Advance)) && s.threads[tid].pc.EnqTry?
    ensures Enabled(WrapState(s), Move(tid, Advance))
    ensures WordAdvance(WrapState(s), tid) == WrapState(AdvanceStep(s, tid))
  {
    hide SequencesNear, LagsLittle, Wrap, SignedDifference;
    var l := s.threads[tid];
    WordsDecide(s, tid);
    WrapOfSum(l.pos, 1);
    ThreadsWrap(s, tid, AdvanceStep(s, tid).threads[tid]);
  }

  lemma DeqTryAgrees<T>(s: State<T>, tid: Tid)
    requires SequencesNear(s) && LagsLittle(s) && |s.cells| >= 2
    requires Enabled(s, Move(tid, Advance)) && s.threads[tid].pc.DeqTry?
    ensures Enabled(WrapState(s), Move(tid, Advance))
    ensures WordAdvance(WrapState(s), tid) == WrapState(AdvanceStep(s, tid))
  {
    hide SequencesNear, LagsLittle, Wrap, SignedDifference;
    var l := s.threads[tid];
    WordsDecide(s, tid);
    WrapOfSum(l.pos, 1);
    ThreadsWrap(s, tid, AdvanceStep(s, tid).threads[tid]);
  }

  /** The steps that write to a cell. */
  lemma WriteAgrees<T>(s: State<T>, tid: Tid)
    requires 2 <= |s.cells| < WORD && IsPowerOfTwo(|s.cells|) && Enabled(s, Move(tid, Advance))
    requires s.threads[tid].pc in [EnqMove, EnqPublish, DeqMove, DeqRelease]
    ensures Enabled(WrapState(s), Move(tid, Advance))
    ensures WordAdvance(WrapState(s), tid) == WrapState(AdvanceStep(s, tid))
  {
    hide Wrap, WordSlot, SignedDifference;
    var l, n := s.threads[tid], |s.cells|;
    WordSlotIsSlot(l.pos, n);
    WrapOfSum(l.pos, 1);
    WrapOfSum(l.pos, n);
    var s' := AdvanceStep(s, tid);
    ThreadsWrap(s, tid, s'.threads[tid]);
    var i := Slot(l.pos, n);
    CellsWrap(s, i, s'.cells[i]);
  }

  /** The steps that only load. */
  lemma LoadAgrees<T>(s: State<T>, tid: Tid)
    requires 2 <= |s.cells| < WORD && IsPowerOfTwo(|s.cells|) && Enabled(s, Move(tid, Advance))
    requires s.threads[tid].pc in
             [EnqLoadPos, EnqLoadSeq, DeqLoadPos, DeqLoadSeq, SizeLoadFirst, SizeLoadLast]
    ensures Enabled(WrapState(s), Move(tid, Advance))
    ensures WordAdvance(WrapState(s), tid) == WrapState(AdvanceStep(s, tid))
  {
    hide Wrap, WordSlot, SignedDifference;
    WordSlotIsSlot(s.threads[tid].pos, |s.cells|);
    ThreadsWrap(s, tid, AdvanceStep(s, tid).threads[tid]);
  }

  // ----- runs

  ghost predicate IsWordRun<T>(words: seq<State<T>>, moves: seq<Move<T>>) {
    && |words| == |moves| + 1
    && forall i | 0 <= i < |moves| :: WordEnabled(words[i], moves[i]) && words[i + 1] == WordStep(words[i], moves[i])
  }

  /** The same moves on unbounded tickets. */
  ghost function Follow<T>(s: State<T>, moves: seq<Move<T>>): State<T> {
    if moves == [] then s
    else
      var before, m := Follow(s, moves[..|moves| - 1]), moves[|moves| - 1];
      if Enabled(before, m) then Step(before, m) else before
  }

  lemma {:induction false} WordRunFollows<T>(words: seq<State<T>>, moves: seq<Move<T>>, s: State<T>, j: nat)
    requires IsWordRun(words, moves) && Init(s) && words[0] == WrapState(s) && j <= |moves|
    requires |s.cells| < WORD && IsPowerOfTwo(|s.cells|)
    requires forall i | 0 <= i < j :: LagsLittle(Follow(s, moves[..i]))
    ensures var t := Follow(s, moves[..j]);
            && words[j] == WrapState(t) && Inv(t) && SequencesNear(t) && |t.cells| == |s.cells|
    ensures j > 0 ==> Enabled(Follow(s, moves[..j - 1]), moves[j - 1]) &&
                      Follow(s, moves[..j]) == Step(Follow(s, moves[..j - 1]), moves[j - 1])
  {
    hide Step, WordStep, WordEnabled, Inv, WrapState, SequencesNear, LagsLittle;
    if j == 0 {
      InitSatisfiesInv(s);
      InitIsNear(s);
      assert moves[..0] == [];
    } else {
      WordRunFollows(words, moves, s, j - 1);
      var t, m := Follow(s, moves[..j - 1]), moves[j - 1];
      assert moves[..j][..j - 1] == moves[..j - 1] && moves[..j][j - 1] == m;
      InvHasCells(t);
      EnabledAgrees(t, m);
      StepAgrees(t, m);
      StepKeepsInv(t, m);
      StepKeepsNear(t, m);
      StepKeepsShape(t, m);
    }
  }

  lemma InvHasCells<T>(s: State<T>)
    requires Inv(s)
    ensures |s.cells| >= 2
  {
  }

  lemma InitIsNear<T>(s: State<T>)
    requires Init(s)
    ensures SequencesNear(s)
  {
  }

  /** Refinement: every run of the word machine whose positions lag little is, word for
      word, a run of the protocol on unbounded tickets; what is proved of those runs
      holds of its threads, their results and their items. */
  lemma WordRunsRefineTicketRuns<T>(words: seq<State<T>>, moves: seq<Move<T>>, s: State<T>) returns (states: seq<State<T>>)
    requires IsWordRun(words, moves) && Init(s) && words[0] == WrapState(s)
    requires |s.cells| < WORD && IsPowerOfTwo(|s.cells|)
    requires forall i | 0 <= i <= |moves| :: LagsLittle(Follow(s, moves[..i]))
    ensures IsRun(states, moves)
    ensures forall j | 0 <= j <= |moves| :: words[j] == WrapState(states[j])
    ensures forall j, tid | 0 <= j <= |moves| && tid in states[j].threads ::
              var l, w := states[j].threads[tid], words[j].threads;
              tid in w && w[tid].pc == l.pc && w[tid].item == l.item && w[tid].ok == l.ok
  {
    hide Step, WordStep, WordEnabled, Inv, Init, SequencesNear, LagsLittle;
    states := seq(|moves| + 1, j requires 0 <= j <= |moves| => Follow(s, moves[..j]));
    forall j | 0 <= j <= |moves|
      ensures words[j] == WrapState(states[j])
    {
      WordRunFollows(words, moves, s, j);
    }
    assert moves[..0] == [];
    forall i | 0 <= i < |moves|
      ensures Enabled(states[i], moves[i]) && states[i + 1] == Step(states[i], moves[i])
    {
      WordRunFollows(words, moves, s, i + 1);
    }
  }

  // ----- approx_size

  /** On words, approx_size gives what it gives on tickets unless the enqueue counter
      has wrapped past the dequeue counter; then it is 0, whatever is queued. */
  lemma ApproxSizeOnWords(first: nat, last: nat, n: nat)
    requires first <= last < first + WORD
    ensures ApproxSize(Wrap(first), Wrap(last), n) == if Wrap(first) + (last - first) < WORD then ApproxSize(first, last, n) else 0
  {
    var head := Wrap(first);
    WrapOfSum(first, last - first);
    assert Wrap(last) == Wrap(head + (last - first));
    if head + (last - first) < WORD {
      RemainderIsUnique(head + (last - first), WORD, 0, head + (last - first));
    } else {
      RemainderIsUnique(head + (last - first), WORD, 1, head + (last - first) - WORD);
    }
  }

  /** In a concurrent run on words: with `first` the tickets taken at the call's first
      read and `last` those claimed at its second, whatever others did in between. */
  lemma SizeCallOnWords<T>(words: seq<State<T>>, states: seq<State<T>>, moves: seq<Move<T>>, j: nat, tid: Tid)
    requires IsRun(states, moves) && j <= |moves| && j < |words| && words[j] == WrapState(states[j])
    requires tid in states[j].threads && states[j].threads[tid].pc.SizeReturn?
    ensures tid in words[j].threads
    ensures exists i: nat, k: nat ::
              && SizeReads(states, moves, j, tid, i, k)
              && var first, last := states[i].dequeuePos, states[k].enqueuePos;
                 && first <= last
                 && (last - first < WORD ==>
                       ApproxSize(words[j].threads[tid].pos, words[j].threads[tid].sequence, |words[j].cells|)
                       == if Wrap(first) + (last - first) < WORD then ApproxSize(first, last, |states[j].cells|) else 0)
  {
    hide SizeReads, Wrap, ApproxSize;
    var i, k := SizeReadsAre(states, moves, j, tid);
    ReadsAre(states, moves, j, tid, i, k);
    var first, last := states[i].dequeuePos, states[k].enqueuePos;
    if last - first < WORD {
      ApproxSizeOnWords(first, last, |states[j].cells|);
    }
  }

  lemma ReadsAre<T>(states: seq<State<T>>, moves: seq<Move<T>>, j: nat, tid: Tid, i: nat, k: nat)
    requires IsRun(states, moves) && j <= |moves| && tid in states[j].threads && SizeReads(states, moves, j, tid, i, k)
    ensures i <= |moves| && k <= |moves|
    ensures states[j].threads[tid].pos == states[i].dequeuePos && states[j].threads[tid].sequence == states[k].enqueuePos
  {
  }

  // ----- an instance

  /** A quiescent queue of four that holds a and b, under the last ticket before the
      wrap and the first one after it. */
  ghost function HoldsTwo<T>(a: T, b: T, tid: Tid): State<T> {
    State(
      [Cell(WORD + 1, Some(b)), Cell(WORD + 1, None), Cell(WORD + 2, None), Cell(WORD, Some(a))],
      WORD + 1, WORD - 1, map[tid := IdleThread()],
      seq(WORD + 1, t requires 0 <= t < WORD + 1 =>
        Ticket(tid, if t < WORD then a else b, Published, if t < WORD - 1 then Released(tid) else Unclaimed)))
  }

  lemma HoldsTwoIsSound<T>(a: T, b: T, tid: Tid)
    ensures Inv(HoldsTwo(a, b, tid))
  {
    var s := HoldsTwo(a, b, tid);
    assert |s.cells| == 4 && |s.tickets| == WORD + 1;
    assert (WORD + 1) % 4 == 1 && (WORD + 2) % 4 == 2 && (WORD - 1) % 4 == 3 && WORD % 4 == 0;
    forall t | 0 <= t < |s.tickets|
      ensures TicketOk(s, t) && LiveCellOk(s, t) && HasOwner(s, t)
    {
    }
    forall t: nat | |s.tickets| <= t < |s.tickets| + 4
      ensures FreeCellOk(s, t)
    {
      assert t == WORD + 1 || t == WORD + 2 || t == WORD + 3 || t == WORD + 4;
    }
  }

  /** The two items are in their cells, and an approx_size call that runs alone on the
      words returns 0. */
  lemma TwoItemsLookLikeNone<T>(a: T, b: T, tid: Tid)
    ensures var s := HoldsTwo(a, b, tid);
            && Inv(s) && IsQuiescent(s) && s.enqueuePos - s.dequeuePos == 2
            && s.cells[Slot(s.dequeuePos, 4)].data == Some(a) && s.cells[Slot(s.dequeuePos + 1, 4)].data == Some(b)
    ensures var w, call, go: Move<T> := WrapState(HoldsTwo(a, b, tid)), Move(tid, CallSize), Move(tid, Advance);
            && WordEnabled(w, call) && WordEnabled(WordStep(w, call), go)
            && WordEnabled(WordStep(WordStep(w, call), go), go)
            && var w' := WordStep(WordStep(WordStep(w, call), go), go);
               && tid in w'.threads && w'.threads[tid].pc.SizeReturn?
               && ApproxSize(w'.threads[tid].pos, w'.threads[tid].sequence, |w'.cells|) == 0
  {
    HoldsTwoIsSound(a, b, tid);
    IdleMeansQuiescent(HoldsTwo(a, b, tid));
    assert (WORD - 1) % 4 == 3 && WORD % 4 == 0;
    ApproxSizeOnWords(WORD - 1, WORD + 1, 4);
    RemainderIsUnique(WORD - 1, WORD, 0, WORD - 1);
  }
}
