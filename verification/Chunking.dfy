/** How the input is cut into calls of `process` does not matter. */
module Chunking {
  import opened Options
  import opened RequestSpec

  function Flatten(chunks: seq<string>): string {
    if chunks == [] then "" else Flatten(chunks[..|chunks| - 1]) + chunks[|chunks| - 1]
  }

  lemma {:induction false} FeedConcat(t: Turn, a: string, b: string)
    ensures Feed(t, a + b) == Feed(Feed(t, a), b)
    decreases |a|
  {
    if a == "" || t.stopped {
      assert a == "" ==> a + b == b;
    } else {
      assert (a + b)[1..] == a[1..] + b;
      FeedConcat(Consume(t.r, t.db, a[0]), a[1..], b);
    }
  }

  /** `process` returns early only with a finished request. */
  lemma {:induction false} StoppedMeansFinished(t: Turn, data: string)
    requires t.stopped ==> t.r.status == FINISHED
    ensures Feed(t, data).stopped ==> Feed(t, data).r.status == FINISHED
    decreases |data|
  {
    if data != "" && !t.stopped {
      StoppedMeansFinished(Consume(t.r, t.db, data[0]), data[1..]);
    }
  }

  /** FINISHED is reached, if at all, only during the last chunk. */
  ghost predicate UnfinishedBeforeLast(r: Req, db: Db, chunks: seq<string>) {
    forall i | 0 <= i < |chunks| :: ProcessAll(r, db, 0, chunks[..i]).r.status != FINISHED
  }

  /** Cutting the input is the same as feeding it in one go. */
  lemma {:induction false} CuttingIsFeeding(r: Req, db: Db, chunks: seq<string>)
    requires UnfinishedBeforeLast(r, db, chunks)
    ensures ProcessAll(r, db, 0, chunks) == Feed(Go(r, db), Flatten(chunks))
    decreases |chunks|
  {
    if chunks != [] {
      var front, last := chunks[..|chunks| - 1], chunks[|chunks| - 1];
      forall i | 0 <= i < |front|
        ensures ProcessAll(r, db, 0, front[..i]).r.status != FINISHED
      {
        assert front[..i] == chunks[..i];
      }
      CuttingIsFeeding(r, db, front);
      assert chunks[..|front|] == front;
      StoppedMeansFinished(Go(r, db), Flatten(front));
      FeedConcat(Go(r, db), Flatten(front), last);
    }
  }

  /** Any two ways of cutting the same bytes end in the same request, store and
      response. */
  lemma ChunkingInvariance(r: Req, db: Db, one: seq<string>, other: seq<string>)
    requires Flatten(one) == Flatten(other)
    requires UnfinishedBeforeLast(r, db, one) && UnfinishedBeforeLast(r, db, other)
    ensures ProcessAll(r, db, 0, one) == ProcessAll(r, db, 0, other)
  {
    CuttingIsFeeding(r, db, one);
    CuttingIsFeeding(r, db, other);
  }

  // ----- exactly when the cut shows

  /** The number of chunks up to and including the one that finishes the request; all
      of them if none does. */
  function ChunksRead(r: Req, db: Db, chunks: seq<string>): (m: nat)
    ensures m <= |chunks|
  {
    if chunks == [] || ProcessAll(r, db, 0, chunks[..|chunks| - 1]).r.status != FINISHED then |chunks|
    else ChunksRead(r, db, chunks[..|chunks| - 1])
  }

  /** The bytes of the chunks after that one. */
  function LateBytes(r: Req, db: Db, chunks: seq<string>): string {
    Flatten(chunks[ChunksRead(r, db, chunks)..])
  }

  function NonBlank(s: string): string {
    if s == "" then ""
    else NonBlank(s[..|s| - 1]) + (if IsWhiteSpace(s[|s| - 1]) then "" else [s[|s| - 1]])
  }

  predicate IsBlank(s: string) {
    forall i | 0 <= i < |s| :: IsWhiteSpace(s[i])
  }

  lemma {:induction false} BlankHasNoNonBlank(s: string)
    ensures NonBlank(s) == "" <==> IsBlank(s)
  {
    if s != "" {
      BlankHasNoNonBlank(s[..|s| - 1]);
      assert IsBlank(s) <==> IsBlank(s[..|s| - 1]) && IsWhiteSpace(s[|s| - 1]);
    }
  }

  lemma {:induction false} NonBlankConcat(s: string, t: string)
    ensures NonBlank(s + t) == NonBlank(s) + NonBlank(t)
  {
    if t == "" {
      assert s + t == s;
    } else {
      NonBlankConcat(s, t[..|t| - 1]);
      assert (s + t)[..|s + t| - 1] == s + t[..|t| - 1];
    }
  }

  /** A finished request ignores white space and collects everything else. */
  lemma {:induction false} FinishedCollects(r: Req, db: Db, s: string)
    requires r.status == FINISHED
    ensures Feed(Go(r, db), s) == Go(r.(buffer := r.buffer + NonBlank(s)), db)
    decreases |s|
  {
    if s == "" {
      assert r.buffer + NonBlank(s) == r.buffer;
    } else {
      var front, c := s[..|s| - 1], s[|s| - 1];
      FinishedCollects(r, db, front);
      FeedConcat(Go(r, db), front, [c]);
      assert front + [c] == s;
      var r' := r.(buffer := r.buffer + NonBlank(front));
      assert Feed(Go(r', db), [c]) == Consume(r', db, c);
      assert r'.buffer + [c] == r.buffer + (NonBlank(front) + [c]);
      assert r.buffer + (NonBlank(front) + "") == r'.buffer;
    }
  }

  lemma FinishingStops(r: Req, db: Db, c: char)
    requires r.status != FINISHED && Consume(r, db, c).r.status == FINISHED
    ensures Consume(r, db, c).stopped
  {
    hide Execute, Stoi;
  }

  /** `process` stops at the byte that finishes the request. */
  lemma {:induction false} FinishedMeansStopped(r: Req, db: Db, s: string)
    requires r.status != FINISHED
    ensures Feed(Go(r, db), s).r.status == FINISHED <==> Feed(Go(r, db), s).stopped
    decreases |s|
  {
    StoppedMeansFinished(Go(r, db), s);
    if s != "" {
      var t := Consume(r, db, s[0]);
      if t.r.status == FINISHED {
        FinishingStops(r, db, s[0]);
        assert Feed(t, s[1..]) == t;
      } else {
        StoppedMeansFinished(Go(r, db), [s[0]]);
        assert Feed(Go(r, db), [s[0]]) == t;
        FinishedMeansStopped(t.r, t.db, s[1..]);
      }
    }
  }

  lemma LateStep(r: Req, db: Db, front: seq<string>, last: string)
    requires ProcessAll(r, db, 0, front).r.status == FINISHED
    ensures LateBytes(r, db, front + [last]) == LateBytes(r, db, front) + last
  {
    var chunks, m := front + [last], ChunksRead(r, db, front);
    assert chunks[..|front|] == front;
    assert ChunksRead(r, db, chunks) == m;
    assert chunks[m..][..|chunks[m..]| - 1] == front[m..];
  }

  lemma {:induction false} NothingLate(r: Req, db: Db, chunks: seq<string>)
    requires r.status != FINISHED && ProcessAll(r, db, 0, chunks).r.status != FINISHED
    ensures ChunksRead(r, db, chunks) == |chunks|
    ensures LateBytes(r, db, chunks) == ""
  {
    if chunks != [] {
      var front := chunks[..|chunks| - 1];
      var p := ProcessAll(r, db, 0, front);
      if p.r.status == FINISHED {
        FinishedCollects(p.r, p.db, chunks[|chunks| - 1]);
      }
    }
    assert chunks[|chunks|..] == [];
  }

  /** For every cut: the result of the calls is the result of one call on all bytes,
      but for the late bytes that are not white space, which stay in the buffer. */
  lemma {:induction false} CutsAddLateBytes(r: Req, db: Db, chunks: seq<string>)
    requires r.status != FINISHED
    ensures var t, u := Feed(Go(r, db), Flatten(chunks)), ProcessAll(r, db, 0, chunks);
            && u.db == t.db
            && u.r == t.r.(buffer := t.r.buffer + NonBlank(LateBytes(r, db, chunks)))
    decreases |chunks|
  {
    hide Feed, ChunksRead, LateBytes, Process;
    if chunks == [] {
      NothingLate(r, db, chunks);
      NothingFed(Go(r, db));
    } else {
      var front, last := chunks[..|chunks| - 1], chunks[|chunks| - 1];
      assert chunks == front + [last];
      CutsAddLateBytes(r, db, front);
      FeedConcat(Go(r, db), Flatten(front), last);
      FinishedMeansStopped(r, db, Flatten(front));
      if ProcessAll(r, db, 0, front).r.status == FINISHED {
        LateChunk(r, db, front, last);
      } else {
        TimelyChunk(r, db, front, last);
        var p, t := ProcessAll(r, db, 0, front), Feed(Go(r, db), Flatten(front));
        assert t.r.buffer + "" == t.r.buffer && t == Go(p.r, p.db);
        assert Feed(t, last).r.buffer + "" == Feed(t, last).r.buffer;
      }
      if Feed(Go(r, db), Flatten(front)).stopped {
        NothingAfterStopped(Feed(Go(r, db), Flatten(front)), last);
      }
    }
  }

  lemma NothingFed(t: Turn)
    ensures Feed(t, "") == t && t.r.buffer + NonBlank("") == t.r.buffer
  {
  }

  lemma NothingAfterStopped(t: Turn, s: string)
    requires t.stopped
    ensures Feed(t, s) == t
  {
  }

  lemma LateChunk(r: Req, db: Db, front: seq<string>, last: string)
    requires ProcessAll(r, db, 0, front).r.status == FINISHED
    ensures var p, u := ProcessAll(r, db, 0, front), ProcessAll(r, db, 0, front + [last]);
            u.db == p.db && u.r == p.r.(buffer := p.r.buffer + NonBlank(last))
    ensures NonBlank(LateBytes(r, db, front + [last])) == NonBlank(LateBytes(r, db, front)) + NonBlank(last)
  {
    var p := ProcessAll(r, db, 0, front);
    assert (front + [last])[..|front|] == front;
    FinishedCollects(p.r, p.db, last);
    LateStep(r, db, front, last);
    NonBlankConcat(LateBytes(r, db, front), last);
  }

  lemma TimelyChunk(r: Req, db: Db, front: seq<string>, last: string)
    requires r.status != FINISHED && ProcessAll(r, db, 0, front).r.status != FINISHED
    ensures var p := ProcessAll(r, db, 0, front);
            ProcessAll(r, db, 0, front + [last]) == Feed(Go(p.r, p.db), last)
    ensures LateBytes(r, db, front + [last]) == "" && LateBytes(r, db, front) == ""
  {
    NothingLate(r, db, front);
    var chunks := front + [last];
    assert chunks[..|front|] == front && chunks[|chunks|..] == [];
    assert ChunksRead(r, db, chunks) == |chunks|;
  }

  /** The cut of the input shows if and only if a byte that is not white space comes
      in a chunk after the one that finishes the request; the store is never
      affected. */
  lemma CutShowsIff(r: Req, db: Db, chunks: seq<string>)
    requires r.status != FINISHED
    ensures ProcessAll(r, db, 0, chunks).db == Feed(Go(r, db), Flatten(chunks)).db
    ensures ProcessAll(r, db, 0, chunks).r == Feed(Go(r, db), Flatten(chunks)).r <==> IsBlank(LateBytes(r, db, chunks))
  {
    CutsAddLateBytes(r, db, chunks);
    BlankHasNoNonBlank(LateBytes(r, db, chunks));
    var t, late := Feed(Go(r, db), Flatten(chunks)), NonBlank(LateBytes(r, db, chunks));
    if late != "" {
      assert |t.r.buffer + late| > |t.r.buffer|;
    }
  }

  /** Two cuts of the same bytes end alike if and only if the bytes they leave over,
      white space apart, are the same. */
  lemma TwoCutsAgreeIff(r: Req, db: Db, one: seq<string>, other: seq<string>)
    requires r.status != FINISHED && Flatten(one) == Flatten(other)
    ensures ProcessAll(r, db, 0, one).db == ProcessAll(r, db, 0, other).db
    ensures ProcessAll(r, db, 0, one).r == ProcessAll(r, db, 0, other).r
            <==> NonBlank(LateBytes(r, db, one)) == NonBlank(LateBytes(r, db, other))
  {
    CutsAddLateBytes(r, db, one);
    CutsAddLateBytes(r, db, other);
    var buffer := Feed(Go(r, db), Flatten(one)).r.buffer;
    SameEnds(buffer, NonBlank(LateBytes(r, db, one)), NonBlank(LateBytes(r, db, other)));
  }

  lemma SameEnds(s: string, t: string, u: string)
    ensures s + t == s + u <==> t == u
  {
    assert (s + t)[|s|..] == t && (s + u)[|s|..] == u;
  }

  /** An instance: with "ping" read, the bytes after the
      space that finishes the request are dropped in the same chunk and kept in
      the next one. */
  lemma BytesAfterTheEndDependOnTheCut(c: Command)
    ensures var r, whole, cut := Fresh(c).(buffer := "ping"), [" x"], [" ", "x"];
            && Flatten(whole) == Flatten(cut)
            && ProcessAll(r, None, 0, whole).r.buffer == ""
            && ProcessAll(r, None, 0, cut).r.buffer == "x"
  {
    var r := Fresh(c).(buffer := "ping");
    var p := Consume(r, None, ' ');
    assert p.stopped && p.r.status == FINISHED && p.r.buffer == "";
    assert [" x"][..0] == [] && [" "][..0] == [] && [" ", "x"][..1] == [" "];
    assert Feed(Go(r, None), " x") == p == Feed(Go(r, None), " ");
    assert Flatten([" "]) == " ";
    assert ProcessAll(r, None, 0, [" "]) == p;
    FinishedKeepsTheByte(p.r);
  }

  lemma FinishedKeepsTheByte(r: Req)
    requires r.status == FINISHED && r.buffer == ""
    ensures Process(r, None, 0, "x").r.buffer == "x"
  {
    WordIsBuffered(r, None, "x");
  }

  predicate IsWord(w: string) {
    forall i | 0 <= i < |w| :: !IsWhiteSpace(w[i])
  }

  /** Outside the data block, the bytes of a word are collected. */
  lemma {:induction false} WordIsBuffered(r: Req, db: Db, w: string)
    requires r.status != DATA && IsWord(w)
    ensures Feed(Go(r, db), w) == Go(r.(buffer := r.buffer + w), db)
    decreases |w|
  {
    if w == "" {
      assert r.buffer + w == r.buffer;
    } else {
      var r' := r.(buffer := r.buffer + [w[0]]);
      WordIsBuffered(r', db, w[1..]);
      assert r.buffer + w == r'.buffer + w[1..];
    }
  }
}
