/** What a connection promises over every run of callbacks. */
module ConnectionRuns {
  import opened RequestSpec
  import opened ConnectionSpec

  /** The reference: the chunks since the last finished request, the store, and the
      responses owed so far. Each response is what a fresh request produces on
      those chunks when the last one arrives. */
  datatype Ledger = Ledger(chunks: seq<string>, db: Db, owed: seq<string>)

  function LedgerStep(g: Ledger, maxBytes: nat, e: Event): Ledger {
    match e
    case ReadDone(chunk) =>
      var chunks := g.chunks + [chunk];
      var t := ProcessAll(Fresh(NONE), g.db, maxBytes, chunks);
      if t.r.status == FINISHED then
        Ledger([], t.db, if t.r.noReply then g.owed else g.owed + [t.r.response])
      else g.(chunks := chunks)
    case StoreChanged(db) => g.(db := db)
    case _ => g
  }

  function LedgerOf(db: Db, maxBytes: nat, events: seq<Event>): Ledger {
    if events == [] then Ledger([], db, [])
    else LedgerStep(LedgerOf(db, maxBytes, events[..|events| - 1]), maxBytes, events[|events| - 1])
  }

  function Concat(parts: seq<string>): string {
    if parts == [] then "" else Concat(parts[..|parts| - 1]) + parts[|parts| - 1]
  }

  // ----- the store and the initial command do not matter before the end

  /** Equal up to the command field while it has not been read from the input. */
  predicate Alike(a: Req, b: Req) {
    a == b || (a == b.(command := a.command) && (a.status == COMMAND || a.status == FINISHED))
  }

  predicate AlikeTurns(a: Turn, b: Turn) {
    Alike(a.r, b.r) && a.db == b.db && a.stopped == b.stopped
  }

  lemma ConsumeAlike(a: Req, b: Req, db: Db, c: char)
    requires Alike(a, b)
    ensures AlikeTurns(Consume(a, db, c), Consume(b, db, c))
  {
  }

  lemma {:induction false} FeedAlike(a: Turn, b: Turn, data: string)
    requires AlikeTurns(a, b)
    ensures AlikeTurns(Feed(a, data), Feed(b, data))
    decreases |data|
  {
    if data != "" && !a.stopped {
      ConsumeAlike(a.r, b.r, a.db, data[0]);
      FeedAlike(Consume(a.r, a.db, data[0]), Consume(b.r, b.db, data[0]), data[1..]);
    }
  }

  lemma ProcessAlike(a: Req, b: Req, db: Db, maxBytes: nat, data: string)
    requires Alike(a, b)
    ensures AlikeTurns(Process(a, db, maxBytes, data), Process(b, db, maxBytes, data))
  {
    FeedAlike(Go(a, db), Go(b, db), data);
  }

  lemma PrepareFinishes(r: Req, db: Db)
    ensures Prepare(r, db).stopped && Prepare(r, db).r.status == FINISHED
  {
    hide Execute;
  }

  /** The store is read and written only by the byte that finishes the request. */
  lemma WordStore(r: Req, db: Db, other: Db)
    requires EndOfWord(r, db).r.status != FINISHED
    ensures var t := EndOfWord(r, db); !t.stopped && t.db == db && EndOfWord(r, other) == t.(db := other)
  {
    if r.status == COMMAND {
      CommandStore(r, db, other, CommandFromStr(r.buffer));
    } else if r.status in [NOREP, RETRIEVAL_KEY, RETRIEVAL_KEYS] {
      LastWordIsOpen(r, db);
      LastWordStore(r, db, other);
    } else {
      ArgumentStore(r, db, other);
    }
  }

  /** The word neither is empty nor ends the request. */
  predicate IsOpen(r: Req) {
    if r.status == NOREP then r.buffer == "noreply" || r.remaining > 0 else r.buffer != ""
  }

  lemma LastWordIsOpen(r: Req, db: Db)
    requires r.status in [NOREP, RETRIEVAL_KEY, RETRIEVAL_KEYS] && EndOfWord(r, db).r.status != FINISHED
    ensures IsOpen(r)
  {
    hide TakeKey, Stoi, CommandFromStr, Prepare;
    hide Execute;
    PrepareFinishes(r, db);
  }

  lemma LastWordStore(r: Req, db: Db, other: Db)
    requires r.status in [NOREP, RETRIEVAL_KEY, RETRIEVAL_KEYS] && IsOpen(r)
    ensures var t := EndOfWord(r, db); !t.stopped && t.db == db && EndOfWord(r, other) == t.(db := other)
  {
  }

  lemma ArgumentStore(r: Req, db: Db, other: Db)
    requires r.status !in [COMMAND, NOREP, RETRIEVAL_KEY, RETRIEVAL_KEYS] && EndOfWord(r, db).r.status != FINISHED
    ensures var t := EndOfWord(r, db); !t.stopped && t.db == db && EndOfWord(r, other) == t.(db := other)
  {
  }

  lemma CommandStore(r: Req, db: Db, other: Db, command: Command)
    requires r.status == COMMAND && command == CommandFromStr(r.buffer)
    requires EndOfWord(r, db).r.status != FINISHED
    ensures var t := EndOfWord(r, db); !t.stopped && t.db == db && EndOfWord(r, other) == t.(db := other)
  {
    hide Prepare, CommandFromStr;
    PrepareFinishes(r.(command := command, buffer := "", status := FINISHED), db);
  }

  lemma ConsumeStore(r: Req, db: Db, other: Db, c: char)
    requires Consume(r, db, c).r.status != FINISHED
    ensures var t := Consume(r, db, c); !t.stopped && t.db == db && Consume(r, other, c) == t.(db := other)
  {
    PrepareFinishes(r, db);
    if r.status != DATA && IsWhiteSpace(c) {
      WordStore(r, db, other);
    }
  }

  /** While nothing has finished, a request's state does not depend on the store. */
  lemma {:induction false} FeedStore(r: Req, db: Db, other: Db, data: string)
    requires Feed(Go(r, db), data).r.status != FINISHED
    ensures Feed(Go(r, other), data) == Feed(Go(r, db), data).(db := other) && Feed(Go(r, db), data).db == db
    decreases |data|
  {
    if data != "" {
      var t := Consume(r, db, data[0]);
      if t.stopped {
        assert Feed(t, data[1..]) == t;
        StopFinishes(r, db, data[0]);
      } else if t.r.status == FINISHED {
        FinishedStays(t, data[1..]);
      } else {
        ConsumeStore(r, db, other, data[0]);
        FeedStore(t.r, db, other, data[1..]);
      }
    }
  }

  lemma StopFinishes(r: Req, db: Db, c: char)
    ensures Consume(r, db, c).stopped ==> Consume(r, db, c).r.status == FINISHED
  {
  }

  lemma {:induction false} FinishedStays(t: Turn, data: string)
    requires t.r.status == FINISHED
    ensures Feed(t, data).r.status == FINISHED
    decreases |data|
  {
    if data != "" && !t.stopped {
      FinishedStays(Consume(t.r, t.db, data[0]), data[1..]);
    }
  }

  lemma ProcessStore(r: Req, db: Db, other: Db, maxBytes: nat, data: string)
    requires Process(r, db, maxBytes, data).r.status != FINISHED
    ensures Process(r, other, maxBytes, data) == Process(r, db, maxBytes, data).(db := other)
    ensures Process(r, db, maxBytes, data).db == db
  {
    FeedStore(r, db, other, data);
  }

  // ----- the invariant of a run

  /** The connection's request is what a fresh one would be on the chunks since the
      last reset. */
  predicate RequestFollows(c: Conn, g: Ledger) {
    var t := ProcessAll(Fresh(NONE), g.db, c.maxBytes, g.chunks);
    t == Go(t.r, g.db) && t.r.status != FINISHED && Alike(c.req, t.r)
  }

  predicate Prefix(a: string, b: string) {
    a <= b
  }

  /** At most one operation is outstanding, and the socket carries the responses
      owed, in order: all of them while reading, all but the last while writing,
      a prefix once the connection is dead. */
  predicate RunInv(c: Conn, g: Ledger) {
    && c.db == g.db
    && c.reading + c.writing <= 1
    && Prefix(c.sent, Concat(g.owed))
    && (c.reading == 1 ==> c.sent == Concat(g.owed) && RequestFollows(c, g))
    && (c.writing == 1 ==>
          && g.owed != [] && c.req.response == g.owed[|g.owed| - 1]
          && c.sent == Concat(g.owed[..|g.owed| - 1]) && g.chunks == []
          && c.req.status == FINISHED)
  }

  lemma ReadDoneKeeps(c: Conn, g: Ledger, chunk: string)
    requires RunInv(c, g) && Enabled(c, ReadDone(chunk))
    ensures RunInv(AfterRead(c, chunk), LedgerStep(g, c.maxBytes, ReadDone(chunk)))
  {
    hide Process;
    var before := ProcessAll(Fresh(NONE), g.db, c.maxBytes, g.chunks);
    OneMoreChunk(Fresh(NONE), g.db, c.maxBytes, g.chunks, chunk);
    var t := ProcessAll(Fresh(NONE), g.db, c.maxBytes, g.chunks + [chunk]);
    ProcessAlike(c.req, before.r, g.db, c.maxBytes, chunk);
    if t.r.status != FINISHED {
      ProcessStore(before.r, g.db, g.db, c.maxBytes, chunk);
      NotStopped(before.r, g.db, c.maxBytes, chunk);
    } else {
      assert (g.owed + [t.r.response])[..|g.owed|] == g.owed;
    }
  }

  lemma OneMoreChunk(r: Req, db: Db, maxBytes: nat, chunks: seq<string>, chunk: string)
    ensures var t := ProcessAll(r, db, maxBytes, chunks);
            ProcessAll(r, db, maxBytes, chunks + [chunk]) == Process(t.r, t.db, maxBytes, chunk)
  {
    hide Process;
    assert (chunks + [chunk])[..|chunks|] == chunks;
  }

  lemma NotStopped(r: Req, db: Db, maxBytes: nat, data: string)
    requires Process(r, db, maxBytes, data).r.status != FINISHED
    ensures !Process(r, db, maxBytes, data).stopped
  {
    FeedStops(Go(r, db), data);
  }

  lemma {:induction false} FeedStops(t: Turn, data: string)
    requires t.stopped ==> t.r.status == FINISHED
    ensures Feed(t, data).stopped ==> Feed(t, data).r.status == FINISHED
    decreases |data|
  {
    if data != "" && !t.stopped {
      StopFinishes(t.r, t.db, data[0]);
      FeedStops(Consume(t.r, t.db, data[0]), data[1..]);
    }
  }

  lemma StoreChangeKeeps(c: Conn, g: Ledger, db: Db)
    requires RunInv(c, g)
    ensures RunInv(c.(db := db), g.(db := db))
  {
    if c.reading == 1 {
      ChunksIgnoreStore(Fresh(NONE), g.db, db, c.maxBytes, g.chunks);
    }
  }

  lemma {:induction false} ChunksIgnoreStore(r: Req, db: Db, other: Db, maxBytes: nat, chunks: seq<string>)
    requires ProcessAll(r, db, maxBytes, chunks).r.status != FINISHED
    ensures ProcessAll(r, other, maxBytes, chunks) == ProcessAll(r, db, maxBytes, chunks).(db := other)
    ensures ProcessAll(r, db, maxBytes, chunks).db == db
    decreases |chunks|
  {
    if chunks != [] {
      var front, last := chunks[..|chunks| - 1], chunks[|chunks| - 1];
      var t := ProcessAll(r, db, maxBytes, front);
      if t.r.status == FINISHED {
        FinishedProcess(t.r, t.db, maxBytes, last);
      } else {
        ChunksIgnoreStore(r, db, other, maxBytes, front);
        ProcessStore(t.r, t.db, other, maxBytes, last);
      }
    }
  }

  lemma FinishedProcess(r: Req, db: Db, maxBytes: nat, data: string)
    requires r.status == FINISHED
    ensures Process(r, db, maxBytes, data).r.status == FINISHED
  {
    FinishedStays(Go(r, db), data);
  }

  lemma WriteKeeps(c: Conn, g: Ledger, e: Event)
    requires RunInv(c, g) && Enabled(c, e) && (e.WriteDone? || e.WriteFailed?)
    ensures RunInv(Step(c, e), g)
  {
    var last := g.owed[|g.owed| - 1];
    assert Concat(g.owed) == Concat(g.owed[..|g.owed| - 1]) + last;
    if e.WriteFailed? {
      assert c.sent + last[..e.wrote] <= c.sent + last;
    }
  }

  lemma StepKeepsRunInv(c: Conn, g: Ledger, e: Event)
    requires RunInv(c, g) && Enabled(c, e)
    ensures RunInv(Step(c, e), LedgerStep(g, c.maxBytes, e))
  {
    match e
    case ReadDone(chunk) => ReadDoneKeeps(c, g, chunk);
    case StoreChanged(db) => StoreChangeKeeps(c, g, db);
    case WriteDone => WriteKeeps(c, g, e);
    case WriteFailed(_, _) => WriteKeeps(c, g, e);
    case ReadFailed(_) =>
    case TimerFired =>
  }

  lemma {:induction false} RunKeepsInv(command: Command, db: Db, maxBytes: nat, events: seq<Event>)
    requires Run(Started(command, db, maxBytes), events).Some?
    ensures var c := Run(Started(command, db, maxBytes), events).value;
            c.maxBytes == maxBytes && RunInv(c, LedgerOf(db, maxBytes, events))
    decreases |events|
  {
    if events == [] {
      StartedSatisfiesInv(command, db, maxBytes);
    } else {
      var front, e := events[..|events| - 1], events[|events| - 1];
      var c := Run(Started(command, db, maxBytes), front).value;
      RunKeepsInv(command, db, maxBytes, front);
      StepKeepsRunInv(c, LedgerOf(db, maxBytes, front), e);
      StepKeepsLimit(c, e);
    }
  }

  lemma StepKeepsLimit(c: Conn, e: Event)
    requires Enabled(c, e)
    ensures Step(c, e).maxBytes == c.maxBytes
  {
  }

  lemma StartedSatisfiesInv(command: Command, db: Db, maxBytes: nat)
    ensures RunInv(Started(command, db, maxBytes), LedgerOf(db, maxBytes, []))
  {
    assert Fresh(command) == Fresh(NONE).(command := command);
  }

  /** On every run, from any uninitialised command: at most one read or write is
      outstanding, and the bytes sent are a prefix of the responses a fresh request
      would give to each finished request's chunks, in order; while a read is
      outstanding they are exactly those responses. */
  lemma ConnectionAnswersInOrder(command: Command, db: Db, maxBytes: nat, events: seq<Event>)
    requires Run(Started(command, db, maxBytes), events).Some?
    ensures var c, g := Run(Started(command, db, maxBytes), events).value, LedgerOf(db, maxBytes, events);
            && c.reading + c.writing <= 1
            && c.db == g.db
            && c.sent <= Concat(g.owed)
            && (c.reading == 1 ==> c.sent == Concat(g.owed))
            && (c.writing == 1 ==> c.sent + c.req.response == Concat(g.owed))
  {
    RunKeepsInv(command, db, maxBytes, events);
  }

  /** The command a request is born with, which its constructor leaves open, shows
      nowhere: not in status, response, keys, buffer or store. */
  lemma InitialCommandDoesNotShow(command: Command, db: Db, maxBytes: nat, chunks: seq<string>)
    ensures var t, u := ProcessAll(Fresh(command), db, maxBytes, chunks), ProcessAll(Fresh(NONE), db, maxBytes, chunks);
            && t.db == u.db && t.r.status == u.r.status && t.r.response == u.r.response
            && t.r.noReply == u.r.noReply && t.r.keys == u.r.keys && t.r.buffer == u.r.buffer
  {
    AllAlike(Fresh(command), Fresh(NONE), db, maxBytes, chunks);
  }

  lemma {:induction false} AllAlike(a: Req, b: Req, db: Db, maxBytes: nat, chunks: seq<string>)
    requires Alike(a, b)
    ensures AlikeTurns(ProcessAll(a, db, maxBytes, chunks), ProcessAll(b, db, maxBytes, chunks))
    decreases |chunks|
  {
    if chunks != [] {
      var front := chunks[..|chunks| - 1];
      AllAlike(a, b, db, maxBytes, front);
      var t, u := ProcessAll(a, db, maxBytes, front), ProcessAll(b, db, maxBytes, front);
      ProcessAlike(t.r, u.r, t.db, maxBytes, chunks[|chunks| - 1]);
    }
  }
}
