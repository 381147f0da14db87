/** A client's whole session on one connection, cut into reads in any way. */
module ClientSessions {
  import opened Options
  import opened Numerals
  import opened RequestSpec
  import opened Chunking
  import opened WireFormat
  import opened ClientRequests
  import opened ConnectionSpec
  import ConnectionRuns

  /** A request and the reads it arrives in. */
  datatype Sent = Sent(request: ClientRequest, pieces: seq<string>)

  predicate ArrivesWhole(s: Sent) {
    WellFormed(s.request) && Joined(s.pieces) == Wire(s.request)
  }

  function Joined(parts: seq<string>): string {
    if parts == [] then "" else parts[0] + Joined(parts[1..])
  }

  // ----- the callbacks of a session

  /** What the connection does while `left` bytes are missing up to the one that
      finishes the request: read; at that byte, write the response unless it is to be
      silent. A later read of the same request counts as a new one. */
  function EventsOf(pieces: seq<string>, left: nat, silent: bool): seq<Event> {
    if pieces == [] then []
    else
      var n := |pieces[0]|;
      [ReadDone(pieces[0])] +
      if left == 0 then (if n == 0 then [] else [WriteDone]) + EventsOf(pieces[1..], 0, silent)
      else if n < left then EventsOf(pieces[1..], left - n, silent)
      else (if silent then [] else [WriteDone]) + EventsOf(pieces[1..], 0, silent)
  }

  /** The reads with at least one byte that come after the finishing byte's. */
  function LateReads(pieces: seq<string>, left: nat): nat {
    if pieces == [] then 0
    else
      var n := |pieces[0]|;
      if left == 0 then (if n == 0 then 0 else 1) + LateReads(pieces[1..], 0)
      else if n < left then LateReads(pieces[1..], left - n)
      else LateReads(pieces[1..], 0)
  }

  function Needed(q: ClientRequest): nat {
    |Body(q)| + 1
  }

  function SessionEvents(session: seq<Sent>): seq<Event> {
    if session == [] then []
    else
      var s := session[0];
      EventsOf(s.pieces, Needed(s.request), Silent(s.request)) + SessionEvents(session[1..])
  }

  // ----- what should and what does come back

  const LATE_ANSWER: string := "CLIENT_ERROR unsupported command\r\n"

  function Times(s: string, n: nat): string {
    if n == 0 then "" else s + Times(s, n - 1)
  }

  /** The answers of a map to the requests, one after the other. */
  function Answers(session: seq<Sent>, items: Items): string {
    if session == [] then ""
    else
      var served := Served(session[0].request, items);
      (if Silent(session[0].request) then "" else served.text) + Answers(session[1..], served.items)
  }

  function ItemsAfter(session: seq<Sent>, items: Items): Items {
    if session == [] then items else ItemsAfter(session[1..], Served(session[0].request, items).items)
  }

  /** The same with an error line for every late read. */
  function AnswersAndErrors(session: seq<Sent>, items: Items): string {
    if session == [] then ""
    else
      var s, served := session[0], Served(session[0].request, items);
      (if Silent(s.request) then "" else served.text) + Times(LATE_ANSWER, LateReads(s.pieces, Needed(s.request))) +
      AnswersAndErrors(session[1..], served.items)
  }

  // ----- runs, from the left

  lemma {:induction false} RunConcat(c: Conn, first: seq<Event>, second: seq<Event>)
    ensures Run(c, first + second) == match Run(c, first) case None => None case Some(d) => Run(d, second)
    decreases |second|
  {
    if second == [] {
      assert first + second == first;
    } else {
      RunConcat(c, first, second[..|second| - 1]);
      assert (first + second)[..|first + second| - 1] == first + second[..|second| - 1];
    }
  }

  lemma RunOne(c: Conn, e: Event, rest: seq<Event>)
    requires Enabled(c, e)
    ensures Run(c, [e] + rest) == Run(Step(c, e), rest)
  {
    hide Step;
    RunConcat(c, [e], rest);
    assert [e][..0] == [] && Run(c, []) == Some(c);
    assert Run(c, [e]) == Some(Step(c, e));
  }

  // ----- late reads

  lemma LateReadFails(c: Conn, items: Items, read: string)
    requires c.reading == 1 && c.writing == 0 && c.maxBytes == 0 && c.db == Some(items) && c.req == Fresh(NONE)
    requires IsBlank(read)
    ensures read == "" ==> Step(c, ReadDone(read)) == c
    ensures read != "" ==>
            && Enabled(Step(c, ReadDone(read)), WriteDone)
            && Step(Step(c, ReadDone(read)), WriteDone) == c.(sent := c.sent + LATE_ANSWER)
  {
    if read != "" {
      BlankFails(c.db, read);
    }
  }

  lemma BlankFails(db: Db, read: string)
    requires read != "" && IsBlank(read)
    ensures var t := Process(Fresh(NONE), db, 0, read);
            t.r.status == FINISHED && t.r.response == LATE_ANSWER && !t.r.noReply && t.db == db
  {
    hide Execute, Prepare, Stoi;
    var t := Consume(Fresh(NONE), db, read[0]);
    EmptyCommandFails(db);
    assert t == EndOfWord(Fresh(NONE), db);
    assert Feed(t, read[1..]) == t;
  }

  lemma EmptyCommandFails(db: Db)
    ensures EndOfWord(Fresh(NONE), db) == Turn(Fresh(NONE).(status := FINISHED, response := LATE_ANSWER), db, true)
  {
    hide Execute, Prepare, Stoi;
    assert CommandFromStr("") == NONE;
    assert "CLIENT_ERROR " + "unsupported command" + CRLF == LATE_ANSWER;
  }

  lemma LateReadRuns(c: Conn, items: Items, read: string, rest: seq<Event>)
    requires c.reading == 1 && c.writing == 0 && c.maxBytes == 0 && c.db == Some(items) && c.req == Fresh(NONE)
    requires IsBlank(read)
    ensures Run(c, [ReadDone(read)] + ((if |read| == 0 then [] else [WriteDone]) + rest)) ==
            Run(c.(sent := c.sent + (if |read| == 0 then "" else LATE_ANSWER)), rest)
  {
    hide Step, Run;
    LateReadFails(c, items, read);
    if read == "" {
      RunOne(c, ReadDone(read), rest);
      assert [] + rest == rest && c.sent + "" == c.sent;
    } else {
      RunOne(c, ReadDone(read), [WriteDone] + rest);
      RunOne(Step(c, ReadDone(read)), WriteDone, rest);
    }
  }

  lemma {:induction false} LateReadsRun(c: Conn, items: Items, pieces: seq<string>, silent: bool)
    requires c.reading == 1 && c.writing == 0 && c.maxBytes == 0 && c.db == Some(items) && c.req == Fresh(NONE)
    requires IsBlank(Joined(pieces))
    ensures Run(c, EventsOf(pieces, 0, silent)) == Some(c.(sent := c.sent + Times(LATE_ANSWER, LateReads(pieces, 0))))
    decreases |pieces|
  {
    if pieces == [] {
      assert c.sent + "" == c.sent;
    } else {
      hide Run, EventsOf, LateReads, Times, Joined;
      var read, more := pieces[0], pieces[1..];
      FirstIsLate(pieces, silent);
      LateReadRuns(c, items, read, EventsOf(more, 0, silent));
      var c' := c.(sent := c.sent + (if |read| == 0 then "" else LATE_ANSWER));
      LateReadsRun(c', items, more, silent);
      Associate(c.sent, if |read| == 0 then "" else LATE_ANSWER, Times(LATE_ANSWER, LateReads(more, 0)));
    }
  }

  lemma FirstIsLate(pieces: seq<string>, silent: bool)
    requires pieces != [] && IsBlank(Joined(pieces))
    ensures var read, more := pieces[0], pieces[1..];
            && IsBlank(read) && IsBlank(Joined(more))
            && EventsOf(pieces, 0, silent) ==
               [ReadDone(read)] + ((if |read| == 0 then [] else [WriteDone]) + EventsOf(more, 0, silent))
            && (if |read| == 0 then "" else LATE_ANSWER) + Times(LATE_ANSWER, LateReads(more, 0)) ==
               Times(LATE_ANSWER, LateReads(pieces, 0))
  {
    var read, more := pieces[0], pieces[1..];
    assert read == Joined(pieces)[..|read|] && Joined(more) == Joined(pieces)[|read|..];
  }

  lemma Associate(s: string, t: string, u: string)
    ensures s + (t + u) == (s + t) + u
  {
  }

  // ----- one request

  /** A read within a request: the request has taken in what came before. */
  ghost predicate HasRead(c: Conn, command: Command, items: Items, w: string) {
    && c.reading == 1 && c.writing == 0 && c.maxBytes == 0
    && c.db == Some(items)
    && Go(c.req, c.db) == Feed(Go(Fresh(command), Some(items)), w)
  }

  /** A read that does not reach the finishing byte. */
  lemma EarlyRead(c: Conn, command: Command, items: Items, q: ClientRequest, w: string, read: string, rest: string)
    requires WellFormed(q) && HasRead(c, command, items, w) && w + read + rest == Wire(q)
    requires |w + read| < Needed(q)
    ensures Step(c, ReadDone(read)) == c.(req := Step(c, ReadDone(read)).req)
    ensures HasRead(Step(c, ReadDone(read)), command, items, w + read)
  {
    var t0 := Go(Fresh(command), Some(items));
    FeedConcat(t0, w, read);
    var t := Process(c.req, c.db, 0, read);
    assert t == Feed(t0, w + read);
    OpenPrefix(command, items, q, w + read, rest);
  }

  lemma OpenPrefix(command: Command, items: Items, q: ClientRequest, w: string, rest: string)
    requires WellFormed(q) && w + rest == Wire(q) && |w| < Needed(q)
    ensures var t := Feed(Go(Fresh(command), Some(items)), w);
            t == Go(t.r, Some(items)) && t.r.status != FINISHED && t.r.status != QUITTING
  {
    hide Wire, Body;
    var t0 := Go(Fresh(command), Some(items));
    var t := Feed(t0, w);
    if t.stopped {
      StopsAfterBody(command, Some(items), q, w, rest);
    }
    FinishedMeansStopped(Fresh(command), Some(items), w);
    RequestIsServed(command, items, q);
    FeedConcat(t0, w, rest);
    QuittingStays(t, rest);
    StoreUnreadBefore(command, items, w);
  }

  lemma {:induction false} QuittingStays(t: Turn, s: string)
    ensures t.r.status == QUITTING ==> Feed(t, s).r.status == QUITTING
    decreases |s|
  {
    if s != "" && !t.stopped {
      QuittingStays(Consume(t.r, t.db, s[0]), s[1..]);
    }
  }

  lemma StoreUnreadBefore(command: Command, items: Items, w: string)
    ensures var t := Feed(Go(Fresh(command), Some(items)), w);
            t.r.status != FINISHED ==> t.db == Some(items)
  {
    if Feed(Go(Fresh(command), Some(items)), w).r.status != FINISHED {
      ConnectionRuns.FeedStore(Fresh(command), Some(items), Some(items), w);
    }
  }

  /** The read with the finishing byte. */
  lemma FinishingRead(c: Conn, command: Command, items: Items, q: ClientRequest, w: string, read: string, rest: string)
    requires WellFormed(q) && HasRead(c, command, items, w) && w + read + rest == Wire(q)
    requires |w| < Needed(q) <= |w + read|
    ensures IsBlank(rest)
    ensures var served := Served(q, items);
            var d := c.(req := Fresh(NONE), db := Some(served.items));
            if Silent(q) then Step(c, ReadDone(read)) == d
            else
              && Enabled(Step(c, ReadDone(read)), WriteDone)
              && Step(Step(c, ReadDone(read)), WriteDone) == d.(sent := c.sent + served.text)
  {
    var t0 := Go(Fresh(command), Some(items));
    FeedConcat(t0, w, read);
    var t := Process(c.req, c.db, 0, read);
    assert t == Feed(t0, w + read);
    EnoughIsServed(command, items, q, w + read, rest);
  }

  /** All the reads of one request, from the one that follows w on. */
  lemma {:induction false} RequestRuns(c: Conn, command: Command, items: Items, q: ClientRequest, w: string, pieces: seq<string>)
    requires WellFormed(q) && HasRead(c, command, items, w) && |w| < Needed(q) && w + Joined(pieces) == Wire(q)
    ensures var left, served := Needed(q) - |w|, Served(q, items);
            Run(c, EventsOf(pieces, left, Silent(q))) ==
            Some(c.(req := Fresh(NONE), db := Some(served.items),
                    sent := c.sent + ((if Silent(q) then "" else served.text) + Times(LATE_ANSWER, LateReads(pieces, left)))))
    decreases |pieces|
  {
    hide Run, Step, Wire, Body, HasRead, Served;
    BodyAndEnd(q);
    if pieces == [] {
      assert false;
    } else {
      var left, read, more := Needed(q) - |w|, pieces[0], pieces[1..];
      assert w + read + Joined(more) == Wire(q);
      if |read| < left {
        EarlyRead(c, command, items, q, w, read, Joined(more));
        EarlyIsEnabled(c, command, items, w, read);
        RunOne(c, ReadDone(read), EventsOf(more, left - |read|, Silent(q)));
        RequestRuns(Step(c, ReadDone(read)), command, items, q, w + read, more);
      } else {
        FinishedRuns(c, command, items, q, w, read, more);
      }
    }
  }

  lemma EarlyIsEnabled(c: Conn, command: Command, items: Items, w: string, read: string)
    requires HasRead(c, command, items, w)
    ensures Enabled(c, ReadDone(read))
  {
  }

  lemma FinishedRuns(c: Conn, command: Command, items: Items, q: ClientRequest, w: string, read: string, more: seq<string>)
    requires WellFormed(q) && HasRead(c, command, items, w) && w + read + Joined(more) == Wire(q)
    requires |w| < Needed(q) <= |w + read|
    ensures var served := Served(q, items);
            Run(c, [ReadDone(read)] + ((if Silent(q) then [] else [WriteDone]) + EventsOf(more, 0, Silent(q)))) ==
            Some(c.(req := Fresh(NONE), db := Some(served.items),
                    sent := c.sent + ((if Silent(q) then "" else served.text) + Times(LATE_ANSWER, LateReads(more, 0)))))
  {
    hide Run, Step, Wire, Body, Served;
    var rest := EventsOf(more, 0, Silent(q));
    var text := if Silent(q) then "" else Served(q, items).text;
    var d := c.(req := Fresh(NONE), db := Some(Served(q, items).items), sent := c.sent + text);
    EarlyIsEnabled(c, command, items, w, read);
    FinishingRead(c, command, items, q, w, read, Joined(more));
    if Silent(q) {
      RunOne(c, ReadDone(read), rest);
      assert [] + rest == rest && c.sent + "" == c.sent;
    } else {
      RunOne(c, ReadDone(read), [WriteDone] + rest);
      RunOne(Step(c, ReadDone(read)), WriteDone, rest);
    }
    LateReadsRun(d, Served(q, items).items, more, Silent(q));
    Associate(c.sent, text, Times(LATE_ANSWER, LateReads(more, 0)));
  }

  // ----- the whole session

  lemma {:induction false} SessionRuns(c: Conn, command: Command, items: Items, session: seq<Sent>)
    requires c.reading == 1 && c.writing == 0 && c.maxBytes == 0 && c.db == Some(items) && c.req == Fresh(command)
    requires forall i | 0 <= i < |session| :: ArrivesWhole(session[i])
    ensures Run(c, SessionEvents(session)) ==
            Some(c.(req := if session == [] then c.req else Fresh(NONE), db := Some(ItemsAfter(session, items)),
                    sent := c.sent + AnswersAndErrors(session, items)))
    decreases |session|
  {
    if session == [] {
      assert c.sent + "" == c.sent;
    } else {
      hide Run, Needed, Silent, Served, EventsOf, LateReads, Times, SessionEvents, AnswersAndErrors, ItemsAfter, ArrivesWhole;
      var s, more, served := session[0], session[1..], Served(session[0].request, items);
      var text := (if Silent(s.request) then "" else served.text) + Times(LATE_ANSWER, LateReads(s.pieces, Needed(s.request)));
      var d := c.(req := Fresh(NONE), db := Some(served.items), sent := c.sent + text);
      SessionStarts(session, items);
      OneRequestRuns(c, command, items, s);
      RunConcat(c, EventsOf(s.pieces, Needed(s.request), Silent(s.request)), SessionEvents(more));
      SessionRuns(d, NONE, served.items, more);
      Associate(c.sent, text, AnswersAndErrors(more, served.items));
    }
  }

  lemma OneRequestRuns(c: Conn, command: Command, items: Items, s: Sent)
    requires c.reading == 1 && c.writing == 0 && c.maxBytes == 0 && c.db == Some(items) && c.req == Fresh(command)
    requires ArrivesWhole(s)
    ensures var served := Served(s.request, items);
            var text := (if Silent(s.request) then "" else served.text) + Times(LATE_ANSWER, LateReads(s.pieces, Needed(s.request)));
            Run(c, EventsOf(s.pieces, Needed(s.request), Silent(s.request))) ==
            Some(c.(req := Fresh(NONE), db := Some(served.items), sent := c.sent + text))
  {
    hide Run, Wire, Body, Served, EventsOf, LateReads, Times, Joined;
    assert "" + Joined(s.pieces) == Joined(s.pieces);
    RequestRuns(c, command, items, s.request, "", s.pieces);
  }

  lemma SessionStarts(session: seq<Sent>, items: Items)
    requires session != []
    ensures var s, served, more := session[0], Served(session[0].request, items), session[1..];
            && SessionEvents(session) == EventsOf(s.pieces, Needed(s.request), Silent(s.request)) + SessionEvents(more)
            && ItemsAfter(session, items) == ItemsAfter(more, served.items)
            && AnswersAndErrors(session, items) ==
               ((if Silent(s.request) then "" else served.text) + Times(LATE_ANSWER, LateReads(s.pieces, Needed(s.request))))
               + AnswersAndErrors(more, served.items)
  {
  }

  /** Any session of well-formed requests, each cut into reads in any way: the
      connection sends a sequential map's answers in order and one error line for
      every read that brings only what is left of a request already finished; the
      store ends as the map does. */
  lemma SessionIsAnswered(command: Command, items: Items, session: seq<Sent>)
    requires forall i | 0 <= i < |session| :: ArrivesWhole(session[i])
    ensures var r := Run(Started(command, Some(items), 0), SessionEvents(session));
            && r.Some? && r.value.open && r.value.reading == 1 && r.value.writing == 0
            && r.value.sent == AnswersAndErrors(session, items)
            && r.value.db == Some(ItemsAfter(session, items))
  {
    hide Run;
    SessionRuns(Started(command, Some(items), 0), command, items, session);
    assert "" + AnswersAndErrors(session, items) == AnswersAndErrors(session, items);
  }

  function TotalLate(session: seq<Sent>): nat {
    if session == [] then 0
    else LateReads(session[0].pieces, Needed(session[0].request)) + TotalLate(session[1..])
  }

  lemma {:induction false} ErrorsAddLength(session: seq<Sent>, items: Items)
    ensures |AnswersAndErrors(session, items)| >= |Answers(session, items)| + TotalLate(session)
    ensures TotalLate(session) == 0 ==> AnswersAndErrors(session, items) == Answers(session, items)
    decreases |session|
  {
    if session != [] {
      hide Served, Body, Times;
      var served := Served(session[0].request, items);
      var late := LateReads(session[0].pieces, Needed(session[0].request));
      ErrorsAddLength(session[1..], served.items);
      TimesLength(late);
      var text := if Silent(session[0].request) then "" else served.text;
      assert AnswersAndErrors(session, items) == text + Times(LATE_ANSWER, late) + AnswersAndErrors(session[1..], served.items);
      assert text + "" == text;
    }
  }

  lemma {:induction false} TimesLength(n: nat)
    ensures |Times(LATE_ANSWER, n)| >= n
    ensures n == 0 ==> Times(LATE_ANSWER, n) == ""
  {
    if n > 0 {
      TimesLength(n - 1);
    }
  }

  /** The session gets exactly the map's answers if and only if no request's last
      bytes come in a read of their own. */
  lemma SessionIsExactIff(command: Command, items: Items, session: seq<Sent>)
    requires forall i | 0 <= i < |session| :: ArrivesWhole(session[i])
    ensures Run(Started(command, Some(items), 0), SessionEvents(session)).Some?
    ensures Run(Started(command, Some(items), 0), SessionEvents(session)).value.sent == Answers(session, items)
            <==> forall i | 0 <= i < |session| :: LateReads(session[i].pieces, Needed(session[i].request)) == 0
  {
    hide Run, AnswersAndErrors, Answers, Body, LateReads, ArrivesWhole, SessionEvents, TotalLate;
    SessionIsAnswered(command, items, session);
    ErrorsAddLength(session, items);
    NoneLate(session);
  }

  lemma {:induction false} NoneLate(session: seq<Sent>)
    ensures TotalLate(session) == 0
            <==> forall i | 0 <= i < |session| :: LateReads(session[i].pieces, Needed(session[i].request)) == 0
    decreases |session|
  {
    if session != [] {
      hide Body, LateReads;
      NoneLate(session[1..]);
      assert forall i | 1 <= i < |session| :: session[i] == session[1..][i - 1];
    }
  }

  // ----- what follows a request

  /** One operation at a time, and no read into a finished request. */
  predicate ReadsUnfinished(c: Conn) {
    c.reading + c.writing <= 1 && (c.reading > 0 ==> c.req.status != FINISHED)
  }

  lemma {:induction false} RunReadsUnfinished(c: Conn, events: seq<Event>)
    requires ReadsUnfinished(c) && Run(c, events).Some?
    ensures ReadsUnfinished(Run(c, events).value)
  {
    hide Process;
    if events != [] {
      RunReadsUnfinished(c, events[..|events| - 1]);
    }
  }

  /** Event i is a read that finishes a request, and stays within the size limit with
      `lost` behind it. */
  predicate FinishesAt(c: Conn, events: seq<Event>, i: nat, lost: string) {
    && i < |events| && events[i].ReadDone?
    && match Run(c, events[..i])
       case None => false
       case Some(d) =>
         && Process(d.req, d.db, d.maxBytes, events[i].chunk).r.status == FINISHED
         && !TooLong(d.req, d.maxBytes, events[i].chunk + lost)
  }

  /** The same events with more bytes at the end of each read. */
  function WithMore(events: seq<Event>, lost: seq<string>): (more: seq<Event>)
    requires |lost| == |events|
    ensures |more| == |events|
  {
    if events == [] then []
    else
      var n := |events| - 1;
      WithMore(events[..n], lost[..n]) +
      [if events[n].ReadDone? then ReadDone(events[n].chunk + lost[n]) else events[n]]
  }

  /** Whatever follows, in the same read, the byte that finishes a request is lost: in
      every run, the bytes that come in such a place, further requests included, change
      nothing at all. */
  lemma {:induction false} BytesInTheSameReadAreLost(c: Conn, events: seq<Event>, lost: seq<string>)
    requires ReadsUnfinished(c) && Run(c, events).Some? && |lost| == |events|
    requires forall i | 0 <= i < |events| :: lost[i] == "" || FinishesAt(c, events, i, lost[i])
    ensures Run(c, WithMore(events, lost)) == Run(c, events)
  {
    hide Step;
    if events != [] {
      var n := |events| - 1;
      var front, e, more := events[..n], events[n], lost[n];
      forall i | 0 <= i < n
        ensures lost[..n][i] == "" || FinishesAt(c, front, i, lost[..n][i])
      {
        assert front[..i] == events[..i];
      }
      BytesInTheSameReadAreLost(c, front, lost[..n]);
      RunReadsUnfinished(c, front);
      assert WithMore(events, lost)[..n] == WithMore(front, lost[..n]);
      if e.ReadDone? {
        if more == "" {
          assert e.chunk + more == e.chunk;
        } else {
          assert FinishesAt(c, events, n, more);
          MoreIsLost(Run(c, front).value, e.chunk, more);
        }
      }
    }
  }

  lemma MoreIsLost(d: Conn, chunk: string, lost: string)
    requires d.req.status != FINISHED && d.reading > 0
    requires Process(d.req, d.db, d.maxBytes, chunk).r.status == FINISHED && !TooLong(d.req, d.maxBytes, chunk + lost)
    ensures Step(d, ReadDone(chunk + lost)) == Step(d, ReadDone(chunk))
  {
    hide Feed;
    var t := Go(d.req, d.db);
    FinishedMeansStopped(d.req, d.db, chunk);
    assert (chunk + lost)[..|chunk|] == chunk;
    NothingAfterStop(t, chunk, chunk + lost);
  }

  /** So a session in which reads that finish a request bring anything more is answered
      as if they did not. */
  lemma SessionWithLosses(command: Command, items: Items, session: seq<Sent>, lost: seq<string>)
    requires forall i | 0 <= i < |session| :: ArrivesWhole(session[i])
    requires var c, events := Started(command, Some(items), 0), SessionEvents(session);
             |lost| == |events| && forall i | 0 <= i < |events| :: lost[i] == "" || FinishesAt(c, events, i, lost[i])
    ensures var r := Run(Started(command, Some(items), 0), WithMore(SessionEvents(session), lost));
            && r.Some? && r.value.sent == AnswersAndErrors(session, items)
            && r.value.db == Some(ItemsAfter(session, items))
  {
    hide Run, FinishesAt;
    SessionIsAnswered(command, items, session);
    BytesInTheSameReadAreLost(Started(command, Some(items), 0), SessionEvents(session), lost);
  }

  /** In particular a request that comes behind another in one read gets no answer. */
  lemma RequestBehindIsLost(command: Command, items: Items, q: ClientRequest, rest: string)
    requires WellFormed(q)
    ensures var served := Served(q, items);
            var events := [ReadDone(Wire(q) + rest)] + (if Silent(q) then [] else [WriteDone]);
            Run(Started(command, Some(items), 0), events) ==
            Some(Started(NONE, Some(served.items), 0).(sent := if Silent(q) then "" else served.text))
  {
    hide Run, Wire, Served, Feed;
    var c, read := Started(command, Some(items), 0), Wire(q) + rest;
    var t0 := Go(Fresh(command), Some(items));
    RequestIsServed(command, items, q);
    FinishedMeansStopped(Fresh(command), Some(items), Wire(q));
    assert read[..|Wire(q)|] == Wire(q);
    NothingAfterStop(t0, Wire(q), read);
    assert Process(c.req, c.db, 0, read) == Feed(t0, read);
    RunOne(c, ReadDone(read), if Silent(q) then [] else [WriteDone]);
    if !Silent(q) {
      var d := Step(c, ReadDone(read));
      RunOne(d, WriteDone, []);
      RunNothing(Step(d, WriteDone));
      assert [WriteDone] + [] == [WriteDone];
      assert "" + Served(q, items).text == Served(q, items).text;
    } else {
      RunNothing(Step(c, ReadDone(read)));
    }
  }

  lemma RunNothing(c: Conn)
    ensures Run(c, []) == Some(c)
  {
  }

  /** An instance: the last line feed of a `set` in a read of its own is answered as a
      request of its own. */
  lemma LineFeedInItsOwnRead(command: Command)
    ensures var events := [ReadDone("set k 0 0 1\r\nx\r"), WriteDone] + [ReadDone("\n"), WriteDone];
            var r := Run(Started(command, Some(map[]), 0), events);
            && r.Some? && r.value.db == Some(map["k" := "x"])
            && r.value.sent == "STORED\r\nCLIENT_ERROR unsupported command\r\n"
  {
    hide Run, Body, Wire, Served, EventsOf, LateReads, Joined, Times;
    var q := Storage(false, "k", 0, 0, "x", false);
    var first, last := "set k 0 0 1\r\nx\r", "\n";
    SmallWire(q);
    BodyAndEnd(q);
    TwoReads(first, last);
    assert "" + Joined([first, last]) == Wire(q);
    RequestRuns(Started(command, Some(map[]), 0), command, map[], q, "", [first, last]);
    SmallAnswer(q);
  }

  lemma TwoReads(first: string, last: string)
    requires first != "" && last != ""
    ensures Joined([first, last]) == first + last
    ensures EventsOf([first, last], |first|, false) ==
            [ReadDone(first), WriteDone] + [ReadDone(last), WriteDone]
    ensures Times(LATE_ANSWER, LateReads([first, last], |first|)) == LATE_ANSWER
  {
    hide Times, EventsOf, LateReads;
    var pieces := [first, last];
    assert pieces[1..] == [last];
    OneLateRead(last);
    TimesOnce(LATE_ANSWER);
    UnfoldEvents(pieces, |first|);
  }

  lemma UnfoldEvents(pieces: seq<string>, left: nat)
    requires pieces != [] && |pieces[0]| == left > 0
    ensures EventsOf(pieces, left, false) == [ReadDone(pieces[0]), WriteDone] + EventsOf(pieces[1..], 0, false)
    ensures LateReads(pieces, left) == LateReads(pieces[1..], 0)
  {
  }

  lemma OneLateRead(last: string)
    requires last != ""
    ensures Joined([last]) == last && LateReads([last], 0) == 1
    ensures EventsOf([last], 0, false) == [ReadDone(last), WriteDone]
  {
    hide Times;
    assert [last][1..] == [];
    assert Joined([]) == "" && EventsOf([], 0, false) == [] && LateReads([], 0) == 0;
  }

  lemma TimesOnce(s: string)
    ensures Times(s, 1) == s
  {
    assert Times(s, 0) == "";
  }

  lemma SmallAnswer(q: ClientRequest)
    requires q == Storage(false, "k", 0, 0, "x", false)
    ensures Served(q, map[]) == Reply("STORED\r\n", map["k" := "x"])
    ensures "" + ("STORED\r\n" + LATE_ANSWER) == "STORED\r\nCLIENT_ERROR unsupported command\r\n"
  {
  }

  lemma SmallWire(q: ClientRequest)
    requires q == Storage(false, "k", 0, 0, "x", false)
    ensures WellFormed(q) && Wire(q) == "set k 0 0 1\r\nx\r" + "\n" && |Wire(q)| == 16
  {
    assert SignedDecimal(0) == "0" && Decimal(1) == "1";
    var ws := ["set", "k", "0", "0", "1"];
    assert StorageLine("set", "k", 0, 0, 1, false) == ws;
    assert Join(ws[4..]) == "1" && Join(ws[3..]) == "0 1" && Join(ws[2..]) == "0 0 1" by {
      assert ws[4..] == ["1"] && ws[3..] == ["0"] + ws[4..] && ws[2..] == ["0"] + ws[3..];
      assert ws[3..][1..] == ws[4..] && ws[2..][1..] == ws[3..];
    }
    assert ws[1..][1..] == ws[2..];
    assert Join(ws[1..]) == "k 0 0 1";
    assert Join(ws) == "set k 0 0 1";
  }
}
