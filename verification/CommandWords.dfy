/** The first word of a request, the words that may be missing behind it, and the
    bytes that do not fit: ping, quit and the errors of the parser. */
module CommandWords {
  import opened Chunking
  import opened ClientRequests
  import opened ConnectionSpec
  import opened Options
  import opened RequestSpec
  import opened WireFormat

  /** The six characters that end a word. */
  predicate Separates(e: char) {
    e in [' ', '\t', '\n', '\r', '\U{0B}', '\U{0C}']
  }

  ghost predicate Answered(t: Turn, text: string, db: Db) {
    t.stopped && t.r.status == FINISHED && t.r.response == text && t.db == db
  }

  lemma SeparatorsAreWhite(e: char)
    ensures Separates(e) <==> IsWhiteSpace(e)
  {
  }

  lemma FirstWord(c: Command, db: Db, w: string, e: char, rest: string)
    requires IsWord(w) && Separates(e)
    ensures Feed(Go(Fresh(c), db), w + [e] + rest) == Feed(EndOfWord(Fresh(c).(buffer := w), db), rest)
  {
    WordAndSpace(Fresh(c), db, w, e, rest);
    assert "" + w == w;
  }

  lemma StoppedStays(t: Turn, rest: string)
    requires t.stopped
    ensures Feed(t, rest) == t
  {
  }

  /** ping is answered at the first byte that ends it, whatever the store, and not
      before. */
  lemma PingIsAnswered(c: Command, db: Db, e: char, rest: string)
    ensures Separates(e) ==> Answered(Feed(Go(Fresh(c), db), "ping" + [e] + rest), "PONG\r\n", db)
    ensures !Separates(e) ==> Feed(Go(Fresh(c), db), "ping" + [e]) == Go(Fresh(c).(buffer := "ping" + [e]), db)
  {
    if Separates(e) {
      FirstWord(c, db, "ping", e, rest);
      StoppedStays(EndOfWord(Fresh(c).(buffer := "ping"), db), rest);
    } else {
      WordIsBuffered(Fresh(c), db, "ping" + [e]);
      assert "" + ("ping" + [e]) == "ping" + [e];
    }
  }

  /** A first word that is no command is refused. */
  lemma UnknownCommandIsRefused(c: Command, db: Db, w: string, e: char, rest: string)
    requires IsWord(w) && Separates(e)
    requires w !in ["set", "add", "get", "gets", "delete", "quit", "ping"]
    ensures Answered(Feed(Go(Fresh(c), db), w + [e] + rest), "CLIENT_ERROR unsupported command\r\n", db)
  {
    hide Feed, Consume, Execute, Stoi, IsWhiteSpace;
    FirstWord(c, db, w, e, rest);
    assert "CLIENT_ERROR " + "unsupported command" + CRLF == "CLIENT_ERROR unsupported command\r\n";
    StoppedStays(EndOfWord(Fresh(c).(buffer := w), db), rest);
  }

  /** A key that is missing is refused: two separators in a row where it should be. */
  lemma MissingKeyIsRefused(c: Command, db: Db, name: string, e: char, e': char, rest: string)
    requires name in ["set", "add", "delete"] && Separates(e) && Separates(e')
    ensures Answered(Feed(Go(Fresh(c), db), name + [e] + ([e'] + rest)), "CLIENT_ERROR invalid key\r\n", db)
  {
    hide Feed, EndOfWord, Fresh, Separates;
    NameIsWord(name);
    FirstWord(c, db, name, e, [e'] + rest);
    KeyComesNext(c, db, name);
    var r := EndOfWord(Fresh(c).(buffer := name), db).r;
    SecondWord(r, db, e', rest);
    EmptyKeyFails(r, db);
    StoppedStays(EndOfWord(r, db), rest);
  }

  lemma KeyComesNext(c: Command, db: Db, name: string)
    requires name in ["set", "add", "delete"]
    ensures var t := EndOfWord(Fresh(c).(buffer := name), db);
            t == Go(t.r, db) && t.r.buffer == "" && t.r.status in [DELETE_KEY, STORAGE_KEY]
  {
    hide Prepare, Stoi;
  }

  lemma EmptyKeyFails(r: Req, db: Db)
    requires r.buffer == "" && r.status in [DELETE_KEY, STORAGE_KEY]
    ensures Answered(EndOfWord(r, db), "CLIENT_ERROR invalid key\r\n", db)
  {
    hide Prepare, Stoi;
    assert "CLIENT_ERROR " + "invalid key" + CRLF == "CLIENT_ERROR invalid key\r\n";
  }

  lemma NameIsWord(name: string)
    requires name in ["set", "add", "get", "gets", "delete", "quit", "ping"]
    ensures IsWord(name)
  {
  }

  lemma SecondWord(r: Req, db: Db, e: char, rest: string)
    requires r.status != DATA && Separates(e)
    ensures Feed(Go(r, db), [e] + rest) == Feed(EndOfWord(r, db), rest)
  {
    assert ([e] + rest)[1..] == rest && ([e] + rest)[0] == e;
  }

  /** So is a retrieval without keys, but only by a server with a store. */
  lemma NoKeysIsAnError(c: Command, db: Db, name: string, e: char, e': char, rest: string)
    requires name in ["get", "gets"] && Separates(e) && Separates(e')
    ensures Answered(Feed(Go(Fresh(c), db), name + [e] + ([e'] + rest)),
                     if db.Some? then "ERROR No key was found in request\r\n"
                     else "ERROR The server isn't configured with a database\r\n", db)
  {
    hide Feed, Consume, Execute, Stoi, IsWhiteSpace;
    NameIsWord(name);
    FirstWord(c, db, name, e, [e'] + rest);
    var r := EndOfWord(Fresh(c).(buffer := name), db).r;
    SecondWord(r, db, e', rest);
    StoppedStays(EndOfWord(r, db), rest);
  }

  /** Without a store every well-formed request gets the same error. */
  lemma NoStoreIsAnError(c: Command, q: ClientRequest)
    requires WellFormed(q)
    ensures var t := Feed(Go(Fresh(c), None), Wire(q));
            Answered(t, "ERROR The server isn't configured with a database\r\n", None) && t.r.noReply == Silent(q)
  {
    hide Feed, Join;
    match q
    case Storage(add, key, flags, expTime, data, noReply) =>
      StorageIsParsed(c, None, StorageName(add), key, flags, expTime, data, noReply);
    case Retrieval(gets, keys) =>
      GetIsParsed(c, None, RetrievalName(gets), keys);
      LineEnds(c, [RetrievalName(gets)] + keys);
    case Deletion(key, noReply) =>
      DeleteIsParsed(c, None, key, noReply);
      LineEnds(c, DeleteLine(key, noReply));
  }

  /** The line feed behind a line that left the request waiting for it. */
  lemma LineEnds(c: Command, ws: seq<string>)
    requires ws != [] && WordsRun(Go(Fresh(c), None), ws)
    requires var t := FoldWords(Go(Fresh(c), None), ws);
             t == Go(t.r, None) && t.r.buffer == "" && t.r.remaining == 0 && t.r.status in [NOREP, RETRIEVAL_KEY] &&
             t.r.command != PING
    ensures var t := FoldWords(Go(Fresh(c), None), ws);
            Feed(Go(Fresh(c), None), Join(ws) + CRLF) == Prepare(t.r, None)
  {
    hide Feed, Consume, Join, FoldWords, WordsRun, IsWhiteSpace;
    var t := FoldWords(Go(Fresh(c), None), ws);
    assert Separates('\r') && IsWhiteSpace('\r') by {
      SeparatorsAreWhite('\r');
    }
    LineIsFold(Go(Fresh(c), None), ws, '\r', "\n");
    assert Join(ws) + ['\r'] + "\n" == Join(ws) + CRLF;
    assert "\n" == ['\n'] + "";
    SecondWord(t.r, None, '\n', "");
    StoppedStays(Prepare(t.r, None), "");
  }

  /** A call that brings the input to the size limit or beyond is refused unread; any
      other is read as if there were no limit. */
  lemma SizeLimitHolds(r: Req, db: Db, maxBytes: nat, data: string)
    ensures var t := Process(r, db, maxBytes, data);
            if maxBytes > 0 && |r.buffer| + |data| >= maxBytes then
              && Answered(t, "CLIENT_ERROR request size exceeded max bytes\r\n", db)
              && t.r == r.(status := FINISHED, response := t.r.response)
            else t == Process(r, db, 0, data)
  {
    hide Feed;
    assert "CLIENT_ERROR " + "request size exceeded max bytes" + CRLF
           == "CLIENT_ERROR request size exceeded max bytes\r\n";
  }

  /** The data ends at its length: whatever byte comes next finishes the request. */
  lemma AnyByteEndsTheData(c: Command, items: Items, key: string, flags: int, expTime: int, data: string,
                           noReply: bool, x: char)
    requires IsKey(key) && IsInt(flags) && IsInt(expTime) && 0 < |data| <= INT_MAX
    ensures var line := Join(StorageLine("set", key, flags, expTime, |data|, noReply)) + CRLF;
            Answered(Feed(Go(Fresh(c), Some(items)), line + data + [x]), "STORED\r\n", Some(items[key := data]))
  {
    hide Join, Feed, Prepare;
    var db := Some(items);
    var line := Join(StorageLine("set", key, flags, expTime, |data|, noReply));
    StorageBodyIsOpen(c, db, "set", key, flags, expTime, data, noReply);
    LineAndData(line, data, x);
    FeedConcat(Go(Fresh(c), db), line + ['\r'] + ("\n" + data), [x]);
    OneByte(Stored("set", key, flags, expTime, data, noReply), db, x);
    SetIsAnswered(Stored("set", key, flags, expTime, data, noReply), items, key, data);
  }

  lemma LineAndData(line: string, data: string, x: char)
    ensures line + CRLF + data + [x] == (line + ['\r'] + ("\n" + data)) + [x]
  {
  }

  lemma SetIsAnswered(r: Req, items: Items, key: string, value: string)
    requires r.command == SET && r.keys == [key] && r.buffer == value
    ensures Answered(Prepare(r, Some(items)), "STORED\r\n", Some(items[key := value]))
  {
  }

  lemma OneByte(r: Req, db: Db, x: char)
    requires r.status == DATA && r.remaining == 0
    ensures Feed(Go(r, db), [x]) == Prepare(r, db)
  {
    assert Feed(Go(r, db), [x]) == Feed(Consume(r, db, x), "");
  }

  /** What stands between the length and the end of the line, if it is not noreply,
      becomes the beginning of the value, and the line feed behind it the first byte of
      the data: "set k 0 0 1 foo" stores "foo\n". With w empty, a single space there
      shifts the data by one. */
  lemma StrayWordIsStored(c: Command, items: Items, key: string, flags: int, expTime: int, w: string, block: string, x: char)
    requires IsKey(key) && IsInt(flags) && IsInt(expTime) && IsWord(w) && w != "noreply"
    requires 0 < |block| <= INT_MAX
    ensures var line := Join(StorageLine("set", key, flags, expTime, |block|, false) + [w]) + ['\r'];
            Answered(Feed(Go(Fresh(c), Some(items)), line + block + [x]), "STORED\r\n", Some(items[key := w + block]))
  {
    hide Join, FoldWords, WordsRun, Feed, Prepare, StorageLine;
    var db, ws := Some(items), StorageLine("set", key, flags, expTime, |block|, false);
    StorageHeader(c, db, "set", key, flags, expTime, |block|, false);
    var t := Go(Fresh(c), db);
    var r := Req(NOREP, "", "", CommandFromStr("set"), [key], flags, expTime, |block|, false);
    WordAfter(t, ws, w, r, db);
    StrayWord(r, db, w);
    LineIsFold(t, ws + [w], '\r', block + [x]);
    Grouping(Join(ws + [w]), block, x);
    BlockIsTaken(r.(status := DATA, buffer := w), db, w, block, x);
    SetIsAnswered(r.(status := DATA, buffer := w + block, remaining := 0), items, key, w + block);
  }

  lemma StrayWord(r: Req, db: Db, w: string)
    requires r.status == NOREP && r.buffer == "" && r.remaining > 0 && w != "noreply"
    ensures EndOfWord(r.(buffer := r.buffer + w), db) == Go(r.(status := DATA, buffer := w), db)
  {
    assert "" + w == w;
  }

  lemma Grouping(line: string, block: string, x: char)
    ensures line + ['\r'] + (block + [x]) == line + ['\r'] + block + [x]
  {
  }

  lemma BlockIsTaken(r: Req, db: Db, w: string, block: string, x: char)
    requires r.status == DATA && r.buffer == w && r.remaining == |block|
    ensures Feed(Go(r, db), block + [x]) == Prepare(r.(buffer := w + block, remaining := 0), db)
  {
    hide Feed, Prepare;
    FeedConcat(Go(r, db), block, [x]);
    DataBlock(r, db, block);
    OneByte(r.(buffer := w + block, remaining := 0), db, x);
  }

  lemma {:induction false} WordAfter(t: Turn, ws: seq<string>, w: string, r: Req, db: Db)
    requires WordsRun(t, ws) && FoldWords(t, ws) == Go(r, db) && r.status != DATA && IsWord(w)
    ensures WordsRun(t, ws + [w]) && FoldWords(t, ws + [w]) == EndOfWord(r.(buffer := r.buffer + w), db)
    decreases |ws|
  {
    if ws == [] {
      assert ws + [w] == [w] && [w][1..] == [];
    } else {
      assert (ws + [w])[1..] == ws[1..] + [w];
      WordAfter(EndOfWord(t.r.(buffer := t.r.buffer + ws[0]), t.db), ws[1..], w, r, db);
    }
  }

  // ----- quit

  /** Past the first word, only quit leads to QUITTING, and nothing leads out of it. */
  predicate PastQuit(t: Turn, quits: bool) {
    if quits then t.r.status == QUITTING && !t.stopped else t.r.status !in [COMMAND, QUITTING]
  }

  lemma ConsumeKeepsPast(r: Req, db: Db, x: char, quits: bool)
    requires PastQuit(Go(r, db), quits)
    ensures PastQuit(Consume(r, db, x), quits)
    ensures quits ==> Consume(r, db, x).db == db && Consume(r, db, x).r.response == r.response
  {
    hide Stoi, Execute, CommandFromStr;
  }

  lemma {:induction false} FeedKeepsPast(t: Turn, s: string, quits: bool)
    requires PastQuit(t, quits)
    ensures PastQuit(Feed(t, s), quits)
    ensures quits ==> Feed(t, s).db == t.db && Feed(t, s).r.response == t.r.response
    decreases |s|
  {
    hide Consume;
    if s != "" && !t.stopped {
      ConsumeKeepsPast(t.r, t.db, s[0], quits);
      FeedKeepsPast(Consume(t.r, t.db, s[0]), s[1..], quits);
    }
  }

  predicate StartsWithQuit(s: string) {
    |s| >= 5 && s[..4] == "quit" && Separates(s[4])
  }

  /** A request is quitting if and only if its first word is quit, and then it never
      answers and never touches the store. */
  lemma QuittingIff(c: Command, db: Db, s: string)
    ensures var t := Feed(Go(Fresh(c), db), s);
            && (t.r.status == QUITTING <==> StartsWithQuit(s))
            && (StartsWithQuit(s) ==> !t.stopped && t.r.response == "" && t.db == db)
  {
    var k := WordLength(s);
    if k == |s| {
      WordIsBuffered(Fresh(c), db, s);
    } else {
      var w, e, rest := s[..k], s[k], s[k + 1..];
      assert s == w + [e] + rest;
      FirstWord(c, db, w, e, rest);
      CommandPastQuit(c, db, w);
      FeedKeepsPast(EndOfWord(Fresh(c).(buffer := w), db), rest, w == "quit");
      QuitIsTheWord(s, k);
    }
  }

  function WordLength(s: string): (k: nat)
    ensures k <= |s| && IsWord(s[..k]) && (k < |s| ==> Separates(s[k]))
  {
    if s == "" || Separates(s[0]) then 0 else 1 + WordLength(s[1..])
  }

  lemma QuitIsTheWord(s: string, k: nat)
    requires k < |s| && IsWord(s[..k]) && Separates(s[k])
    ensures StartsWithQuit(s) <==> s[..k] == "quit"
  {
    if StartsWithQuit(s) {
      assert forall i | 0 <= i < 4 :: s[i] == s[..4][i];
      assert forall i | 0 <= i < k :: !IsWhiteSpace(s[..k][i]) && s[..k][i] == s[i];
      assert k == 4;
    }
  }

  lemma CommandPastQuit(c: Command, db: Db, w: string)
    ensures PastQuit(EndOfWord(Fresh(c).(buffer := w), db), w == "quit")
    ensures w == "quit" ==> EndOfWord(Fresh(c).(buffer := w), db).db == db
                            && EndOfWord(Fresh(c).(buffer := w), db).r.response == ""
  {
  }

  /** A connection that has read w of a request closes itself on its next read if and
      only if the request is then seen to be quit; it sends nothing and leaves the
      store alone. */
  lemma ReadClosesIff(d: Conn, c: Command, w: string, chunk: string)
    requires d.open && d.reading > 0 && d.maxBytes == 0
    requires Go(d.req, d.db) == Feed(Go(Fresh(c), d.db), w) && !StartsWithQuit(w)
    ensures var d' := Step(d, ReadDone(chunk));
            && (!d'.open <==> StartsWithQuit(w + chunk))
            && (!d'.open ==> d'.sent == d.sent && d'.db == d.db && d'.reading == d.reading - 1 && d'.writing == d.writing)
  {
    hide Feed;
    FeedConcat(Go(Fresh(c), d.db), w, chunk);
    QuittingIff(c, d.db, w + chunk);
  }

  /** Nothing but that, a timer, or an operation that failed without having been aborted
      closes a connection, and nothing opens it again. */
  lemma StepClosesIff(d: Conn, e: Event)
    requires Enabled(d, e)
    ensures Step(d, e).open <==>
            && d.open && !e.TimerFired? && e != ReadFailed(false) && !(e.WriteFailed? && !e.aborted)
            && (e.ReadDone? ==> Process(d.req, d.db, d.maxBytes, e.chunk).r.status != QUITTING)
  {
    hide Process;
  }
}
