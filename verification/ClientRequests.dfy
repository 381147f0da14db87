/** The requests of a well-behaved client, what a sequential map answers to them, and
    why the cut into reads does not matter to the parser. */
module ClientRequests {
  import opened Options
  import opened RequestSpec
  import opened Chunking
  import opened WireFormat

  datatype ClientRequest =
    | Storage(add: bool, key: string, flags: int, expTime: int, data: string, noReply: bool)
    | Retrieval(gets: bool, keys: seq<string>)
    | Deletion(key: string, noReply: bool)

  predicate WellFormed(q: ClientRequest) {
    match q
    case Storage(_, key, flags, expTime, data, _) => IsKey(key) && IsInt(flags) && IsInt(expTime) && |data| <= INT_MAX
    case Retrieval(_, keys) => keys != [] && forall i | 0 <= i < |keys| :: IsKey(keys[i])
    case Deletion(key, _) => IsKey(key)
  }

  function StorageName(add: bool): string {
    if add then "add" else "set"
  }

  function RetrievalName(gets: bool): string {
    if gets then "gets" else "get"
  }

  function Wire(q: ClientRequest): string {
    match q
    case Storage(add, key, flags, expTime, data, noReply) =>
      StorageWire(StorageName(add), key, flags, expTime, data, noReply)
    case Retrieval(gets, keys) => Join([RetrievalName(gets)] + keys) + CRLF
    case Deletion(key, noReply) => Join(DeleteLine(key, noReply)) + CRLF
  }

  function Silent(q: ClientRequest): bool {
    match q
    case Storage(_, _, _, _, _, noReply) => noReply
    case Retrieval(_, _) => false
    case Deletion(_, noReply) => noReply
  }

  /** What a map answers, and what it is afterwards. */
  function Served(q: ClientRequest, items: Items): Reply {
    match q
    case Storage(add, key, _, _, data, _) =>
      if add && key in items then Reply("NOT_STORED\r\n", items) else Reply("STORED\r\n", items[key := data])
    case Retrieval(_, keys) => Reply(Answer(keys, items), items)
    case Deletion(key, _) => Reply(if key in items then "DELETED\r\n" else "NOT_FOUND\r\n", items - {key})
  }

  /** In one piece, a request is answered as the map answers it. */
  lemma RequestIsServed(c: Command, items: Items, q: ClientRequest)
    requires WellFormed(q)
    ensures var t := Feed(Go(Fresh(c), Some(items)), Wire(q));
            && t.r.status == FINISHED && t.r.noReply == Silent(q)
            && t.r.response == Served(q, items).text
            && t.db == Some(Served(q, items).items)
  {
    hide Feed, Answer, Join;
    match q
    case Storage(add, key, flags, expTime, data, noReply) =>
      if add {
        AddStoresIfMissing(c, items, key, flags, expTime, data, noReply);
      } else {
        SetStoresData(c, items, key, flags, expTime, data, noReply);
      }
    case Retrieval(gets, keys) => GetAnswersWithHits(c, items, RetrievalName(gets), keys);
    case Deletion(key, noReply) => DeleteRemovesKey(c, items, key, noReply);
  }

  // ----- where a request is finished

  /** The bytes before the one that finishes the request. */
  function Body(q: ClientRequest): string {
    match q
    case Storage(add, key, flags, expTime, data, noReply) =>
      Join(StorageLine(StorageName(add), key, flags, expTime, |data|, noReply)) + ['\r'] +
      (if data == "" then "" else "\n" + data)
    case Retrieval(gets, keys) => Join([RetrievalName(gets)] + keys) + ['\r']
    case Deletion(key, noReply) => Join(DeleteLine(key, noReply)) + ['\r']
  }

  /** That byte and what is left of the request after it: line ends only. */
  function End(q: ClientRequest): (s: string)
    ensures |s| >= 1 && IsBlank(s)
  {
    match q
    case Storage(_, _, _, _, data, _) => if data == "" then "\n\r\n" else "\r\n"
    case _ => "\n"
  }

  lemma BodyAndEnd(q: ClientRequest)
    ensures Wire(q) == Body(q) + End(q)
  {
    match q
    case Storage(add, key, flags, expTime, data, noReply) =>
      WireInParts(Join(StorageLine(StorageName(add), key, flags, expTime, |data|, noReply)), data);
    case _ =>
  }

  /** The body alone does not finish the request. */
  lemma BodyIsOpen(c: Command, db: Db, q: ClientRequest)
    requires WellFormed(q)
    ensures !Feed(Go(Fresh(c), db), Body(q)).stopped
  {
    match q
    case Storage(add, key, flags, expTime, data, noReply) =>
      StorageBodyIsOpen(c, db, StorageName(add), key, flags, expTime, data, noReply);
    case Retrieval(gets, keys) =>
      GetIsParsed(c, db, RetrievalName(gets), keys);
      OpenLine(c, db, [RetrievalName(gets)] + keys);
    case Deletion(key, noReply) =>
      DeleteIsParsed(c, db, key, noReply);
      OpenLine(c, db, DeleteLine(key, noReply));
  }

  lemma OpenLine(c: Command, db: Db, ws: seq<string>)
    requires ws != [] && WordsRun(Go(Fresh(c), db), ws) && !FoldWords(Go(Fresh(c), db), ws).stopped
    ensures !Feed(Go(Fresh(c), db), Join(ws) + ['\r']).stopped
  {
    LineIsFold(Go(Fresh(c), db), ws, '\r', "");
    assert Join(ws) + ['\r'] + "" == Join(ws) + ['\r'];
  }

  lemma StorageBodyIsOpen(c: Command, db: Db, name: string, key: string, flags: int, expTime: int, data: string, noReply: bool)
    requires name == "set" || name == "add"
    requires IsKey(key) && IsInt(flags) && IsInt(expTime) && |data| <= INT_MAX
    ensures var ws := StorageLine(name, key, flags, expTime, |data|, noReply);
            Feed(Go(Fresh(c), db), Join(ws) + ['\r'] + (if data == "" then "" else "\n" + data))
            == Go(Stored(name, key, flags, expTime, data, noReply), db)
  {
    var ws := StorageLine(name, key, flags, expTime, |data|, noReply);
    StorageHeader(c, db, name, key, flags, expTime, |data|, noReply);
    LineIsFold(Go(Fresh(c), db), ws, '\r', if data == "" then "" else "\n" + data);
    if data != "" {
      DataIsOpen(Req(NOREP, "", "", CommandFromStr(name), [key], flags, expTime, |data|, noReply), db, data);
    }
  }

  /** The request when all its data has been read. */
  function Stored(name: string, key: string, flags: int, expTime: int, data: string, noReply: bool): Req {
    Req(if data == "" then NOREP else DATA, data, "", CommandFromStr(name), [key], flags, expTime, 0, noReply)
  }

  lemma DataIsOpen(r: Req, db: Db, data: string)
    requires r.status == NOREP && r.buffer == "" && r.remaining == |data| > 0
    ensures Feed(Go(r, db), "\n" + data) == Go(r.(status := DATA, buffer := data, remaining := 0), db)
  {
    assert ("\n" + data)[0] == '\n' && ("\n" + data)[1..] == data;
    assert Consume(r, db, '\n') == Go(r.(status := DATA), db);
    DataBlock(r.(status := DATA), db, data);
    assert "" + data == data;
  }

  /** The next byte does. */
  lemma FinishingByteStops(c: Command, items: Items, q: ClientRequest)
    requires WellFormed(q)
    ensures Feed(Go(Fresh(c), Some(items)), Body(q) + [End(q)[0]]).stopped
  {
    var db := Some(items);
    if q.Storage? {
      var r := Stored(StorageName(q.add), q.key, q.flags, q.expTime, q.data, q.noReply);
      StorageBodyIsOpen(c, db, StorageName(q.add), q.key, q.flags, q.expTime, q.data, q.noReply);
      FeedConcat(Go(Fresh(c), db), Body(q), [End(q)[0]]);
      StoredFinishes(r, db, End(q)[0]);
    } else {
      hide Wire, Body;
      BodyAndEnd(q);
      RequestIsServed(c, items, q);
      FinishedMeansStopped(Fresh(c), db, Wire(q));
      assert End(q) == [End(q)[0]];
    }
  }

  lemma StoredFinishes(r: Req, db: Db, e: char)
    requires r.remaining == 0 && (r.status == DATA || (r.status == NOREP && r.buffer == "" && IsWhiteSpace(e)))
    ensures Feed(Go(r, db), [e]).stopped
  {
    assert Feed(Go(r, db), [e]) == Consume(r, db, e) == Prepare(r, db);
  }

  /** Whatever reaches that byte gives the whole answer. */
  lemma EnoughIsServed(c: Command, items: Items, q: ClientRequest, w: string, rest: string)
    requires WellFormed(q) && w + rest == Wire(q) && |w| > |Body(q)|
    ensures IsBlank(rest)
    ensures var t := Feed(Go(Fresh(c), Some(items)), w);
            && t.r.status == FINISHED && t.r.noReply == Silent(q)
            && t.r.response == Served(q, items).text && t.db == Some(Served(q, items).items)
  {
    hide Feed, Wire, Body, End, Served;
    var t0, least := Go(Fresh(c), Some(items)), Body(q) + [End(q)[0]];
    BodyAndEnd(q);
    PrefixesAgree(Body(q), End(q), w, rest);
    FinishingByteStops(c, items, q);
    NothingAfterStop(t0, least, w);
    NothingAfterStop(t0, least, Wire(q));
    RequestIsServed(c, items, q);
  }

  lemma PrefixesAgree(body: string, end: string, w: string, rest: string)
    requires w + rest == body + end && |end| >= 1 && IsBlank(end) && |w| > |body|
    ensures IsBlank(rest)
    ensures var least := body + [end[0]]; w[..|least|] == least && (body + end)[..|least|] == least
  {
    assert w == (body + end)[..|w|];
    assert rest == (body + end)[|w|..] == end[|w| - |body|..];
  }

  lemma NothingAfterStop(t: Turn, least: string, w: string)
    requires |least| <= |w| && w[..|least|] == least && Feed(t, least).stopped
    ensures Feed(t, w) == Feed(t, least)
  {
    hide Consume;
    FeedConcat(t, least, w[|least|..]);
    assert least + w[|least|..] == w;
  }

  /** What has stopped `process` within a request reaches beyond its body. */
  lemma StopsAfterBody(c: Command, db: Db, q: ClientRequest, w: string, rest: string)
    requires WellFormed(q) && w + rest == Wire(q) && Feed(Go(Fresh(c), db), w).stopped
    ensures |w| > |Body(q)| && IsBlank(rest)
  {
    hide Feed, Wire, Body, End;
    BodyAndEnd(q);
    assert w == Wire(q)[..|w|] && rest == Wire(q)[|w|..];
    assert |w| <= |Body(q)| ==> w == Body(q)[..|w|];
    assert |w| > |Body(q)| ==> rest == End(q)[|w| - |Body(q)|..];
    BodyIsOpen(c, db, q);
    PrefixStops(Go(Fresh(c), db), w, Body(q));
  }

  lemma PrefixStops(t: Turn, w: string, body: string)
    requires Feed(t, w).stopped
    ensures |w| <= |body| && w == body[..|w|] ==> Feed(t, body).stopped
  {
    hide Consume;
    if |w| <= |body| && w == body[..|w|] {
      FeedConcat(t, w, body[|w|..]);
      assert w + body[|w|..] == body;
    }
  }

  lemma {:induction false} FlattenConcat(a: seq<string>, b: seq<string>)
    ensures Flatten(a + b) == Flatten(a) + Flatten(b)
  {
    if b == [] {
      assert a + b == a;
    } else {
      FlattenConcat(a, b[..|b| - 1]);
      assert (a + b)[..|a + b| - 1] == a + b[..|b| - 1] && (a + b)[|a + b| - 1] == b[|b| - 1];
    }
  }

  /** The bytes a request leaves over, however it is cut, are white space. */
  lemma LateBytesAreBlank(c: Command, db: Db, q: ClientRequest, chunks: seq<string>)
    requires WellFormed(q) && Flatten(chunks) == Wire(q)
    ensures IsBlank(LateBytes(Fresh(c), db, chunks))
  {
    var r, m := Fresh(c), ChunksRead(Fresh(c), db, chunks);
    if m < |chunks| {
      assert chunks == chunks[..m] + chunks[m..];
      FlattenConcat(chunks[..m], chunks[m..]);
      ReadMeansFinished(r, db, chunks);
      CutsAddLateBytes(r, db, chunks[..m]);
      FinishedMeansStopped(r, db, Flatten(chunks[..m]));
      StopsAfterBody(c, db, q, Flatten(chunks[..m]), Flatten(chunks[m..]));
    } else {
      assert chunks[m..] == [];
    }
  }

  lemma {:induction false} ReadMeansFinished(r: Req, db: Db, chunks: seq<string>)
    ensures var m := ChunksRead(r, db, chunks);
            m < |chunks| ==> ProcessAll(r, db, 0, chunks[..m]).r.status == FINISHED
  {
    if chunks != [] {
      var front := chunks[..|chunks| - 1];
      ReadMeansFinished(r, db, front);
      var m := ChunksRead(r, db, front);
      assert front[..m] == chunks[..m];
    }
  }

  /** Every cut of a request into calls of `process` ends as the request in one piece
      does, line ends that come late included. */
  lemma RequestIsServedHoweverCut(c: Command, items: Items, q: ClientRequest, chunks: seq<string>)
    requires WellFormed(q) && Flatten(chunks) == Wire(q)
    ensures var t := ProcessAll(Fresh(c), Some(items), 0, chunks);
            && t.r == Feed(Go(Fresh(c), Some(items)), Wire(q)).r
            && t.r.status == FINISHED && t.r.noReply == Silent(q)
            && t.r.response == Served(q, items).text
            && t.db == Some(Served(q, items).items)
  {
    hide Feed, Wire, Served, LateBytes;
    LateBytesAreBlank(c, Some(items), q, chunks);
    CutShowsIff(Fresh(c), Some(items), chunks);
    RequestIsServed(c, items, q);
  }

  /** In particular `set` stores its data for every cut. */
  lemma SetStoresDataHoweverCut(c: Command, items: Items, key: string, flags: int, expTime: int, data: string,
                                noReply: bool, chunks: seq<string>)
    requires IsKey(key) && IsInt(flags) && IsInt(expTime) && |data| <= INT_MAX
    requires Flatten(chunks) == StorageWire("set", key, flags, expTime, data, noReply)
    ensures var t := ProcessAll(Fresh(c), Some(items), 0, chunks);
            && t.r.status == FINISHED && t.r.response == "STORED\r\n" && t.r.noReply == noReply
            && t.db == Some(items[key := data])
  {
    RequestIsServedHoweverCut(c, items, Storage(false, key, flags, expTime, data, noReply), chunks);
  }
}
