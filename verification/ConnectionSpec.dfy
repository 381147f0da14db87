/** One TCP connection as a state machine over its callbacks, and what it promises
    over whole runs. */
module ConnectionSpec {
  import opened Options
  import opened RequestSpec

  /** `reading` and `writing` count the asynchronous operations outstanding; `sent` is
      what has gone out on the socket. */
  datatype Conn = Conn(req: Req, db: Db, maxBytes: nat, reading: nat, writing: nat, sent: string, open: bool)

  datatype Event =
    | ReadDone(chunk: string)
    | ReadFailed(aborted: bool)
    | WriteDone
    | WriteFailed(aborted: bool, wrote: nat)
    | TimerFired                       // a read or write timeout, or the manager stops it
    | StoreChanged(db: Db)             // other connections work on the same store

  /** A connection just after `start`. */
  function Started(command: Command, db: Db, maxBytes: nat): Conn {
    DoRead(Conn(Fresh(command), db, maxBytes, 0, 0, "", true))
  }

  function DoRead(c: Conn): Conn {
    c.(reading := c.reading + 1)
  }

  function DoWrite(c: Conn): Conn {
    c.(writing := c.writing + 1)
  }

  function Stop(c: Conn): Conn {
    c.(open := false)
  }

  predicate Enabled(c: Conn, e: Event) {
    match e
    case ReadDone(_) => c.reading > 0
    case ReadFailed(_) => c.reading > 0
    case WriteDone => c.writing > 0
    case WriteFailed(_, wrote) => c.writing > 0 && wrote <= |c.req.response|
    case TimerFired => true
    case StoreChanged(_) => true
  }

  function Step(c: Conn, e: Event): Conn
    requires Enabled(c, e)
  {
    match e
    case ReadDone(chunk) => AfterRead(c, chunk)
    case ReadFailed(aborted) =>
      var c' := c.(reading := c.reading - 1);
      if aborted then c' else Stop(c')
    case WriteDone =>
      DoRead(c.(writing := c.writing - 1, sent := c.sent + c.req.response, req := Fresh(NONE)))
    case WriteFailed(aborted, wrote) =>
      var c' := c.(writing := c.writing - 1, sent := c.sent + c.req.response[..wrote]);
      if aborted then c' else Stop(c')
    case TimerFired => Stop(c)
    case StoreChanged(db) => c.(db := db)
  }

  function AfterRead(c: Conn, chunk: string): Conn
    requires c.reading > 0
  {
    var t := Process(c.req, c.db, c.maxBytes, chunk);
    var c' := c.(reading := c.reading - 1, req := t.r, db := t.db);
    if t.r.status == FINISHED then
      if t.r.noReply then DoRead(c'.(req := Fresh(NONE))) else DoWrite(c')
    else if t.r.status == QUITTING then Stop(c')
    else DoRead(c')
  }

  function Run(c: Conn, events: seq<Event>): Option<Conn> {
    if events == [] then Some(c)
    else
      match Run(c, events[..|events| - 1])
      case None => None
      case Some(d) => if Enabled(d, events[|events| - 1]) then Some(Step(d, events[|events| - 1])) else None
  }
}
