/** The memcached request parser and its answer, byte by byte, as functions: what
    the `Request` class computes. */
module RequestSpec {
  import opened Options
  import opened Numerals

  datatype Status =
    | COMMAND | DELETE_KEY | STORAGE_KEY | FLAGS | EXPTIME | NBYTES | NOREP | DATA
    | RETRIEVAL_KEY | RETRIEVAL_KEYS | FINISHED | QUITTING

  datatype Command = NONE | SET | ADD | GET | GETS | DELETE | QUIT | PING

  type Items = map<string, string>

  /** The store behind the request; None when no database is configured. */
  type Db = Option<Items>

  datatype Req = Req(
    status: Status, buffer: string, response: string, command: Command, keys: seq<string>,
    flags: int, expTime: int, remaining: nat, noReply: bool)

  /** A new request. The constructor does not initialise the command. */
  function Fresh(command: Command): Req {
    Req(COMMAND, "", "", command, [], 0, 0, 0, false)
  }

  const CRLF: string := "\r\n"
  const INT_MAX: int := 0x7fff_ffff
  const INT_MIN: int := -0x8000_0000
  const SIZE_RANGE: int := 0x1_0000_0000_0000_0000

  predicate IsWhiteSpace(c: char) {
    c == ' ' || c == '\t' || c == '\U{0C}' || c == '\r' || c == '\n' || c == '\U{0B}'
  }

  function CommandFromStr(s: string): Command {
    if s == "set" then SET
    else if s == "add" then ADD
    else if s == "get" then GET
    else if s == "gets" then GETS
    else if s == "delete" then DELETE
    else if s == "quit" then QUIT
    else if s == "ping" then PING
    else NONE
  }

  /** None where the source throws. */
  function StatusFromCommand(c: Command): Option<Status> {
    match c
    case SET => Some(STORAGE_KEY)
    case ADD => Some(STORAGE_KEY)
    case GET => Some(RETRIEVAL_KEY)
    case GETS => Some(RETRIEVAL_KEY)
    case DELETE => Some(DELETE_KEY)
    case QUIT => Some(QUITTING)
    case PING => Some(FINISHED)
    case NONE => None
  }

  // ----- std::stoi

  function SkipSpaces(s: string): string {
    if s != "" && IsWhiteSpace(s[0]) then SkipSpaces(s[1..]) else s
  }

  function LeadingDigits(s: string): (n: nat)
    ensures n <= |s|
    ensures forall i | 0 <= i < n :: IsDigit(s[i])
    ensures n < |s| ==> !IsDigit(s[n])
  {
    if s != "" && IsDigit(s[0]) then 1 + LeadingDigits(s[1..]) else 0
  }

  /** Leading spaces, an optional sign and at least one digit are read; what
      follows is ignored. None where stoi throws. */
  function Stoi(s: string): Option<int> {
    var t := SkipSpaces(s);
    var negative := t != "" && t[0] == '-';
    var u := if t != "" && (t[0] == '-' || t[0] == '+') then t[1..] else t;
    var n := LeadingDigits(u);
    var magnitude: int := Value(u[..n], 10);
    var v := if negative then -magnitude else magnitude;
    if n == 0 || !(INT_MIN <= v <= INT_MAX) then None else Some(v)
  }

  // ----- the answer

  function Frame(key: string, value: string): string {
    "VALUE " + key + " 0 " + Decimal(|value|) + CRLF + value + CRLF
  }

  function Frames(keys: seq<string>, items: Items): string {
    if keys == [] then ""
    else Frames(keys[..|keys| - 1], items)
         + (if keys[|keys| - 1] in items then Frame(keys[|keys| - 1], items[keys[|keys| - 1]]) else "")
  }

  datatype Reply = Reply(text: string, items: Items)

  function Execute(command: Command, keys: seq<string>, data: string, items: Items): Reply
    requires keys != []
  {
    var key := keys[0];
    match command
    case DELETE => if key in items then Reply("DELETED\r\n", items - {key}) else Reply("NOT_FOUND\r\n", items)
    case ADD => if key in items then Reply("NOT_STORED\r\n", items) else Reply("STORED\r\n", items[key := data])
    case SET => Reply("STORED\r\n", items[key := data])
    case GET => Reply(Frames(keys, items) + "END\r\n", items)
    case GETS => Reply(Frames(keys, items) + "END\r\n", items)
    case _ => Reply("ERROR unsupported command\r\n", items)
  }

  /** A request and the store it works on; `stopped` once `process` has returned
      before the end of its input. */
  datatype Turn = Turn(r: Req, db: Db, stopped: bool)

  function Prepare(r: Req, db: Db): Turn {
    if r.command == PING then Turn(r.(response := "PONG\r\n", status := FINISHED), db, true)
    else if db.None? then
      Turn(r.(response := "ERROR The server isn't configured with a database\r\n", status := FINISHED), db, true)
    else if r.keys == [] then
      Turn(r.(response := "ERROR No key was found in request\r\n", status := FINISHED), db, true)
    else
      var reply := Execute(r.command, r.keys, r.buffer, db.value);
      Turn(r.(response := reply.text, status := FINISHED), Some(reply.items), true)
  }

  /** The catch block. */
  function Fail(r: Req, db: Db, what: string): Turn {
    Turn(r.(status := FINISHED, response := "CLIENT_ERROR " + what + CRLF), db, true)
  }

  function Go(r: Req, db: Db): Turn {
    Turn(r, db, false)
  }

  // ----- one byte

  function Consume(r: Req, db: Db, c: char): Turn {
    if r.status == DATA then
      if r.remaining > 0 then Go(r.(remaining := r.remaining - 1, buffer := r.buffer + [c]), db)
      else Prepare(r, db)
    else if IsWhiteSpace(c) then EndOfWord(r, db)
    else Go(r.(buffer := r.buffer + [c]), db)
  }

  function TakeKey(r: Req, db: Db, next: Status): Turn {
    if r.buffer == "" then Fail(r, db, "invalid key")
    else Go(r.(keys := r.keys + [r.buffer], buffer := "", status := next), db)
  }

  function EndOfWord(r: Req, db: Db): Turn {
    match r.status
    case COMMAND =>
      var r' := r.(command := CommandFromStr(r.buffer), buffer := "");
      (match StatusFromCommand(r'.command)
       case None => Fail(r', db, "unsupported command")
       case Some(next) =>
         var r'' := r'.(status := next);
         if next == FINISHED then Prepare(r'', db) else Go(r'', db))
    case DELETE_KEY => TakeKey(r, db, NOREP)
    case STORAGE_KEY => TakeKey(r, db, FLAGS)
    case FLAGS =>
      (match Stoi(r.buffer)
       case None => Fail(r, db, "stoi")
       case Some(v) => Go(r.(flags := v, buffer := "", status := EXPTIME), db))
    case EXPTIME =>
      (match Stoi(r.buffer)
       case None => Fail(r, db, "stoi")
       case Some(v) => Go(r.(expTime := v, buffer := "", status := NBYTES), db))
    case NBYTES =>
      (match Stoi(r.buffer)
       case None => Fail(r, db, "stoi")
       case Some(v) => Go(r.(remaining := v % SIZE_RANGE, buffer := "", status := NOREP), db))
    case NOREP =>
      if r.buffer == "noreply" then Go(r.(buffer := "", noReply := true, status := NOREP), db)
      else if r.remaining > 0 then Go(r.(status := DATA), db)
      else Prepare(r, db)
    case RETRIEVAL_KEY => RetrievalWord(r, db)
    case RETRIEVAL_KEYS => RetrievalWord(r, db)
    case _ => Go(r, db)
  }

  function RetrievalWord(r: Req, db: Db): Turn {
    if r.buffer == "" then Prepare(r, db)
    else Go(r.(keys := r.keys + [r.buffer], buffer := ""), db)
  }

  // ----- a run of bytes

  function Feed(t: Turn, data: string): Turn
    decreases |data|
  {
    if data == "" || t.stopped then t else Feed(Consume(t.r, t.db, data[0]), data[1..])
  }

  predicate TooLong(r: Req, maxBytes: nat, data: string) {
    maxBytes > 0 && |data| + |r.buffer| >= maxBytes
  }

  /** One call of `process`. */
  function Process(r: Req, db: Db, maxBytes: nat, data: string): Turn {
    if TooLong(r, maxBytes, data) then Fail(r, db, "request size exceeded max bytes")
    else Feed(Go(r, db), data)
  }

  /** Successive calls of `process`. */
  function ProcessAll(r: Req, db: Db, maxBytes: nat, chunks: seq<string>): Turn {
    if chunks == [] then Go(r, db)
    else
      var t := ProcessAll(r, db, maxBytes, chunks[..|chunks| - 1]);
      Process(t.r, t.db, maxBytes, chunks[|chunks| - 1])
  }
}
