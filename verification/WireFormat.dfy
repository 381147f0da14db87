/** Round trips on the wire: what a client writes is what is stored, and what the
    server answers can be read back by counting bytes. */
module WireFormat {
  import opened Options
  import opened Numerals
  import opened RequestSpec
  import opened Chunking

  // ----- numbers

  lemma {:induction false} LeadingDigitsOf(s: string, rest: string)
    requires forall i | 0 <= i < |s| :: IsDigit(s[i])
    requires rest == "" || !IsDigit(rest[0])
    ensures LeadingDigits(s + rest) == |s|
  {
    if s != "" {
      assert (s + rest)[1..] == s[1..] + rest;
      LeadingDigitsOf(s[1..], rest);
    } else {
      assert s + rest == rest;
    }
  }

  /** stoi reads back every int that a client writes in decimal. */
  lemma StoiOfDecimal(v: int)
    requires INT_MIN <= v <= INT_MAX
    ensures Stoi(SignedDecimal(v)) == Some(v) && IsWord(SignedDecimal(v))
  {
    var n: nat := if v < 0 then -v else v;
    var digits := Decimal(n);
    DigitsOfDecimal(n);
    if v < 0 {
      assert SignedDecimal(v)[0] == '-' && SignedDecimal(v)[1..] == digits;
    }
  }

  lemma DigitsOfDecimal(n: nat)
    ensures LeadingDigits(Decimal(n)) == |Decimal(n)|
    ensures Value(Decimal(n)[..|Decimal(n)|], 10) == n
    ensures IsDigit(Decimal(n)[0]) && IsWord(Decimal(n))
  {
    var digits := Decimal(n);
    ValueOfNumeral(n, 10, false);
    LeadingDigitsOf(digits, "");
    assert digits + "" == digits && digits[..|digits|] == digits;
  }

  // ----- lines of words

  function Join(ws: seq<string>): string
    requires ws != []
  {
    if |ws| == 1 then ws[0] else ws[0] + " " + Join(ws[1..])
  }

  /** The turns a line of words leads through. */
  function FoldWords(t: Turn, ws: seq<string>): Turn
    decreases |ws|
  {
    if ws == [] then t
    else FoldWords(EndOfWord(t.r.(buffer := t.r.buffer + ws[0]), t.db), ws[1..])
  }

  predicate WordsRun(t: Turn, ws: seq<string>)
    decreases |ws|
  {
    ws != [] ==>
      && !t.stopped && t.r.status != DATA && IsWord(ws[0])
      && WordsRun(EndOfWord(t.r.(buffer := t.r.buffer + ws[0]), t.db), ws[1..])
  }

  lemma WordAndSpace(r: Req, db: Db, w: string, space: char, rest: string)
    requires r.status != DATA && IsWord(w) && IsWhiteSpace(space)
    ensures Feed(Go(r, db), w + [space] + rest) == Feed(EndOfWord(r.(buffer := r.buffer + w), db), rest)
  {
    var r' := r.(buffer := r.buffer + w);
    WordIsBuffered(r, db, w);
    FeedConcat(Go(r, db), w, [space] + rest);
    assert w + [space] + rest == w + ([space] + rest);
    assert ([space] + rest)[1..] == rest;
    assert Feed(Go(r', db), [space] + rest) == Feed(Consume(r', db, space), rest);
  }

  lemma {:induction false} LineIsFold(t: Turn, ws: seq<string>, space: char, rest: string)
    requires ws != [] && WordsRun(t, ws) && IsWhiteSpace(space)
    ensures Feed(t, Join(ws) + [space] + rest) == Feed(FoldWords(t, ws), rest)
    decreases |ws|
  {
    var next := EndOfWord(t.r.(buffer := t.r.buffer + ws[0]), t.db);
    if |ws| == 1 {
      WordAndSpace(t.r, t.db, ws[0], space, rest);
      assert ws[1..] == [];
    } else {
      var tail := Join(ws[1..]) + [space] + rest;
      WordAndSpace(t.r, t.db, ws[0], ' ', tail);
      LineIsFold(next, ws[1..], space, rest);
      assert Join(ws) + [space] + rest == ws[0] + [' '] + tail;
    }
  }

  lemma {:induction false} DataBlock(r: Req, db: Db, data: string)
    requires r.status == DATA && r.remaining == |data|
    ensures Feed(Go(r, db), data) == Go(r.(buffer := r.buffer + data, remaining := 0), db)
    decreases |data|
  {
    if data == "" {
      assert r.buffer + data == r.buffer;
    } else {
      var r' := r.(buffer := r.buffer + [data[0]], remaining := r.remaining - 1);
      DataBlock(r', db, data[1..]);
      assert r.buffer + data == r'.buffer + data[1..];
    }
  }

  // ----- storage

  function StorageLine(name: string, key: string, flags: int, expTime: int, n: nat, noReply: bool): seq<string> {
    [name, key, SignedDecimal(flags), SignedDecimal(expTime), Decimal(n)] + (if noReply then ["noreply"] else [])
  }

  function StorageWire(name: string, key: string, flags: int, expTime: int, data: string, noReply: bool): string {
    Join(StorageLine(name, key, flags, expTime, |data|, noReply)) + CRLF + data + CRLF
  }

  predicate IsKey(key: string) {
    key != "" && IsWord(key)
  }

  predicate IsInt(v: int) {
    INT_MIN <= v <= INT_MAX
  }

  /** One word, ended by white space, leads from t to t'. */
  ghost predicate Leads(t: Turn, w: string, t': Turn) {
    !t.stopped && t.r.status != DATA && IsWord(w) && EndOfWord(t.r.(buffer := t.r.buffer + w), t.db) == t'
  }

  lemma WordStep(t: Turn, w: string, t': Turn)
    requires !t.stopped && t.r.status != DATA && t.r.buffer == "" && IsWord(w)
    requires EndOfWord(t.r.(buffer := w), t.db) == t'
    ensures Leads(t, w, t')
  {
    assert t.r.buffer + w == w;
  }

  lemma FoldCons(t: Turn, w: string, ws: seq<string>, t': Turn)
    requires Leads(t, w, t') && WordsRun(t', ws)
    ensures WordsRun(t, [w] + ws) && FoldWords(t, [w] + ws) == FoldWords(t', ws)
  {
    assert ([w] + ws)[1..] == ws;
  }

  lemma NumbersAreRead(r: Req, db: Db, flags: int, expTime: int, n: nat)
    requires r.status == FLAGS && r.buffer == "" && IsInt(flags) && IsInt(expTime) && n <= INT_MAX
    ensures var t := Go(r, db);
            var t3 := Go(r.(flags := flags, status := EXPTIME), db);
            var t4 := Go(t3.r.(expTime := expTime, status := NBYTES), db);
            var t5 := Go(t4.r.(remaining := n, status := NOREP), db);
            Leads(t, SignedDecimal(flags), t3) && Leads(t3, SignedDecimal(expTime), t4) && Leads(t4, Decimal(n), t5)
  {
    var t3 := Go(r.(flags := flags, status := EXPTIME), db);
    FlagsAreRead(r, db, flags);
    ExpTimeIsRead(t3.r, db, expTime);
    SizeIsRead(t3.r.(expTime := expTime, status := NBYTES), db, n);
  }

  lemma FlagsAreRead(r: Req, db: Db, flags: int)
    requires r.status == FLAGS && r.buffer == "" && IsInt(flags)
    ensures Leads(Go(r, db), SignedDecimal(flags), Go(r.(flags := flags, status := EXPTIME), db))
  {
    hide Stoi, SignedDecimal, IsWord, Prepare, Fail;
    StoiOfDecimal(flags);
    WordStep(Go(r, db), SignedDecimal(flags), Go(r.(flags := flags, status := EXPTIME), db));
  }

  lemma ExpTimeIsRead(r: Req, db: Db, expTime: int)
    requires r.status == EXPTIME && r.buffer == "" && IsInt(expTime)
    ensures Leads(Go(r, db), SignedDecimal(expTime), Go(r.(expTime := expTime, status := NBYTES), db))
  {
    hide Stoi, SignedDecimal, IsWord, Prepare, Fail;
    StoiOfDecimal(expTime);
    WordStep(Go(r, db), SignedDecimal(expTime), Go(r.(expTime := expTime, status := NBYTES), db));
  }

  lemma SizeIsRead(r: Req, db: Db, n: nat)
    requires r.status == NBYTES && r.buffer == "" && n <= INT_MAX
    ensures Leads(Go(r, db), Decimal(n), Go(r.(remaining := n, status := NOREP), db))
  {
    hide Stoi, Decimal, IsWord, Prepare, Fail;
    StoiOfDecimal(n);
    WordStep(Go(r, db), Decimal(n), Go(r.(remaining := n, status := NOREP), db));
  }

  lemma NoReplyIsRead(r: Req, db: Db, noReply: bool)
    requires r.status == NOREP && r.buffer == "" && !r.noReply
    ensures var ws := if noReply then ["noreply"] else [];
            WordsRun(Go(r, db), ws) && FoldWords(Go(r, db), ws) == Go(r.(noReply := noReply), db)
  {
    if noReply {
      var t := Go(r.(noReply := true), db);
      WordStep(Go(r, db), "noreply", t);
      FoldCons(Go(r, db), "noreply", [], t);
      assert ["noreply"] + [] == ["noreply"];
    }
  }

  /** After the line and the carriage return, before the line feed. */
  lemma StorageHeader(c: Command, db: Db, name: string, key: string, flags: int, expTime: int, n: nat, noReply: bool)
    requires name == "set" || name == "add"
    requires IsKey(key) && IsInt(flags) && IsInt(expTime) && n <= INT_MAX
    ensures var ws, t := StorageLine(name, key, flags, expTime, n, noReply), Go(Fresh(c), db);
            && WordsRun(t, ws)
            && FoldWords(t, ws)
               == Go(Req(NOREP, "", "", CommandFromStr(name), [key], flags, expTime, n, noReply), db)
  {
    var f, e, d := SignedDecimal(flags), SignedDecimal(expTime), Decimal(n);
    var last := if noReply then ["noreply"] else [];
    var t0 := Go(Fresh(c), db);
    var t1 := Go(Fresh(CommandFromStr(name)).(status := STORAGE_KEY), db);
    var t2 := Go(t1.r.(keys := [key], status := FLAGS), db);
    var t3 := Go(t2.r.(flags := flags, status := EXPTIME), db);
    var t4 := Go(t3.r.(expTime := expTime, status := NBYTES), db);
    var t5 := Go(t4.r.(remaining := n, status := NOREP), db);
    WordStep(t0, name, t1);
    WordStep(t1, key, t2);
    NumbersAreRead(t2.r, db, flags, expTime, n);
    NoReplyIsRead(t5.r, db, noReply);
    FoldCons(t4, d, last, t5);
    FoldCons(t3, e, [d] + last, t4);
    FoldCons(t2, f, [e] + ([d] + last), t3);
    FoldCons(t1, key, [f] + ([e] + ([d] + last)), t2);
    FoldCons(t0, name, [key] + ([f] + ([e] + ([d] + last))), t1);
    LineInParts(name, key, f, e, d, last);
  }

  lemma LineInParts(name: string, key: string, f: string, e: string, d: string, last: seq<string>)
    ensures [name, key, f, e, d] + last == [name] + ([key] + ([f] + ([e] + ([d] + last))))
  {
  }

  /** From the line feed on: the data block, if there is one, and its line end. */
  lemma DataIsRead(r: Req, db: Db, data: string)
    requires r.status == NOREP && r.buffer == "" && r.remaining == |data|
    ensures Feed(Go(r, db), "\n" + (data + CRLF))
            == Prepare(r.(status := if data == "" then NOREP else DATA, buffer := data, remaining := 0), db)
  {
    var rest := "\n" + (data + CRLF);
    assert rest[0] == '\n' && rest[1..] == data + CRLF;
    if data == "" {
      assert Consume(r, db, '\n') == Prepare(r, db);
    } else {
      assert Consume(r, db, '\n') == Go(r.(status := DATA), db);
      DataAndLineEnd(r.(status := DATA), db, data);
    }
  }

  lemma DataAndLineEnd(r: Req, db: Db, data: string)
    requires r.status == DATA && r.buffer == "" && r.remaining == |data| > 0
    ensures Feed(Go(r, db), data + CRLF) == Prepare(r.(buffer := data, remaining := 0), db)
  {
    FeedConcat(Go(r, db), data, CRLF);
    DataBlock(r, db, data);
    assert "" + data == data;
    var full := r.(buffer := data, remaining := 0);
    assert Consume(full, db, CRLF[0]) == Prepare(full, db);
  }

  /** A storage request is parsed to exactly its key, numbers and data, and answered
      by the store; bytes of the data block are free, CR, LF and spaces included. */
  lemma StorageIsParsed(c: Command, db: Db, name: string, key: string, flags: int, expTime: int, data: string, noReply: bool)
    requires name == "set" || name == "add"
    requires IsKey(key) && IsInt(flags) && IsInt(expTime) && |data| <= INT_MAX
    ensures Feed(Go(Fresh(c), db), StorageWire(name, key, flags, expTime, data, noReply))
            == Prepare(Req(if data == "" then NOREP else DATA, data, "", CommandFromStr(name), [key], flags, expTime, 0, noReply), db)
  {
    var ws := StorageLine(name, key, flags, expTime, |data|, noReply);
    var rest := "\n" + (data + CRLF);
    StorageHeader(c, db, name, key, flags, expTime, |data|, noReply);
    WireInParts(Join(ws), data);
    LineIsFold(Go(Fresh(c), db), ws, '\r', rest);
    DataIsRead(Req(NOREP, "", "", CommandFromStr(name), [key], flags, expTime, |data|, noReply), db, data);
  }

  lemma WireInParts(line: string, data: string)
    ensures line + CRLF + data + CRLF == line + ['\r'] + ("\n" + (data + CRLF))
  {
  }

  /** `set` stores exactly the data under the key and replies STORED. */
  lemma SetStoresData(c: Command, items: Items, key: string, flags: int, expTime: int, data: string, noReply: bool)
    requires IsKey(key) && IsInt(flags) && IsInt(expTime) && |data| <= INT_MAX
    ensures var t := Feed(Go(Fresh(c), Some(items)), StorageWire("set", key, flags, expTime, data, noReply));
            && t.r.status == FINISHED && t.r.response == "STORED\r\n" && t.r.noReply == noReply
            && t.r.command == SET && t.r.keys == [key] && t.r.flags == flags && t.r.expTime == expTime
            && t.db == Some(items[key := data])
  {
    StorageIsParsed(c, Some(items), "set", key, flags, expTime, data, noReply);
  }

  /** `add` stores the data exactly if the key was missing, and says which. */
  lemma AddStoresIfMissing(c: Command, items: Items, key: string, flags: int, expTime: int, data: string, noReply: bool)
    requires IsKey(key) && IsInt(flags) && IsInt(expTime) && |data| <= INT_MAX
    ensures var t := Feed(Go(Fresh(c), Some(items)), StorageWire("add", key, flags, expTime, data, noReply));
            && t.r.status == FINISHED && t.r.noReply == noReply
            && (t.r.response == "STORED\r\n" <==> key !in items)
            && (t.r.response == "NOT_STORED\r\n" <==> key in items)
            && t.db == Some(if key in items then items else items[key := data])
  {
    StorageIsParsed(c, Some(items), "add", key, flags, expTime, data, noReply);
    assert "STORED\r\n"[0] != "NOT_STORED\r\n"[0];
  }

  // ----- retrieval

  /** The hits of a key list, in request order. */
  function Hits(keys: seq<string>, items: Items): seq<(string, string)> {
    if keys == [] then []
    else (if keys[0] in items then [(keys[0], items[keys[0]])] else []) + Hits(keys[1..], items)
  }

  lemma {:induction false} FramesFromTheFront(keys: seq<string>, items: Items)
    requires keys != []
    ensures Frames(keys, items)
            == (if keys[0] in items then Frame(keys[0], items[keys[0]]) else "") + Frames(keys[1..], items)
    decreases |keys|
  {
    hide Frame;
    var last, front := keys[|keys| - 1], keys[..|keys| - 1];
    if |keys| == 1 {
      assert front == [] && keys[1..] == [];
    } else {
      FramesFromTheFront(front, items);
      assert front[1..] == keys[1..][..|keys[1..]| - 1];
      assert keys[1..][|keys[1..]| - 1] == last;
    }
  }

  function IndexOf(s: string, c: char): (i: nat)
    ensures i <= |s|
    ensures i < |s| ==> s[i] == c
    ensures forall j | 0 <= j < i :: s[j] != c
  {
    if s == "" || s[0] == c then 0 else 1 + IndexOf(s[1..], c)
  }

  datatype Framed = Framed(key: string, value: string, rest: string)

  /** A decimal length and the line end after it. */
  function ReadLength(s: string): (r: Option<(nat, string)>)
    ensures r.Some? ==> |r.value.1| < |s|
  {
    var d := LeadingDigits(s);
    if d == 0 || !(CRLF <= s[d..]) then None else Some((Value(s[..d], 10), s[d + 2..]))
  }

  /** A client that counts bytes: one frame. */
  function ReadFrame(s: string): (r: Option<Framed>)
    ensures r.Some? ==> |r.value.rest| < |s|
  {
    if !("VALUE " <= s) then None else ReadKeyAndValue(s[6..])
  }

  function ReadKeyAndValue(s: string): (r: Option<Framed>)
    ensures r.Some? ==> |r.value.rest| < |s|
  {
    var k := IndexOf(s, ' ');
    if !(" 0 " <= s[k..]) then None
    else
      match ReadLength(s[k..][3..])
      case None => None
      case Some((n, body)) => ReadValue(s[..k], n, body)
  }

  function ReadValue(key: string, n: nat, body: string): (r: Option<Framed>)
    ensures r.Some? ==> |r.value.rest| < |body|
  {
    if |body| < n + 2 || body[n..n + 2] != CRLF then None
    else Some(Framed(key, body[..n], body[n + 2..]))
  }

  /** All frames up to END; None where the answer has another form. */
  function DecodeFrames(s: string): Option<seq<(string, string)>>
    decreases |s|
  {
    if s == "END\r\n" then Some([])
    else
      match ReadFrame(s)
      case None => None
      case Some(f) => Prepend((f.key, f.value), DecodeFrames(f.rest))
  }

  function Prepend(first: (string, string), others: Option<seq<(string, string)>>): Option<seq<(string, string)>> {
    match others
    case None => None
    case Some(frames) => Some([first] + frames)
  }

  lemma IndexAfterWord(w: string, c: char, rest: string)
    requires c !in w && rest != "" && rest[0] == c
    ensures IndexOf(w + rest, c) == |w|
  {
    var s := w + rest;
    assert s[|w|] == c;
    assert forall j | 0 <= j < |w| :: s[j] == w[j] && w[j] in w;
  }

  lemma LengthIsRead(n: nat, rest: string)
    ensures ReadLength(Decimal(n) + (CRLF + rest)) == Some((n, rest))
  {
    var d, s := |Decimal(n)|, Decimal(n) + (CRLF + rest);
    LeadingDigitsOf(Decimal(n), CRLF + rest);
    ValueOfNumeral(n, 10, false);
    assert s[..d] == Decimal(n) && s[d..] == CRLF + rest && s[d + 2..] == rest;
  }

  lemma ValueIsRead(key: string, value: string, rest: string)
    ensures ReadValue(key, |value|, value + (CRLF + rest)) == Some(Framed(key, value, rest))
  {
    var body := value + (CRLF + rest);
    assert body[..|value|] == value && body[|value|..|value| + 2] == CRLF && body[|value| + 2..] == rest;
  }

  lemma KeyAndValueAreRead(key: string, value: string, rest: string)
    requires IsWord(key)
    ensures ReadKeyAndValue(key + (" 0 " + (Decimal(|value|) + (CRLF + (value + (CRLF + rest))))))
            == Some(Framed(key, value, rest))
  {
    var body := value + (CRLF + rest);
    var afterKey := " 0 " + (Decimal(|value|) + (CRLF + body));
    IndexAfterWord(key, ' ', afterKey);
    assert (key + afterKey)[|key|..] == afterKey && (key + afterKey)[..|key|] == key;
    assert afterKey[3..] == Decimal(|value|) + (CRLF + body);
    LengthIsRead(|value|, body);
    ValueIsRead(key, value, rest);
  }

  /** One frame is read back, whatever follows and whatever bytes the value has. */
  lemma FrameIsRead(key: string, value: string, rest: string)
    requires IsWord(key)
    ensures ReadFrame(Frame(key, value) + rest) == Some(Framed(key, value, rest))
  {
    var s := key + (" 0 " + (Decimal(|value|) + (CRLF + (value + (CRLF + rest)))));
    FrameInParts(key, value, rest);
    assert ("VALUE " + s)[6..] == s;
    KeyAndValueAreRead(key, value, rest);
  }

  lemma FrameInParts(key: string, value: string, rest: string)
    ensures Frame(key, value) + rest
            == "VALUE " + (key + (" 0 " + (Decimal(|value|) + (CRLF + (value + (CRLF + rest))))))
  {
  }

  lemma OneMoreFrame(s: string, f: Framed)
    requires ReadFrame(s) == Some(f)
    ensures DecodeFrames(s) == Prepend((f.key, f.value), DecodeFrames(f.rest))
  {
    assert "VALUE " <= s && s[0] == "VALUE "[0] == 'V';
    assert "END\r\n"[0] == 'E';
  }

  function Answer(keys: seq<string>, items: Items): string {
    Frames(keys, items) + "END\r\n"
  }

  lemma AnswerFromTheFront(keys: seq<string>, items: Items)
    requires keys != []
    ensures Answer(keys, items)
            == if keys[0] in items then Frame(keys[0], items[keys[0]]) + Answer(keys[1..], items)
               else Answer(keys[1..], items)
  {
    hide Frames, Frame;
    FramesFromTheFront(keys, items);
  }

  /** The answer to any key list decodes to exactly the hits, in request order. */
  lemma {:induction false} FramesAreDecoded(keys: seq<string>, items: Items)
    requires forall i | 0 <= i < |keys| :: IsWord(keys[i])
    ensures DecodeFrames(Answer(keys, items)) == Some(Hits(keys, items))
    decreases |keys|
  {
    if keys == [] {
      assert Answer(keys, items) == "END\r\n";
    } else {
      FramesAreDecoded(keys[1..], items);
      AnswerFromTheFront(keys, items);
      if keys[0] in items {
        var value, rest := items[keys[0]], Answer(keys[1..], items);
        FrameIsRead(keys[0], value, rest);
        OneMoreFrame(Frame(keys[0], value) + rest, Framed(keys[0], value, rest));
      } else {
        assert Hits(keys, items) == Hits(keys[1..], items);
      }
    }
  }

  lemma {:induction false} KeysAreCollected(r: Req, db: Db, keys: seq<string>)
    requires r.status == RETRIEVAL_KEY && r.buffer == ""
    requires forall i | 0 <= i < |keys| :: IsKey(keys[i])
    ensures WordsRun(Go(r, db), keys) && FoldWords(Go(r, db), keys) == Go(r.(keys := r.keys + keys), db)
    decreases |keys|
  {
    if keys == [] {
      assert r.keys + keys == r.keys;
    } else {
      var r' := r.(keys := r.keys + [keys[0]]);
      KeysAreCollected(r', db, keys[1..]);
      WordStep(Go(r, db), keys[0], Go(r', db));
      FoldCons(Go(r, db), keys[0], keys[1..], Go(r', db));
      assert keys == [keys[0]] + keys[1..];
      assert r.keys + keys == r'.keys + keys[1..];
    }
  }

  /** `get` and `gets` answer with the frames of the hits and change nothing. */
  lemma GetAnswersWithHits(c: Command, items: Items, name: string, keys: seq<string>)
    requires name == "get" || name == "gets"
    requires keys != [] && forall i | 0 <= i < |keys| :: IsKey(keys[i])
    ensures var t := Feed(Go(Fresh(c), Some(items)), Join([name] + keys) + CRLF);
            && t.r.status == FINISHED && t.db == Some(items) && t.r.keys == keys
            && t.r.response == Answer(keys, items) && !t.r.noReply
            && DecodeFrames(t.r.response) == Some(Hits(keys, items))
  {
    var db := Some(items);
    var t0 := Go(Fresh(c), db);
    var r2 := Fresh(CommandFromStr(name)).(status := RETRIEVAL_KEY, keys := keys);
    GetIsParsed(c, db, name, keys);
    assert Join([name] + keys) + CRLF == Join([name] + keys) + ['\r'] + "\n";
    LineIsFold(t0, [name] + keys, '\r', "\n");
    LineFeedAnswers(r2, items);
    FramesAreDecoded(keys, items);
  }

  lemma GetIsParsed(c: Command, db: Db, name: string, keys: seq<string>)
    requires name == "get" || name == "gets"
    requires keys != [] && forall i | 0 <= i < |keys| :: IsKey(keys[i])
    ensures WordsRun(Go(Fresh(c), db), [name] + keys)
    ensures FoldWords(Go(Fresh(c), db), [name] + keys) ==
            Go(Fresh(CommandFromStr(name)).(status := RETRIEVAL_KEY, keys := keys), db)
  {
    var r1 := Fresh(CommandFromStr(name)).(status := RETRIEVAL_KEY);
    GetIsRead(c, db, name);
    KeysAreCollected(r1, db, keys);
    FoldCons(Go(Fresh(c), db), name, keys, Go(r1, db));
    assert [] + keys == keys;
  }

  lemma GetIsRead(c: Command, db: Db, name: string)
    requires name == "get" || name == "gets"
    ensures Leads(Go(Fresh(c), db), name, Go(Fresh(CommandFromStr(name)).(status := RETRIEVAL_KEY), db))
  {
    WordStep(Go(Fresh(c), db), name, Go(Fresh(CommandFromStr(name)).(status := RETRIEVAL_KEY), db));
  }

  lemma LineFeedAnswers(r: Req, items: Items)
    requires r.status == RETRIEVAL_KEY && r.buffer == "" && r.keys != [] && r.command in [GET, GETS]
    ensures var t := Feed(Go(r, Some(items)), "\n");
            && t.r.status == FINISHED && t.db == Some(items) && t.r.keys == r.keys
            && t.r.response == Answer(r.keys, items) && t.r.noReply == r.noReply
  {
    assert Feed(Go(r, Some(items)), "\n") == Prepare(r, Some(items));
  }

  /** What was set is what a later get reads, whatever else is asked for. */
  lemma SetThenGet(c: Command, c': Command, items: Items, key: string, flags: int, expTime: int, data: string,
                   noReply: bool, keys: seq<string>)
    requires IsKey(key) && IsInt(flags) && IsInt(expTime) && |data| <= INT_MAX
    requires keys != [] && forall i | 0 <= i < |keys| :: IsKey(keys[i])
    ensures var t := Feed(Go(Fresh(c), Some(items)), StorageWire("set", key, flags, expTime, data, noReply));
            var u := Feed(Go(Fresh(c'), t.db), Join(["get"] + keys) + CRLF);
            DecodeFrames(u.r.response) == Some(Hits(keys, items[key := data]))
  {
    SetStoresData(c, items, key, flags, expTime, data, noReply);
    GetAnswersWithHits(c', items[key := data], "get", keys);
  }

  /** `delete` removes the key and says whether it was there. */
  lemma DeleteRemovesKey(c: Command, items: Items, key: string, noReply: bool)
    requires IsKey(key)
    ensures var t := Feed(Go(Fresh(c), Some(items)), Join(DeleteLine(key, noReply)) + CRLF);
            && t.r.status == FINISHED && t.r.noReply == noReply && t.db == Some(items - {key})
            && t.r.response == (if key in items then "DELETED\r\n" else "NOT_FOUND\r\n")
  {
    var db := Some(items);
    var ws := DeleteLine(key, noReply);
    var r := Fresh(DELETE).(status := NOREP, keys := [key], noReply := noReply);
    DeleteIsParsed(c, db, key, noReply);
    assert Join(ws) + CRLF == Join(ws) + ['\r'] + "\n";
    LineIsFold(Go(Fresh(c), db), ws, '\r', "\n");
    assert Feed(Go(r, db), "\n") == Prepare(r, db);
    assert key !in items ==> items - {key} == items;
  }

  function DeleteLine(key: string, noReply: bool): seq<string> {
    ["delete", key] + (if noReply then ["noreply"] else [])
  }

  lemma DeleteIsParsed(c: Command, db: Db, key: string, noReply: bool)
    requires IsKey(key)
    ensures var ws := DeleteLine(key, noReply);
            && WordsRun(Go(Fresh(c), db), ws)
            && FoldWords(Go(Fresh(c), db), ws) ==
               Go(Fresh(DELETE).(status := NOREP, keys := [key], noReply := noReply), db)
  {
    var last := if noReply then ["noreply"] else [];
    var ws := ["delete", key] + last;
    var t0 := Go(Fresh(c), db);
    var t1 := Go(Fresh(DELETE).(status := DELETE_KEY), db);
    var t2 := Go(t1.r.(keys := [key], status := NOREP), db);
    WordStep(t0, "delete", t1);
    WordStep(t1, key, t2);
    var t3 := Go(t2.r.(noReply := noReply), db);
    if noReply {
      WordStep(t2, "noreply", t3);
      FoldCons(t2, "noreply", [], t3);
      assert ["noreply"] + [] == last;
    }
    FoldCons(t1, key, last, t2);
    FoldCons(t0, "delete", [key] + last, t1);
    assert ws == ["delete"] + ([key] + last);
  }
}
