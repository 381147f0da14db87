/** What the parser answers to requests that are not well formed, and to the two
    commands that touch no key. */
module RequestErrors {
  import opened Chunking
  import opened Numerals
  import opened Options
  import opened RequestSpec
  import opened WireFormat

  // ----- which words stand for a number

  function AfterSign(w: string): string {
    if w != "" && (w[0] == '-' || w[0] == '+') then w[1..] else w
  }

  function WithSign(first: char, magnitude: int): int {
    if first == '-' then -magnitude else magnitude
  }

  /** Up to its first character that is none, w is an optional sign and at least one
      digit, which stand for v, an int. What follows them does not matter. */
  ghost predicate ReadsAs(w: string, v: int) {
    var u := AfterSign(w);
    exists n: nat ::
      && 1 <= n <= |u| && IsAllDigits(u[..n]) && (n < |u| ==> !IsDigit(u[n]))
      && v == WithSign(w[0], Value(u[..n], 10))
      && INT_MIN <= v <= INT_MAX
  }

  predicate IsAllDigits(s: string) {
    forall i | 0 <= i < |s| :: '0' <= s[i] <= '9'
  }

  ghost predicate IsNumber(w: string) {
    exists v :: ReadsAs(w, v)
  }

  lemma DigitsEndOnce(u: string, n: nat)
    requires n <= |u| && IsAllDigits(u[..n]) && (n < |u| ==> !IsDigit(u[n]))
    ensures LeadingDigits(u) == n
  {
    LeadingDigitsOf(u[..n], u[n..]);
    assert u[..n] + u[n..] == u;
  }

  lemma StoiReads(w: string, v: int)
    requires IsWord(w)
    ensures Stoi(w) == Some(v) <==> ReadsAs(w, v)
  {
    var u := AfterSign(w);
    assert SkipSpaces(w) == w;
    if Stoi(w) == Some(v) {
      var n := LeadingDigits(u);
      assert IsAllDigits(u[..n]);
    }
    if ReadsAs(w, v) {
      var n: nat :| && 1 <= n <= |u| && IsAllDigits(u[..n]) && (n < |u| ==> !IsDigit(u[n]))
                    && v == WithSign(w[0], Value(u[..n], 10))
                    && INT_MIN <= v <= INT_MAX;
      DigitsEndOnce(u, n);
    }
  }

  lemma NoNumberIsRefused(w: string)
    requires IsWord(w) && !IsNumber(w)
    ensures Stoi(w) == None
  {
    if Stoi(w).Some? {
      StoiReads(w, Stoi(w).value);
    }
  }

  // ----- lines up to a word that is refused

  lemma {:induction false} JoinConcat(a: seq<string>, b: seq<string>)
    requires a != [] && b != []
    ensures Join(a + b) == Join(a) + " " + Join(b)
    decreases |a|
  {
    if |a| == 1 {
      assert a + b == [a[0]] + b && (a + b)[1..] == b;
    } else {
      JoinConcat(a[1..], b);
      assert (a + b)[1..] == a[1..] + b;
      assert a[0] + " " + (Join(a[1..]) + " " + Join(b)) == (a[0] + " " + Join(a[1..])) + " " + Join(b);
    }
  }

  /** Nothing behind a word that stops the request is read. */
  lemma LineStops(t: Turn, a: seq<string>, b: seq<string>, space: char, rest: string)
    requires a != [] && WordsRun(t, a) && FoldWords(t, a).stopped && IsWhiteSpace(space)
    ensures Feed(t, Join(a + b) + [space] + rest) == FoldWords(t, a)
  {
    if b == [] {
      assert a + b == a;
      LineIsFold(t, a, space, rest);
    } else {
      JoinConcat(a, b);
      var more := Join(b) + [space] + rest;
      LineIsFold(t, a, ' ', more);
      assert Join(a + b) + [space] + rest == Join(a) + [' '] + more;
    }
  }

  lemma {:induction false} FoldSnoc(t: Turn, ws: seq<string>, w: string)
    requires WordsRun(t, ws) && var u := FoldWords(t, ws); !u.stopped && u.r.status != DATA && IsWord(w)
    ensures WordsRun(t, ws + [w])
    ensures var u := FoldWords(t, ws); FoldWords(t, ws + [w]) == EndOfWord(u.r.(buffer := u.r.buffer + w), u.db)
    decreases |ws|
  {
    if ws == [] {
      assert ws + [w] == [w] && [w][1..] == [];
    } else {
      assert (ws + [w])[1..] == ws[1..] + [w];
      FoldSnoc(EndOfWord(t.r.(buffer := t.r.buffer + ws[0]), t.db), ws[1..], w);
    }
  }

  // ----- numbers in a storage request

  lemma KeyIsTaken(c: Command, db: Db, name: string, key: string)
    requires (name == "set" || name == "add") && IsKey(key)
    ensures WordsRun(Go(Fresh(c), db), [name, key])
    ensures FoldWords(Go(Fresh(c), db), [name, key]) ==
            Go(Req(FLAGS, "", "", CommandFromStr(name), [key], 0, 0, 0, false), db)
  {
    var t0 := Go(Fresh(c), db);
    var t1 := Go(Fresh(CommandFromStr(name)).(status := STORAGE_KEY), db);
    var t2 := Go(t1.r.(keys := [key], status := FLAGS), db);
    WordStep(t0, name, t1);
    WordStep(t1, key, t2);
    FoldCons(t1, key, [], t2);
    FoldCons(t0, name, [key], t1);
    assert [key] + [] == [key] && [name] + [key] == [name, key];
  }

  /** One number, or the error that ends the request. */
  lemma NumberWord(r: Req, db: Db, w: string)
    requires r.status in [FLAGS, EXPTIME, NBYTES] && r.buffer == "" && IsWord(w)
    ensures !IsNumber(w) ==>
              EndOfWord(r.(buffer := r.buffer + w), db) ==
              Turn(r.(buffer := w, status := FINISHED, response := "CLIENT_ERROR stoi\r\n"), db, true)
    ensures forall v | ReadsAs(w, v) ::
              EndOfWord(r.(buffer := r.buffer + w), db) ==
              Go(match r.status
                 case FLAGS => r.(flags := v, status := EXPTIME)
                 case EXPTIME => r.(expTime := v, status := NBYTES)
                 case _ => r.(remaining := if v < 0 then v + 0x1_0000_0000_0000_0000 else v, status := NOREP), db)
  {
    hide ReadsAs, Stoi;
    assert r.buffer + w == w;
    if !IsNumber(w) {
      NoNumberIsRefused(w);
      assert "CLIENT_ERROR " + "stoi" + CRLF == "CLIENT_ERROR stoi\r\n";
    }
    forall v | ReadsAs(w, v)
      ensures Stoi(w) == Some(v) && v % SIZE_RANGE == if v < 0 then v + 0x1_0000_0000_0000_0000 else v
    {
      StoiReads(w, v);
      InIntRange(w, v);
    }
  }

  lemma InIntRange(w: string, v: int)
    requires ReadsAs(w, v)
    ensures INT_MIN <= v <= INT_MAX
  {
  }

  /** The words of the line behind the key. */
  lemma ThreeNumbers(c: Command, db: Db, name: string, key: string, f: string, e: string, d: string)
    requires (name == "set" || name == "add") && IsKey(key) && IsWord(f) && IsWord(e) && IsWord(d)
    ensures var t := Go(Fresh(c), db);
            if !IsNumber(f) then WordsRun(t, [name, key, f]) && Refused(FoldWords(t, [name, key, f]), db)
            else if !IsNumber(e) then WordsRun(t, [name, key, f, e]) && Refused(FoldWords(t, [name, key, f, e]), db)
            else
              && WordsRun(t, [name, key, f, e, d])
              && (!IsNumber(d) ==> Refused(FoldWords(t, [name, key, f, e, d]), db))
              && forall vf, ve, vd | ReadsAs(f, vf) && ReadsAs(e, ve) && ReadsAs(d, vd) ::
                   INT_MIN <= vd && FoldWords(t, [name, key, f, e, d]) == Go(Numbered(name, key, vf, ve, vd), db)
  {
    hide ReadsAs, EndOfWord, FoldWords, WordsRun;
    var t := Go(Fresh(c), db);
    KeyIsTaken(c, db, name, key);
    var r := Req(FLAGS, "", "", CommandFromStr(name), [key], 0, 0, 0, false);
    assert [name, key] + [f] == [name, key, f] && [name, key, f] + [e] == [name, key, f, e];
    assert [name, key, f, e] + [d] == [name, key, f, e, d];
    FoldSnoc(t, [name, key], f);
    NumberWord(r, db, f);
    if IsNumber(f) {
      var vf :| ReadsAs(f, vf);
      var r1 := r.(flags := vf, status := EXPTIME);
      FoldSnoc(t, [name, key, f], e);
      NumberWord(r1, db, e);
      if IsNumber(e) {
        var ve :| ReadsAs(e, ve);
        var r2 := r1.(expTime := ve, status := NBYTES);
        FoldSnoc(t, [name, key, f, e], d);
        NumberWord(r2, db, d);
        forall vf', ve', vd | ReadsAs(f, vf') && ReadsAs(e, ve') && ReadsAs(d, vd)
          ensures INT_MIN <= vd && FoldWords(t, [name, key, f, e, d]) == Go(Numbered(name, key, vf', ve', vd), db)
        {
          InIntRange(d, vd);
          OneReading(f, vf, vf');
          OneReading(e, ve, ve');
        }
      }
    }
  }

  lemma OneReading(w: string, v: int, v': int)
    requires IsWord(w) && ReadsAs(w, v) && ReadsAs(w, v')
    ensures v == v'
  {
    hide ReadsAs;
    StoiReads(w, v);
    StoiReads(w, v');
  }

  /** The request when its numbers have been read; a negative length wraps around. */
  function Numbered(name: string, key: string, flags: int, expTime: int, n: int): Req
    requires INT_MIN <= n
  {
    Req(NOREP, "", "", CommandFromStr(name), [key], flags, expTime,
        if n < 0 then n + 0x1_0000_0000_0000_0000 else n, false)
  }

  ghost predicate Refused(t: Turn, db: Db) {
    && t.stopped && t.r.status == FINISHED && t.r.response == "CLIENT_ERROR stoi\r\n" && !t.r.noReply
    && t.db == db
  }

  /** A storage request is refused, and the store left alone, if and only if its flags,
      expiry time or length is no number; otherwise all three are taken. */
  lemma StorageIsRefusedIff(c: Command, db: Db, name: string, key: string, f: string, e: string, d: string,
                            space: char, rest: string)
    requires (name == "set" || name == "add") && IsKey(key) && IsWord(f) && IsWord(e) && IsWord(d) && IsWhiteSpace(space)
    ensures var t, line := Go(Fresh(c), db), Join([name, key, f, e, d]) + [space];
            && (IsNumber(f) && IsNumber(e) && IsNumber(d) <==> !Refused(Feed(t, line), db))
            && (!(IsNumber(f) && IsNumber(e) && IsNumber(d)) ==> Refused(Feed(t, line + rest), db))
            && forall vf, ve, vd | ReadsAs(f, vf) && ReadsAs(e, ve) && ReadsAs(d, vd) ::
                 INT_MIN <= vd && Feed(t, line + rest) == Feed(Go(Numbered(name, key, vf, ve, vd), db), rest)
  {
    hide ReadsAs, Feed, Join, FoldWords, WordsRun;
    var t, line := Go(Fresh(c), db), Join([name, key, f, e, d]) + [space];
    ThreeNumbers(c, db, name, key, f, e, d);
    assert line + "" == line;
    if !IsNumber(f) {
      assert [name, key, f] + [e, d] == [name, key, f, e, d];
      LineStops(t, [name, key, f], [e, d], space, rest);
      LineStops(t, [name, key, f], [e, d], space, "");
    } else if !IsNumber(e) {
      assert [name, key, f, e] + [d] == [name, key, f, e, d];
      LineStops(t, [name, key, f, e], [d], space, rest);
      LineStops(t, [name, key, f, e], [d], space, "");
    } else {
      LineIsFold(t, [name, key, f, e, d], space, rest);
      LineIsFold(t, [name, key, f, e, d], space, "");
      NothingFed(FoldWords(t, [name, key, f, e, d]));
      if !IsNumber(d) {
        assert [name, key, f, e, d] + [] == [name, key, f, e, d];
        LineStops(t, [name, key, f, e, d], [], space, rest);
      }
      forall vf, ve, vd | ReadsAs(f, vf) && ReadsAs(e, ve) && ReadsAs(d, vd)
        ensures INT_MIN <= vd && Feed(t, line + rest) == Feed(Go(Numbered(name, key, vf, ve, vd), db), rest)
        ensures Feed(t, line) == Go(Numbered(name, key, vf, ve, vd), db)
      {
        InIntRange(d, vd);
      }
    }
  }

  lemma NothingFed(t: Turn)
    ensures Feed(t, "") == t
  {
  }

  /** An instance: a length that is no number. The store keeps what it had. */
  lemma AbcIsNoLength(c: Command, items: Items)
    ensures Refused(Feed(Go(Fresh(c), Some(items)), "set k 0 0 abc\r\n"), Some(items))
  {
    hide Feed;
    var ws := ["set", "k", "0", "0", "abc"];
    assert !IsNumber("abc") by {
      assert AfterSign("abc") == "abc";
    }
    assert Join(ws) == "set k 0 0 abc" by {
      assert ws[1..] == ["k", "0", "0", "abc"] && ws[1..][1..] == ["0", "0", "abc"];
      assert ["0", "0", "abc"][1..] == ["0", "abc"] && ["0", "abc"][1..] == ["abc"];
      assert Join(["0", "abc"]) == "0 abc" && Join(["0", "0", "abc"]) == "0 0 abc";
      assert Join(ws[1..]) == "k 0 0 abc";
    }
    assert "set k 0 0 abc" + ['\r'] + "\n" == "set k 0 0 abc\r\n";
    StorageIsRefusedIff(c, Some(items), "set", "k", "0", "0", "abc", '\r', "\n");
  }
}
