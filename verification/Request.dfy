/** The request object and the store it works on, in the form of the source: fields
    updated byte by byte. Every method is proved against RequestSpec. */
module Request {
  import opened Options
  import opened Numerals
  import opened RequestSpec

  /** What a store operation reports. */
  datatype StoreStatus = StoreStatus(ok: bool, isNotFound: bool, msg: string)

  /** The store, as an ideal map whose operations do not fail. */
  class Store {
    var items: Items
    var locked: bool

    constructor ()
      ensures items == map[] && !locked
    {
      items, locked := map[], false;
    }

    method Get(key: string) returns (status: StoreStatus, value: string)
      ensures status.ok <==> key in items
      ensures status.isNotFound <==> key !in items
      ensures key in items ==> value == items[key]
    {
      if key in items {
        return StoreStatus(true, false, ""), items[key];
      }
      return StoreStatus(false, true, ""), "";
    }

    method Put(key: string, value: string) returns (status: StoreStatus)
      modifies this
      ensures items == old(items)[key := value] && locked == old(locked)
      ensures status.ok
    {
      items := items[key := value];
      status := StoreStatus(true, false, "");
    }

    method Del(key: string) returns (status: StoreStatus)
      modifies this
      ensures items == old(items) - {key} && locked == old(locked)
      ensures status.ok
    {
      items := items - {key};
      status := StoreStatus(true, false, "");
    }

    method Lock()
      requires !locked
      modifies this
      ensures locked && items == old(items)
    {
      locked := true;
    }

    method Unlock()
      requires locked
      modifies this
      ensures !locked && items == old(items)
    {
      locked := false;
    }
  }

  /** How one byte of input ended: go on, return, or throw. */
  datatype Ending = Continue | Return | Throw(what: string)

  class Request {
    const store: Store?
    const maxBytes: nat
    var status: Status
    var buffer: string
    var response: string
    var command: Command
    var keys: seq<string>
    var flags: int
    var expTime: int
    var remaining: nat
    var noReply: bool

    ghost function View(): Req
      reads this
    {
      Req(status, buffer, response, command, keys, flags, expTime, remaining, noReply)
    }

    ghost function StoreView(): Db
      reads this, store
    {
      if store == null then None else Some(store.items)
    }

    ghost predicate Unlocked()
      reads this, store
    {
      store != null ==> !store.locked
    }

    /** The command is left as it was allocated. */
    constructor (store: Store?, maxBytes: nat)
      ensures exists c :: View() == Fresh(c)
      ensures this.store == store && this.maxBytes == maxBytes
    {
      this.store := store;
      this.maxBytes := maxBytes;
      status := COMMAND;
      buffer := "";
      response := "";
      keys := [];
      flags := 0;
      expTime := 0;
      remaining := 0;
      noReply := false;
      command := *;
      new;
      assert View() == Fresh(command);
    }

    method Reset()
      modifies this
      ensures View() == Fresh(NONE)
    {
      status := COMMAND;
      command := NONE;
      keys := [];
      flags := 0;
      expTime := 0;
      remaining := 0;
      noReply := false;
      buffer := "";
      response := "";
    }

    /** None where the source throws because the request is not finished. */
    method GetResponse() returns (r: Option<string>)
      ensures r == if status == FINISHED then Some(response) else None
    {
      if status != FINISHED {
        return None;
      }
      return Some(response);
    }

    method PrepareResponse()
      requires Unlocked()
      modifies this, store
      ensures Unlocked()
      ensures var t := Prepare(old(View()), old(StoreView())); View() == t.r && StoreView() == t.db
    {
      if command == PING {
        response := "PONG\r\n";
        status := FINISHED;
        return;
      }
      if store == null {
        response := "ERROR The server isn't configured with a database\r\n";
        status := FINISHED;
        return;
      }
      if |keys| == 0 {
        response := "ERROR No key was found in request\r\n";
        status := FINISHED;
        return;
      }
      if command == DELETE {
        response := Delete();
      } else if command == ADD {
        response := Add();
      } else if command == SET {
        var put := store.Put(keys[0], buffer);
        response := if put.ok then "STORED\r\n" else "ERROR " + put.msg + CRLF;
      } else if command == GET || command == GETS {
        response := Retrieve();
      } else {
        response := "ERROR unsupported command\r\n";
      }
      status := FINISHED;
    }

    method Delete() returns (text: string)
      requires store != null && keys != []
      modifies store
      ensures store.locked == old(store.locked)
      ensures Reply(text, store.items) == Execute(DELETE, keys, buffer, old(store.items))
    {
      var found, _ := store.Get(keys[0]);
      if !found.ok {
        return "NOT_FOUND\r\n";
      }
      var deleted := store.Del(keys[0]);
      text := if deleted.ok then "DELETED\r\n" else "ERROR " + deleted.msg + CRLF;
    }

    method Add() returns (text: string)
      requires store != null && keys != [] && !store.locked
      modifies store
      ensures !store.locked
      ensures Reply(text, store.items) == Execute(ADD, keys, buffer, old(store.items))
    {
      store.Lock();
      var found, _ := store.Get(keys[0]);
      if !found.ok {
        if found.isNotFound {
          var put := store.Put(keys[0], buffer);
          text := if put.ok then "STORED\r\n" else "ERROR " + put.msg + CRLF;
        } else {
          text := "ERROR " + found.msg + CRLF;
        }
      } else {
        text := "NOT_STORED\r\n";
      }
      store.Unlock();
    }

    method Retrieve() returns (text: string)
      requires store != null && keys != []
      ensures text == Frames(keys, store.items) + "END\r\n"
    {
      text := "";
      for i := 0 to |keys|
        invariant text == Frames(keys[..i], store.items)
      {
        var found, value := store.Get(keys[i]);
        assert keys[..i + 1][..i] == keys[..i];
        if found.ok {
          text := text + "VALUE " + keys[i] + " 0 " + Decimal(|value|) + CRLF;
          text := text + value + CRLF;
          assert text == Frames(keys[..i], store.items) + Frame(keys[i], value);
        }
      }
      assert keys[..|keys|] == keys;
      text := text + "END\r\n";
    }

    /** The body of the loop over the input. */
    method ConsumeByte(c: char) returns (e: Ending)
      requires Unlocked()
      modifies this, store
      ensures Unlocked()
      ensures var t := Consume(old(View()), old(StoreView()), c);
              && StoreView() == t.db
              && match e
                 case Continue => !t.stopped && View() == t.r
                 case Return => t.stopped && View() == t.r
                 case Throw(what) => t.stopped && Fail(View(), StoreView(), what) == t
    {
      hide Execute, Stoi;
      if status == DATA {
        if remaining > 0 {
          remaining := remaining - 1;
          buffer := buffer + [c];
          return Continue;
        }
        PrepareResponse();
        return Return;
      }
      if !IsWhiteSpace(c) {
        buffer := buffer + [c];
        return Continue;
      }
      match status {
        case COMMAND => e := EndCommand();
        case DELETE_KEY => e := EndKey(NOREP);
        case STORAGE_KEY => e := EndKey(FLAGS);
        case FLAGS =>
          var v := Stoi(buffer);
          if v.None? {
            return Throw("stoi");
          }
          flags, buffer, status := v.value, "", EXPTIME;
          e := Continue;
        case EXPTIME =>
          var v := Stoi(buffer);
          if v.None? {
            return Throw("stoi");
          }
          expTime, buffer, status := v.value, "", NBYTES;
          e := Continue;
        case NBYTES =>
          var v := Stoi(buffer);
          if v.None? {
            return Throw("stoi");
          }
          remaining, buffer, status := v.value % SIZE_RANGE, "", NOREP;
          e := Continue;
        case NOREP =>
          if buffer == "noreply" {
            buffer, noReply, status := "", true, NOREP;
            return Continue;
          }
          if remaining > 0 {
            status := DATA;
            return Continue;
          }
          PrepareResponse();
          e := Return;
        case RETRIEVAL_KEY => e := EndRetrievalKey();
        case RETRIEVAL_KEYS => e := EndRetrievalKey();
        case _ => e := Continue;
      }
    }

    method EndCommand() returns (e: Ending)
      requires Unlocked() && status == COMMAND
      modifies this, store
      ensures Unlocked()
      ensures var t := EndOfWord(old(View()), old(StoreView()));
              && StoreView() == t.db
              && match e
                 case Continue => !t.stopped && View() == t.r
                 case Return => t.stopped && View() == t.r
                 case Throw(what) => t.stopped && Fail(View(), StoreView(), what) == t
    {
      command := CommandFromStr(buffer);
      buffer := "";
      var next := StatusFromCommand(command);
      if next.None? {
        return Throw("unsupported command");
      }
      status := next.value;
      if status == FINISHED {
        PrepareResponse();
        return Return;
      }
      e := Continue;
    }

    method EndKey(next: Status) returns (e: Ending)
      modifies this
      ensures var t := TakeKey(old(View()), old(StoreView()), next);
              && match e
                 case Continue => !t.stopped && View() == t.r
                 case Return => false
                 case Throw(what) => t.stopped && Fail(View(), StoreView(), what) == t
      ensures StoreView() == old(StoreView())
    {
      if |buffer| == 0 {
        return Throw("invalid key");
      }
      keys, buffer, status := keys + [buffer], "", next;
      e := Continue;
    }

    method EndRetrievalKey() returns (e: Ending)
      requires Unlocked()
      modifies this, store
      ensures Unlocked()
      ensures var t := RetrievalWord(old(View()), old(StoreView()));
              && View() == t.r && StoreView() == t.db
              && e == if t.stopped then Return else Continue
    {
      if |buffer| == 0 {
        PrepareResponse();
        return Return;
      }
      keys, buffer := keys + [buffer], "";
      e := Continue;
    }

    method CatchError(what: string)
      modifies this
      ensures View() == Fail(old(View()), old(StoreView()), what).r && StoreView() == old(StoreView())
    {
      status := FINISHED;
      response := "CLIENT_ERROR " + what + CRLF;
    }

    /** Take a chunk of input of any length. */
    method Process(data: string)
      requires Unlocked()
      modifies this, store
      ensures Unlocked()
      ensures var t := RequestSpec.Process(old(View()), old(StoreView()), maxBytes, data);
              View() == t.r && StoreView() == t.db
    {
      hide Execute, Prepare, EndOfWord, Consume;
      if maxBytes > 0 && |data| + |buffer| >= maxBytes {
        CatchError("request size exceeded max bytes");
        return;
      }
      ghost var whole := Feed(Go(View(), StoreView()), data);
      var i := 0;
      while i < |data|
        invariant 0 <= i <= |data| && Unlocked()
        invariant Feed(Go(View(), StoreView()), data[i..]) == whole
      {
        var e := ConsumeByte(data[i]);
        assert data[i..][1..] == data[i + 1..];
        match e {
          case Continue => i := i + 1;
          case Return => return;
          case Throw(what) =>
            CatchError(what);
            return;
        }
      }
    }
  }
}
