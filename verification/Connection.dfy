/** The connection object: callbacks that drive and reset its request, one read or
    one write at a time. Each callback is a step of ConnectionSpec. */
module Connection {
  import opened Options
  import opened RequestSpec
  import opened ConnectionSpec
  import R = Request

  class Connection {
    const request: R.Request
    var reading: nat     // asynchronous reads outstanding
    var writing: nat     // asynchronous writes outstanding
    var sent: string     // what the completed writes put on the socket
    var open: bool

    ghost function View(): Conn
      reads this, request, request.store
    {
      Conn(request.View(), request.StoreView(), request.maxBytes, reading, writing, sent, open)
    }

    /** At most one operation is outstanding, and only a finished request is answered. */
    ghost predicate Valid()
      reads this, request, request.store
    {
      && request.Unlocked()
      && reading + writing <= 1
      && (writing > 0 ==> request.status == FINISHED)
    }

    constructor (store: R.Store?, maxBytes: nat)
      requires store != null ==> !store.locked
      ensures Valid() && fresh(request) && request.store == store
      ensures exists c :: View() == Conn(Fresh(c), if store == null then None else Some(store.items), maxBytes, 0, 0, "", true)
    {
      request := new R.Request(store, maxBytes);
      reading, writing, sent, open := 0, 0, "", true;
      new;
      ghost var c :| request.View() == Fresh(c);
      assert View() == Conn(Fresh(c), if store == null then None else Some(store.items), maxBytes, 0, 0, "", true);
    }

    method Start()
      requires Valid() && reading + writing == 0
      modifies this
      ensures Valid() && View() == ConnectionSpec.DoRead(old(View()))
    {
      DoRead();
    }

    method DoRead()
      requires Valid() && reading + writing == 0
      modifies this
      ensures Valid() && View() == ConnectionSpec.DoRead(old(View()))
    {
      reading := reading + 1;
    }

    method DoWrite()
      requires Valid() && reading + writing == 0 && request.status == FINISHED
      modifies this
      ensures Valid() && View() == ConnectionSpec.DoWrite(old(View()))
    {
      writing := writing + 1;
    }

    method Stop()
      requires Valid()
      modifies this
      ensures Valid() && View() == ConnectionSpec.Stop(old(View()))
    {
      open := false;
    }

    /** The read callback without an error. */
    method OnRead(chunk: string)
      requires Valid() && ConnectionSpec.Enabled(View(), ReadDone(chunk))
      modifies this, request, request.store
      ensures Valid() && View() == ConnectionSpec.Step(old(View()), ReadDone(chunk))
    {
      reading := reading - 1;
      request.Process(chunk);
      if request.status == FINISHED {
        if request.noReply {
          request.Reset();
          Start();
        } else {
          DoWrite();
        }
      } else if request.status == QUITTING {
        Stop();
      } else {
        DoRead();
      }
    }

    method OnReadFailed(aborted: bool)
      requires Valid() && ConnectionSpec.Enabled(View(), ReadFailed(aborted))
      modifies this
      ensures Valid() && View() == ConnectionSpec.Step(old(View()), ReadFailed(aborted))
    {
      reading := reading - 1;
      if !aborted {
        Stop();
      }
    }

    /** The write callback without an error: the whole response is on the socket. */
    method OnWrite()
      requires Valid() && ConnectionSpec.Enabled(View(), WriteDone)
      modifies this, request
      ensures Valid() && View() == ConnectionSpec.Step(old(View()), WriteDone)
    {
      writing := writing - 1;
      var response := request.GetResponse();
      sent := sent + response.value;
      request.Reset();
      Start();
    }

    method OnWriteFailed(aborted: bool, wrote: nat)
      requires Valid() && ConnectionSpec.Enabled(View(), WriteFailed(aborted, wrote))
      modifies this
      ensures Valid() && View() == ConnectionSpec.Step(old(View()), WriteFailed(aborted, wrote))
    {
      writing := writing - 1;
      sent := sent + request.response[..wrote];
      if !aborted {
        Stop();
      }
    }
  }
}
