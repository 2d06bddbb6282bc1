/** The send path as the source runs it, on a connection whose unsent bytes are in a
    `Buffer`; each method is proved equal to its function in `SendPath`. */
module SendObjects {
  import opened Buffers
  import S = SendPath

  class Connection {
    var fd: int
    var gen: nat
    var sendCount: int
    var closeAfter: bool
    const psendbuf: Buffer

    /** What the kernel has taken from this connection, and whether an error closed it. */
    ghost var wire: string
    ghost var failed: bool

    ghost predicate Valid()
      reads this, psendbuf
    {
      psendbuf.Valid()
    }

    ghost function View(): S.Link
      requires Valid()
      reads this, psendbuf, psendbuf.data
    {
      S.Link(fd, gen, wire, psendbuf.Contents(), sendCount, closeAfter, failed)
    }

    constructor (fd: int, gen: nat)
      ensures Valid() && fresh(psendbuf) && fresh(psendbuf.data)
      ensures View() == S.Link(fd, gen, "", "", 0, true, false)
    {
      this.fd, this.gen, sendCount, closeAfter := fd, gen, 0, true;
      psendbuf := new Buffer();
      wire, failed := "", false;
    }

    /** `zdClosesocketProc`, as far as this connection's fields go. */
    method Close(ghost error: bool)
      requires Valid()
      modifies this
      ensures Valid() && View() == S.Close(old(View()), error)
    {
      if fd != -1 {
        fd := -1;
        gen := gen + 1;
      }
      failed := failed || error;
    }

    /** `sendproc`: `send` again while it is interrupted. */
    method SendProc(bytes: string, replies: seq<S.Reply>) returns (o: S.Outcome, rest: seq<S.Reply>)
      modifies `wire
      ensures (o, rest) == S.SendProc(replies, |bytes|)
      ensures wire == if o.Sent? then old(wire) + bytes[..o.n] else old(wire)
    {
      rest := replies;
      while rest != []
        invariant S.SendProc(rest, |bytes|) == S.SendProc(replies, |bytes|)
        invariant wire == old(wire)
        decreases |rest|
      {
        var reply := rest[0];
        rest := rest[1..];
        match reply
        case Took(n) =>
          var m := if n < |bytes| then n else |bytes|;
          wire := wire + bytes[..m];
          return if m > 0 then S.Sent(m) else S.Zero, rest;
        case WouldBlock => return S.Blocked, rest;
        case Interrupted =>
        case Reset => return S.Broken, rest;
        case Fault => return S.Failed, rest;
      }
      o := S.Waiting;
    }

    method Keep(tmp: Buffer, stamp: nat)
      requires Valid() && tmp.Valid() && tmp != psendbuf && tmp.data != psendbuf.data
      modifies this, psendbuf, psendbuf.data
      ensures Valid() && View() == S.Keep(old(View()), old(tmp.Contents()), stamp)
      ensures psendbuf.data == old(psendbuf.data) || fresh(psendbuf.data)
    {
      var rest := tmp.Peek();
      psendbuf.Append(rest);
      sendCount := S.ToInt(stamp);
    }

    /** After the whole response: an error response and a non-persistent connection end in a close. */
    method AllSent(response: string)
      requires Valid()
      modifies this
      ensures Valid() && View() == S.SentAll(old(View()), response)
    {
      if response == S.BAD_REQUEST {
        Close(false);
      }
      if closeAfter {
        Close(false);
      }
    }

    /** One message in `ServerSendQueueThread`. */
    method FirstSend(response: string, stamp: nat, replies: seq<S.Reply>) returns (rest: seq<S.Reply>)
      requires Valid()
      modifies this, psendbuf, psendbuf.data
      ensures Valid() && (View(), rest) == S.FirstSend(old(View()), stamp, response, replies)
    {
      if gen % S.STAMPS != stamp {
        return replies;
      }
      var tmp := new Buffer();
      tmp.Append(response);
      assert tmp.Contents() == response;
      var bytes := tmp.Peek();
      var o: S.Outcome;
      o, rest := SendProc(bytes, replies);
      match o
      case Sent(n) =>
        if n == tmp.ReadableBytes() {
          tmp.RetrieveAll();
          assert response[..n] == response;
          AllSent(response);
        } else {
          tmp.Retrieve(n);
          Keep(tmp, stamp);
        }
      case Blocked =>
        Keep(tmp, stamp);
      case Zero =>
        if psendbuf.ReadableBytes() > 0 {
          psendbuf.RetrieveAll();
          Close(true);
        }
      case Broken =>
        psendbuf.RetrieveAll();
        Close(true);
      case Failed =>
        psendbuf.RetrieveAll();
        Close(true);
      case Waiting =>
    }

    /** `ngx_http_write_response_handler`. */
    method WriteReady(replies: seq<S.Reply>)
      requires Valid()
      modifies this, psendbuf
      ensures Valid() && View() == S.WriteReady(old(View()), replies)
    {
      if fd == -1 || psendbuf.ReadableBytes() == 0 || gen % S.STAMPS != S.ToStamp(sendCount) {
        return;
      }
      var rest := replies;
      while true
        invariant Valid() && psendbuf.data == old(psendbuf.data)
        invariant S.Flush(View(), rest) == S.Flush(old(View()), replies)
        decreases |rest|
      {
        var bytes := psendbuf.Peek();
        var o: S.Outcome;
        o, rest := SendProc(bytes, rest);
        match o
        case Sent(n) =>
          psendbuf.Retrieve(n);
          if psendbuf.ReadableBytes() == 0 {
            if closeAfter {
              Close(false);
            }
            return;
          }
        case Blocked => return;
        case Waiting => return;
        case Zero => Close(true); return;
        case Broken => Close(true); return;
        case Failed => Close(true); return;
      }
    }
  }
}
