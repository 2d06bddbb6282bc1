/** How one response leaves a connection: the send thread's first attempt, then the
    write events, against a kernel that answers every send as it likes
    (my_socket.cpp, my_http_request_callback.cpp). */
module SendPath {

  const STAMPS: nat := 0x1_0000_0000_0000_0000
  const INT_RANGE: nat := 0x1_0000_0000
  const INT_LIMIT: nat := 0x8000_0000

  const BAD_REQUEST: string := "HTTP/1.1 400 Bad Request\r\n\r\n"

  /** The kernel's answer to one call of `send`. */
  datatype Reply = Took(n: nat) | WouldBlock | Interrupted | Reset | Fault

  /** What `sendproc` returns; `Waiting` when it has not returned yet. */
  datatype Outcome = Sent(n: nat) | Zero | Blocked | Broken | Failed | Waiting

  /** The parts of a connection the send path uses. `wire` is what the kernel took;
      `failed` records a close for an error. */
  datatype Link = Link(
    fd: int, gen: nat, wire: string, pending: string,
    sendCount: int, closeAfter: bool, failed: bool)

  /** `sendproc`: asks again while interrupted. The kernel takes at most what is offered. */
  function SendProc(replies: seq<Reply>, len: nat): (r: (Outcome, seq<Reply>))
    ensures |r.1| <= |replies|
    ensures r.0.Sent? ==> 0 < r.0.n <= len && |r.1| < |replies|
    decreases |replies|
  {
    if replies == [] then (Waiting, [])
    else
      var rest := replies[1..];
      match replies[0]
      case Took(n) =>
        var m := if n < len then n else len;
        if m > 0 then (Sent(m), rest) else (Zero, rest)
      case WouldBlock => (Blocked, rest)
      case Interrupted => SendProc(rest, len)
      case Reset => (Broken, rest)
      case Fault => (Failed, rest)
  }

  /** `sendCount` is an `int`, so it keeps the low 32 bits of the stamp. */
  function ToInt(stamp: nat): int {
    var low := stamp % INT_RANGE;
    if low < INT_LIMIT then low else low - INT_RANGE
  }

  /** The comparison with the 64-bit counter converts it back, sign and all. */
  function ToStamp(count: int): int {
    if count < 0 then count + STAMPS else count
  }

  /** `zdClosesocketProc`; a repeated close finds the connection waiting already. */
  function Close(l: Link, failed: bool): Link {
    if l.fd == -1 then l.(failed := l.failed || failed)
    else l.(fd := -1, gen := l.gen + 1, failed := l.failed || failed)
  }

  function Keep(l: Link, rest: string, stamp: nat): Link {
    l.(pending := l.pending + rest, sendCount := ToInt(stamp))
  }

  function SentAll(l: Link, response: string): Link {
    var l := if response == BAD_REQUEST then Close(l, false) else l;
    if l.closeAfter then Close(l, false) else l
  }

  function AfterFirst(l: Link, stamp: nat, response: string, o: Outcome): Link
    requires o.Sent? ==> o.n <= |response|
  {
    match o
    case Sent(n) =>
      var l := l.(wire := l.wire + response[..n]);
      if n == |response| then SentAll(l, response) else Keep(l, response[n..], stamp)
    case Blocked => Keep(l, response, stamp)
    case Zero => if l.pending == "" then l else Close(l.(pending := ""), true)
    case Broken => Close(l.(pending := ""), true)
    case Failed => Close(l.(pending := ""), true)
    case Waiting => l
  }

  /** The send thread with one message off its queue. */
  function FirstSend(l: Link, stamp: nat, response: string, replies: seq<Reply>): (Link, seq<Reply>) {
    if l.gen % STAMPS != stamp then (l, replies)
    else
      var (o, rest) := SendProc(replies, |response|);
      (AfterFirst(l, stamp, response, o), rest)
  }

  function Advance(l: Link, n: nat): Link
    requires n <= |l.pending|
  {
    l.(wire := l.wire + l.pending[..n], pending := l.pending[n..])
  }

  /** The write handler's loop. */
  function Flush(l: Link, replies: seq<Reply>): Link
    decreases |replies|
  {
    var (o, rest) := SendProc(replies, |l.pending|);
    match o
    case Sent(n) =>
      var l := Advance(l, n);
      if l.pending != "" then Flush(l, rest)
      else if l.closeAfter then Close(l, false)
      else l
    case Blocked => l
    case Waiting => l
    case Zero => Close(l, true)
    case Broken => Close(l, true)
    case Failed => Close(l, true)
  }

  predicate Passes(l: Link) {
    l.gen % STAMPS == ToStamp(l.sendCount)
  }

  /** A write event. */
  function WriteReady(l: Link, replies: seq<Reply>): Link {
    if l.fd == -1 || l.pending == "" || !Passes(l) then l else Flush(l, replies)
  }

  /** A write event, and whether the connection is to close after its response then. */
  datatype Event = Event(closeAfter: bool, replies: seq<Reply>)

  function After(l: Link, events: seq<Event>): Link
    decreases |events|
  {
    if events == [] then l
    else
      var e := events[0];
      After(WriteReady(l.(closeAfter := e.closeAfter), e.replies), events[1..])
  }

  // ---- Conservation ----

  /** Nothing is lost, doubled or reordered: the wire and the pending bytes make up the
      response until a close, a close without an error comes after the last byte, and
      after an error the wire has a prefix. */
  predicate Conserved(l: Link, response: string) {
    if l.fd != -1 then !l.failed && l.wire + l.pending == response
    else if !l.failed then l.wire == response && l.pending == ""
    else l.wire <= response
  }

  lemma {:induction false} FlushConserves(l: Link, replies: seq<Reply>, response: string)
    requires l.fd != -1 && l.pending != "" && Conserved(l, response)
    ensures Conserved(Flush(l, replies), response)
    decreases |replies|
  {
    var (o, rest) := SendProc(replies, |l.pending|);
    if o.Sent? {
      var next := Advance(l, o.n);
      assert l.pending == l.pending[..o.n] + l.pending[o.n..];
      assert next.wire + next.pending == l.wire + l.pending;
      if next.pending != "" {
        FlushConserves(next, rest, response);
      }
    }
  }

  lemma {:induction false} EventsConserve(l: Link, events: seq<Event>, response: string)
    requires Conserved(l, response)
    ensures Conserved(After(l, events), response)
    decreases |events|
  {
    if events != [] {
      var e := events[0];
      var m := l.(closeAfter := e.closeAfter);
      if m.fd != -1 && m.pending != "" {
        FlushConserves(m, e.replies, response);
      }
      EventsConserve(WriteReady(m, e.replies), events[1..], response);
    }
  }

  /** An open connection with nothing pending and nothing sent. */
  predicate Idle(l: Link) {
    l.fd != -1 && l.wire == "" && l.pending == "" && !l.failed
  }

  lemma FirstConserves(l: Link, response: string, o: Outcome)
    requires Idle(l) && o != Waiting && (o.Sent? ==> 0 < o.n <= |response|)
    ensures Conserved(AfterFirst(l, l.gen % STAMPS, response, o), response) <==> (o != Zero || response == "")
  {
    if o.Sent? {
      assert response[..o.n] + response[o.n..] == response;
      assert "" + response[..o.n] == response[..o.n] && "" + response[o.n..] == response[o.n..];
      if o.n == |response| {
        assert response[..o.n] == response;
      }
    } else if o.Blocked? {
      assert "" + response == response;
    }
  }

  lemma {:induction false} NothingPendingStays(l: Link, events: seq<Event>)
    requires l.pending == ""
    ensures After(l, events).wire == l.wire && After(l, events).pending == "" && After(l, events).fd == l.fd
    ensures After(l, events).failed == l.failed
    decreases |events|
  {
    if events != [] {
      var e := events[0];
      NothingPendingStays(l.(closeAfter := e.closeAfter), events[1..]);
    }
  }

  /** Whatever the kernel answers, once the first send has returned: the response is
      conserved for good, exactly when that send did not return 0 for a response that
      has bytes. In that case the code takes it for an empty send and drops it. */
  lemma ResponseConservedIff(l: Link, response: string, first: seq<Reply>, events: seq<Event>)
    requires Idle(l) && SendProc(first, |response|).0 != Waiting
    ensures var sent := FirstSend(l, l.gen % STAMPS, response, first).0;
      Conserved(After(sent, events), response) <==> (SendProc(first, |response|).0 != Zero || response == "")
  {
    var o := SendProc(first, |response|).0;
    var sent := FirstSend(l, l.gen % STAMPS, response, first).0;
    FirstConserves(l, response, o);
    if o != Zero || response == "" {
      EventsConserve(sent, events, response);
    } else {
      NothingPendingStays(l, events);
    }
  }

  /** A response sent at once closes the connection exactly if it was the error response
      or the connection is not kept; one sent in parts does not close it yet. */
  lemma FirstSendClosesIff(l: Link, response: string, n: nat)
    requires Idle(l) && 0 < n <= |response|
    ensures var sent := AfterFirst(l, l.gen % STAMPS, response, Sent(n));
      && (sent.fd == -1 <==> n == |response| && (response == "HTTP/1.1 400 Bad Request\r\n\r\n" || l.closeAfter))
      && sent.wire == response[..n] && sent.pending == response[n..]
      && sent.gen == l.gen + (if sent.fd == -1 then 1 else 0)
  {
    assert "" + response[..n] == response[..n] && "" + response[n..] == response[n..];
  }

  // ---- The narrowed stamp ----

  predicate Fits(gen: nat) {
    var stamp := gen % 0x1_0000_0000_0000_0000;
    stamp < 0x8000_0000 || stamp >= 0xffff_ffff_8000_0000
  }

  lemma NarrowedStampPassesIff(gen: nat)
    ensures gen % STAMPS == ToStamp(ToInt(gen % STAMPS)) <==> Fits(gen)
  {
  }

  lemma {:induction false} RefusedForever(l: Link, events: seq<Event>)
    requires !Passes(l)
    ensures After(l, events).wire == l.wire && After(l, events).pending == l.pending && After(l, events).fd == l.fd
    decreases |events|
  {
    if events != [] {
      var e := events[0];
      RefusedForever(l.(closeAfter := e.closeAfter), events[1..]);
    }
  }

  /** Replies that take bytes, up to interruptions. */
  predicate Taking(replies: seq<Reply>) {
    forall i :: 0 <= i < |replies| ==> replies[i].Interrupted? || (replies[i].Took? && replies[i].n > 0)
  }

  function Taken(replies: seq<Reply>): nat {
    if replies == [] then 0
    else (if replies[0].Took? then replies[0].n else 0) + Taken(replies[1..])
  }

  lemma {:induction false} TakingSends(replies: seq<Reply>, len: nat)
    requires Taking(replies) && len > 0 && Taken(replies) >= len
    ensures var (o, rest) := SendProc(replies, len);
      o.Sent? && Taking(rest) && (o.n == len || o.n + Taken(rest) >= len)
    decreases |replies|
  {
    if replies[0].Interrupted? {
      TakingSends(replies[1..], len);
    }
  }

  lemma {:induction false} FlushFinishes(l: Link, replies: seq<Reply>)
    requires l.pending != "" && Taking(replies) && Taken(replies) >= |l.pending|
    ensures Flush(l, replies).wire == l.wire + l.pending && Flush(l, replies).pending == ""
    ensures l.fd != -1 ==> (Flush(l, replies).fd == -1 <==> l.closeAfter)
    ensures l.fd != -1 ==> Flush(l, replies).failed == l.failed
    decreases |replies|
  {
    TakingSends(replies, |l.pending|);
    var (o, rest) := SendProc(replies, |l.pending|);
    var next := Advance(l, o.n);
    assert l.pending == l.pending[..o.n] + l.pending[o.n..];
    assert next.wire + next.pending == l.wire + l.pending;
    if next.pending != "" {
      FlushFinishes(next, rest);
    }
  }

  /** Bytes left by the first send go out with the next write event in which the kernel
      takes them all, exactly when the generation fits the `int` it was noted in;
      otherwise no write event ever sends any. */
  lemma PendingLeavesIff(l: Link, response: string, first: seq<Reply>, closeAfter: bool, replies: seq<Reply>,
        events: seq<Event>)
    requires Idle(l)
    requires Taking(replies)
    requires var sent := FirstSend(l, l.gen % STAMPS, response, first).0;
      sent.fd != -1 && sent.pending != "" && Taken(replies) >= |sent.pending|
    ensures var sent := FirstSend(l, l.gen % STAMPS, response, first).0;
      && (Fits(l.gen) ==> After(sent, [Event(closeAfter, replies)] + events).wire == response)
      && (!Fits(l.gen) ==> After(sent, events).wire == sent.wire && After(sent, events).pending == sent.pending)
  {
    var sent := FirstSend(l, l.gen % STAMPS, response, first).0;
    var o := SendProc(first, |response|).0;
    NarrowedStampPassesIff(l.gen);
    FirstConserves(l, response, o);
    if Fits(l.gen) {
      var m := sent.(closeAfter := closeAfter);
      FlushFinishes(m, replies);
      var all := [Event(closeAfter, replies)] + events;
      assert all[1..] == events;
      NothingPendingStays(Flush(m, replies), events);
    } else {
      RefusedForever(sent, events);
    }
  }

  // ---- The next tenancy ----

  /** Recycled and taken again: a new socket and two more generations; the send buffer is not touched. */
  function Reused(l: Link, fd: int): Link {
    l.(fd := fd, gen := l.gen + 2, wire := "", closeAfter := true, failed := false)
  }

  predicate Answered(replies: seq<Reply>, response: string) {
    var o := SendProc(replies, |response|).0;
    o != Waiting && (o != Zero || response == "")
  }

  /** Every response that the kernel does not answer with 0 is conserved for good. */
  ghost predicate ConservesAll(l: Link) {
    forall response, first, events | Answered(first, response) ::
      Conserved(After(FirstSend(l, l.gen % STAMPS, response, first).0, events), response)
  }

  /** A tenancy gets its own bytes only, if and only if nothing was pending when the one before it was closed. */
  lemma TenancySeparatedIff(l: Link, fd: int)
    requires fd != -1
    ensures ConservesAll(Reused(l, fd)) <==> l.pending == ""
  {
    var next := Reused(l, fd);
    if l.pending == "" {
      forall response, first, events | Answered(first, response)
        ensures Conserved(After(FirstSend(next, next.gen % STAMPS, response, first).0, events), response)
      {
        ResponseConservedIff(next, response, first, events);
      }
    } else {
      var sent := FirstSend(next, next.gen % STAMPS, "a", [WouldBlock]).0;
      assert SendProc([WouldBlock], 1).0 == Blocked && Answered([WouldBlock], "a");
      assert After(sent, []) == sent && |sent.wire + sent.pending| > 1;
    }
  }

  /** Then the bytes left over go out first: a partial response of the new tenancy follows them on its socket. */
  lemma OldBytesComeFirst(l: Link, fd: int, response: string, closeAfter: bool, replies: seq<Reply>)
    requires fd != -1 && response != "" && Fits(l.gen + 2)
    requires Taking(replies) && Taken(replies) >= |l.pending + response|
    ensures var sent := FirstSend(Reused(l, fd), (l.gen + 2) % STAMPS, response, [WouldBlock]).0;
            After(sent, [Event(closeAfter, replies)]).wire == l.pending + response
  {
    var sent := FirstSend(Reused(l, fd), (l.gen + 2) % STAMPS, response, [WouldBlock]).0;
    assert SendProc([WouldBlock], |response|).0 == Blocked;
    NarrowedStampPassesIff(l.gen + 2);
    FlushFinishes(sent.(closeAfter := closeAfter), replies);
    assert After(sent, [Event(closeAfter, replies)]) == Flush(sent.(closeAfter := closeAfter), replies);
    assert "" + (l.pending + response) == l.pending + response;
  }

  /** Only a close for an error in the write handler leaves bytes behind. */
  predicate LeftBehind(l: Link) { if l.fd != -1 then !l.failed else l.failed <==> l.pending != "" }

  lemma {:induction false} FlushLeaves(l: Link, replies: seq<Reply>)
    requires l.fd != -1 && l.pending != "" && !l.failed
    ensures LeftBehind(Flush(l, replies))
    decreases |replies|
  {
    var (o, rest) := SendProc(replies, |l.pending|);
    if o.Sent? && Advance(l, o.n).pending != "" {
      FlushLeaves(Advance(l, o.n), rest);
    }
  }

  lemma {:induction false} EventsLeave(l: Link, events: seq<Event>)
    requires LeftBehind(l)
    ensures LeftBehind(After(l, events))
    decreases |events|
  {
    if events != [] {
      var m := l.(closeAfter := events[0].closeAfter);
      if m.fd != -1 && m.pending != "" {
        FlushLeaves(m, events[0].replies);
      }
      EventsLeave(WriteReady(m, events[0].replies), events[1..]);
    }
  }

  /** From one tenancy to the next: after a tenancy with one response and any kernel answers, the connection closed, the
      next tenancy gets its own bytes only, if and only if the close came without an error or from the send thread. */
  lemma NextTenancyIff(l: Link, response: string, first: seq<Reply>, events: seq<Event>, fd: int)
    requires Idle(l) && SendProc(first, |response|).0 != Waiting && fd != -1
    requires After(FirstSend(l, l.gen % STAMPS, response, first).0, events).fd == -1
    ensures var sent := FirstSend(l, l.gen % STAMPS, response, first).0; var end := After(sent, events);
            ConservesAll(Reused(end, fd)) <==> !end.failed || sent.fd == -1
  {
    var sent := FirstSend(l, l.gen % STAMPS, response, first).0;
    FirstLeaves(l, response, SendProc(first, |response|).0);
    if sent.fd == -1 {
      NothingPendingStays(sent, events);
    } else {
      EventsLeave(sent, events);
    }
    TenancySeparatedIff(After(sent, events), fd);
  }

  lemma FirstLeaves(l: Link, response: string, o: Outcome)
    requires Idle(l) && (o.Sent? ==> 0 < o.n <= |response|)
    ensures var sent := AfterFirst(l, l.gen % STAMPS, response, o);
            if sent.fd == -1 then sent.pending == "" else !sent.failed
  {
  }

  // ---- Messages of other tenancies ----

  /** A message of the send queue carries the generation at which it was queued, cut to 64 bits. */
  datatype Work = Queued(gen: nat, response: string, replies: seq<Reply>) | Writable(event: Event)

  function Worked(l: Link, w: Work): Link {
    match w
    case Queued(gen, response, replies) => FirstSend(l, gen % STAMPS, response, replies).0
    case Writable(e) => WriteReady(l.(closeAfter := e.closeAfter), e.replies)
  }

  function AllWorked(l: Link, works: seq<Work>): Link
    decreases |works|
  {
    if works == [] then l else AllWorked(Worked(l, works[0]), works[1..])
  }

  /** A message with another stamp than the present one changes nothing and asks the kernel nothing. */
  lemma StaleIsSkipped(l: Link, stamp: nat, response: string, replies: seq<Reply>)
    requires stamp != l.gen % STAMPS
    ensures FirstSend(l, stamp, response, replies) == (l, replies)
  {
  }

  /** The responses queued at generation `gen`, one behind the other. */
  function OwnBytes(works: seq<Work>, gen: nat): string {
    if works == [] then ""
    else (if works[0].Queued? && works[0].gen == gen then works[0].response else "") + OwnBytes(works[1..], gen)
  }

  /** The messages queued at generation `gen`, and all write events. */
  function Own(works: seq<Work>, gen: nat): seq<Work> {
    if works == [] then []
    else (if works[0].Queued? && works[0].gen != gen then [] else [works[0]]) + Own(works[1..], gen)
  }

  /** Queued at `gen` or before, and less than 2^64 changes of status ago, the close of this tenancy included. */
  ghost predicate Recent(works: seq<Work>, gen: nat) {
    forall i {:trigger works[i]} | 0 <= i < |works| && works[i].Queued? :: works[i].gen <= gen < works[i].gen + 0xffff_ffff_ffff_ffff
  }

  /** The bytes on the wire and those pending. */
  function Bytes(l: Link): multiset<char> { multiset(l.wire) + multiset(l.pending) }

  predicate InTenancy(l: Link, gen: nat) { l.gen == if l.fd == -1 then gen + 1 else gen }

  /** The tenancy that began at generation `gen`, open or closed; its bytes all come from `bytes`. */
  ghost predicate Holding(l: Link, gen: nat, bytes: string) {
    InTenancy(l, gen) && Bytes(l) <= multiset(bytes)
  }

  lemma AdvanceBytes(l: Link, n: nat)
    requires n <= |l.pending|
    ensures Bytes(Advance(l, n)) == Bytes(l)
  {
    assert l.pending == l.pending[..n] + l.pending[n..];
  }

  lemma {:induction false} FlushBytes(l: Link, replies: seq<Reply>)
    ensures Bytes(Flush(l, replies)) == Bytes(l)
    decreases |replies|
  {
    var (o, rest) := SendProc(replies, |l.pending|);
    if o.Sent? {
      AdvanceBytes(l, o.n);
      if Advance(l, o.n).pending != "" {
        FlushBytes(Advance(l, o.n), rest);
      }
    }
  }

  lemma {:induction false} FlushStays(l: Link, replies: seq<Reply>, gen: nat)
    requires l.fd != -1 && InTenancy(l, gen)
    ensures InTenancy(Flush(l, replies), gen)
    decreases |replies|
  {
    var (o, rest) := SendProc(replies, |l.pending|);
    if o.Sent? && Advance(l, o.n).pending != "" {
      FlushStays(Advance(l, o.n), rest, gen);
    }
  }

  lemma FlushHolds(l: Link, replies: seq<Reply>, gen: nat, bytes: string)
    requires l.fd != -1 && Holding(l, gen, bytes)
    ensures Holding(Flush(l, replies), gen, bytes)
  {
    FlushBytes(l, replies);
    FlushStays(l, replies, gen);
  }

  lemma SplitBytes(wire: string, pending: string, response: string, n: nat)
    requires n <= |response|
    ensures multiset(wire + response[..n]) + multiset(pending + response[n..])
         == multiset(wire) + multiset(pending) + multiset(response)
  {
    assert response == response[..n] + response[n..];
  }

  lemma SentAllBytes(l: Link, response: string)
    ensures Bytes(SentAll(l, response)) == Bytes(l)
  {
  }

  lemma SentBytes(l: Link, stamp: nat, response: string, n: nat)
    requires 0 < n <= |response|
    ensures Bytes(AfterFirst(l, stamp, response, Sent(n))) == Bytes(l) + multiset(response)
  {
    SplitBytes(l.wire, l.pending, response, n);
    if n == |response| {
      assert l.pending + response[n..] == l.pending;
      SentAllBytes(l.(wire := l.wire + response[..n]), response);
    }
  }

  lemma FewerBytes(l: Link, response: string)
    ensures multiset(l.wire) + multiset("") <= Bytes(l) + multiset(response) && Bytes(l) <= Bytes(l) + multiset(response)
  {
  }

  /** What the wire and the pending bytes hold after a first send: at most what they held, and the response. */
  lemma FirstBytes(l: Link, stamp: nat, response: string, o: Outcome)
    requires o.Sent? ==> 0 < o.n <= |response|
    ensures Bytes(AfterFirst(l, stamp, response, o)) <= Bytes(l) + multiset(response)
  {
    match o
    case Sent(n) => SentBytes(l, stamp, response, n);
    case Blocked =>
      SplitBytes(l.wire, l.pending, response, 0);
      assert l.wire + response[..0] == l.wire && response[0..] == response;
    case _ => FewerBytes(l, response);
  }

  lemma BagsAdd(x: multiset<char>, a: multiset<char>, bytes: string, response: string)
    requires a <= multiset(bytes) && x <= a + multiset(response)
    ensures x <= multiset(bytes + response)
  {
    assert multiset(bytes + response) == multiset(bytes) + multiset(response);
  }

  lemma FirstGeneration(l: Link, stamp: nat, response: string, o: Outcome)
    requires l.fd != -1 && (o.Sent? ==> 0 < o.n <= |response|)
    ensures var sent := AfterFirst(l, stamp, response, o); sent.gen == if sent.fd == -1 then l.gen + 1 else l.gen
  {
  }

  lemma FirstHolds(l: Link, response: string, replies: seq<Reply>, gen: nat, bytes: string)
    requires l.fd != -1 && Holding(l, gen, bytes)
    ensures Holding(FirstSend(l, l.gen % STAMPS, response, replies).0, gen, bytes + response)
  {
    var stamp, o := l.gen % STAMPS, SendProc(replies, |response|).0;
    FirstBytes(l, stamp, response, o);
    FirstGeneration(l, stamp, response, o);
    BagsAdd(Bytes(AfterFirst(l, stamp, response, o)), Bytes(l), bytes, response);
  }

  lemma OtherStamp(l: Link, gen: nat, queued: nat)
    requires l.gen == (if l.fd == -1 then gen + 1 else gen) && queued <= gen < queued + STAMPS - 1
    ensures queued % STAMPS == l.gen % STAMPS <==> l.fd != -1 && queued == gen
  {
    var d := l.gen - queued;
    assert 0 <= d < STAMPS;
  }

  lemma WorkHolds(l: Link, w: Work, gen: nat, bytes: string)
    requires Holding(l, gen, bytes) && (w.Queued? ==> w.gen <= gen < w.gen + STAMPS - 1)
    ensures Holding(Worked(l, w), gen, bytes + OwnBytes([w], gen))
    ensures w.Queued? && w.gen != gen ==> Worked(l, w) == l
  {
    assert [w][1..] == [];
    match w
    case Queued(queued, response, replies) =>
      OtherStamp(l, gen, queued);
      if queued % STAMPS == l.gen % STAMPS {
        FirstHolds(l, response, replies, gen, bytes);
      }
    case Writable(e) =>
      var m := l.(closeAfter := e.closeAfter);
      if m.fd != -1 && m.pending != "" && Passes(m) {
        FlushHolds(m, e.replies, gen, bytes);
      }
  }

  lemma {:induction false} WorksHold(l: Link, works: seq<Work>, gen: nat, bytes: string)
    requires Holding(l, gen, bytes) && Recent(works, gen)
    ensures Holding(AllWorked(l, works), gen, bytes + OwnBytes(works, gen))
    decreases |works|
  {
    if works == [] {
      assert bytes + "" == bytes;
    } else {
      var w, rest := works[0], works[1..];
      WorkHolds(l, w, gen, bytes);
      WorksHold(Worked(l, w), rest, gen, bytes + OwnBytes([w], gen));
      assert works == [w] + rest;
      OneWork(w, rest, gen);
      BytesJoin(bytes, OwnBytes([w], gen), OwnBytes(rest, gen));
    }
  }

  lemma WorkStays(l: Link, w: Work, gen: nat)
    requires InTenancy(l, gen) && (w.Queued? ==> w.gen <= gen < w.gen + STAMPS - 1)
    ensures InTenancy(Worked(l, w), gen)
    ensures w.Queued? && w.gen != gen ==> Worked(l, w) == l
  {
    assert multiset(l.wire + l.pending) == Bytes(l);
    WorkHolds(l, w, gen, l.wire + l.pending);
  }

  lemma {:induction false} OthersUnnoticed(l: Link, works: seq<Work>, gen: nat)
    requires InTenancy(l, gen) && Recent(works, gen)
    ensures AllWorked(l, works) == AllWorked(l, Own(works, gen))
    decreases |works|
  {
    if works != [] {
      var w, rest := works[0], works[1..];
      WorkStays(l, w, gen);
      OthersUnnoticed(Worked(l, w), rest, gen);
      FirstOwn(works, gen);
      if !(w.Queued? && w.gen != gen) {
        FirstWorked(l, w, Own(rest, gen));
      }
    }
  }

  lemma FirstOwn(works: seq<Work>, gen: nat)
    requires works != []
    ensures var w, rest := works[0], works[1..];
            Own(works, gen) == if w.Queued? && w.gen != gen then Own(rest, gen) else [w] + Own(rest, gen)
  {
  }

  lemma FirstWorked(l: Link, w: Work, rest: seq<Work>)
    ensures AllWorked(l, [w] + rest) == AllWorked(Worked(l, w), rest)
  {
    assert ([w] + rest)[1..] == rest;
  }

  lemma OneWork(w: Work, rest: seq<Work>, gen: nat)
    ensures OwnBytes([w] + rest, gen) == OwnBytes([w], gen) + OwnBytes(rest, gen)
  {
    assert ([w] + rest)[1..] == rest && [w][1..] == [];
  }

  lemma BytesJoin(a: string, b: string, c: string)
    ensures a + b + c == a + (b + c)
  {
  }

  /** A tenancy gets no byte of another: after a close with nothing pending, over any messages queued in this tenancy or an
      earlier one, and any write events and kernel answers, the bytes on the wire and those pending all come from responses
      queued in this tenancy, none of them twice; and all is as if no other message had been there. */
  lemma TenancyGetsItsOwn(l: Link, fd: int, works: seq<Work>)
    requires fd != -1 && l.pending == "" && Recent(works, l.gen + 2)
    ensures var next := Reused(l, fd); var end := AllWorked(next, works);
      && Bytes(end) <= multiset(OwnBytes(works, next.gen))
      && end == AllWorked(next, Own(works, next.gen))
  {
    WorksHold(Reused(l, fd), works, l.gen + 2, "");
    OthersUnnoticed(Reused(l, fd), works, l.gen + 2);
    assert "" + OwnBytes(works, l.gen + 2) == OwnBytes(works, l.gen + 2);
  }

  // ---- Where a write event stops ----

  /** The write handler sends what the kernel takes until an answer stops it: `WouldBlock` leaves the rest pending on the
      open connection, any other closes it for an error. */
  lemma {:induction false} FlushStopsAt(l: Link, taking: seq<Reply>, stop: Reply, rest: seq<Reply>)
    requires l.fd != -1 && l.pending != "" && Taking(taking) && Taken(taking) < |l.pending| && Stops(stop)
    ensures StoppedAt(l, Flush(l, taking + [stop] + rest), Taken(taking), stop)
    decreases |taking|
  {
    if taking == [] {
      FlushStops(l, [stop] + rest);
      assert [] + [stop] + rest == [stop] + rest;
    } else {
      var more := taking[1..] + [stop] + rest;
      assert taking + [stop] + rest == [taking[0]] + more;
      FlushFirst(l, taking[0], more);
      if taking[0].Interrupted? {
        FlushStopsAt(l, taking[1..], stop, rest);
      } else {
        FlushStopsAt(Advance(l, taking[0].n), taking[1..], stop, rest);
        StopLater(l, taking[0].n, Flush(Advance(l, taking[0].n), more), Taken(taking[1..]), stop);
      }
    }
  }

  lemma FlushStops(l: Link, replies: seq<Reply>)
    requires l.fd != -1 && l.pending != "" && replies != [] && Stops(replies[0])
    ensures StoppedAt(l, Flush(l, replies), 0, replies[0])
  {
  }

  lemma FlushFirst(l: Link, first: Reply, more: seq<Reply>)
    ensures first.Interrupted? ==> Flush(l, [first] + more) == Flush(l, more)
    ensures first.Took? && 0 < first.n < |l.pending| ==> Flush(l, [first] + more) == Flush(Advance(l, first.n), more)
  {
    assert ([first] + more)[1..] == more;
  }

  predicate Stops(stop: Reply) { stop == WouldBlock || stop == Reset || stop == Fault || stop == Took(0) }

  /** `n` pending bytes have gone out, and the answer `stop` has come. */
  predicate StoppedAt(l: Link, end: Link, n: nat, stop: Reply) {
    && n <= |l.pending| && end.wire == l.wire + l.pending[..n] && end.pending == l.pending[n..]
    && (if stop == WouldBlock then end.fd == l.fd && end.gen == l.gen && end.failed == l.failed
        else end.fd == -1 && end.gen == l.gen + 1 && end.failed)
  }

  lemma StopLater(l: Link, n: nat, end: Link, k: nat, stop: Reply)
    requires n <= |l.pending| && StoppedAt(Advance(l, n), end, k, stop)
    ensures StoppedAt(l, end, n + k, stop)
  {
    TwoSlices(l.pending, n, k);
  }

  lemma TwoSlices(s: string, n: nat, k: nat)
    requires n + k <= |s|
    ensures s[..n] + s[n..][..k] == s[..n + k] && s[n..][k..] == s[n + k..]
  {
  }

  // ---- What the first answer does ----

  predicate Interruptions(replies: seq<Reply>) { forall i :: 0 <= i < |replies| ==> replies[i].Interrupted? }

  lemma {:induction false} SendProcStops(interruptions: seq<Reply>, stop: Reply, rest: seq<Reply>, len: nat)
    requires Interruptions(interruptions) && !stop.Interrupted?
    ensures SendProc(interruptions + [stop] + rest, len) == (SendProc([stop], len).0, rest)
    decreases |interruptions|
  {
    var all := interruptions + [stop] + rest;
    if interruptions == [] {
      assert all[0] == stop && all[1..] == rest;
    } else {
      assert all[0] == interruptions[0] && all[1..] == interruptions[1..] + [stop] + rest;
      SendProcStops(interruptions[1..], stop, rest, len);
    }
  }

  /** The send thread with a message of this tenancy, by the first answer that is no interruption. What the kernel takes goes
      out and the rest joins the pending bytes; a full kernel leaves all of it to them. An error closes the connection and
      drops what was pending, and so does an answer of 0 when something was. */
  lemma FirstStopsAt(l: Link, response: string, interruptions: seq<Reply>, stop: Reply, rest: seq<Reply>)
    requires l.fd != -1 && response != "" && Interruptions(interruptions) && !stop.Interrupted?
    ensures var (end, left) := FirstSend(l, l.gen % STAMPS, response, interruptions + [stop] + rest);
      && left == rest
      && match stop
         case Took(n) =>
           if n >= |response| then end.wire == l.wire + response && end.pending == l.pending && !(end.failed && !l.failed)
           else if n > 0 then
             end.wire == l.wire + response[..n] && end.pending == l.pending + response[n..] && end.fd == l.fd
           else if l.pending == "" then end == l
           else ClosedClean(l, end)
         case WouldBlock => end.wire == l.wire && end.pending == l.pending + response && end.fd == l.fd && !(end.failed && !l.failed)
         case _ => ClosedClean(l, end)
  {
    SendProcStops(interruptions, stop, rest, |response|);
    assert response[..|response|] == response;
  }

  /** Closed for an error, with nothing pending any more. */
  predicate ClosedClean(l: Link, end: Link) {
    end.fd == -1 && end.gen == l.gen + 1 && end.failed && end.pending == "" && end.wire == l.wire
  }
}
