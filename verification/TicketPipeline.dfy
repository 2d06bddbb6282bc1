/** The ticketed worker pipeline: the epoll thread stamps every received fragment with a per-connection ticket and
    puts it on the receive queue; any number of workers take messages off and put the fragments back in order.

    The receive queue is first in, first out (module QueueTheorems). A wait is passable exactly when its predicate
    holds, and parsing does not throw. Waits that run out and further tenancies are events of module TicketReuse, the
    handling of a request and the reset of its context of module ContextUse. `index` and `counted` are history: the
    unbounded ticket numbers, of which the code keeps the low 32 bits. */
module TicketPipeline {

  type Conn = nat
  type Worker = nat

  const TICKETS: nat := 0x1_0000_0000  // `uint sequence`

  datatype Message<F> = Message(conn: Conn, gen: nat, ticket: nat, fragment: F, index: nat)

  /** What a worker does next with the message it holds. */
  datatype Stage<F> =
    | Free
    | Checking(msg: Message<F>)  // compares iCurrsequence
    | Waiting(msg: Message<F>)   // waits until its ticket is the expected one
    | Parsing(msg: Message<F>)   // inside parseRequest
    | Counting(msg: Message<F>)  // about to do context_->sequence++

  /** One connection: its generation, the next ticket to give out, the ticket its context expects; and the histories
      of the fragments received and parsed. */
  datatype Line<F> = Line(gen: nat, nextTicket: nat, expected: nat, closed: bool, received: seq<F>, parsed: seq<F>, counted: nat)

  datatype State<F> = State(lines: map<Conn, Line<F>>, queue: seq<Message<F>>, workers: seq<Stage<F>>)

  datatype Event<F> =
    | Receive(c: Conn, fragment: F)  // ngx_http_read_request_handler with n > 0
    | Close(c: Conn)                 // ends the tenancy: the generation moves on
    | Take(w: Worker)                // TryDequeue succeeds
    | Move(w: Worker)                // the next step of a worker that holds a message

  function Init<F>(conns: set<Conn>, workers: nat): State<F> {
    State(map c | c in conns :: Line(1, 0, 0, false, [], [], 0), [], seq(workers, _ => Free))
  }

  function MoveWorker<F>(s: State<F>, w: Worker): State<F>
    requires w < |s.workers|
  {
    match s.workers[w]
    case Free => s
    case Checking(m) =>
      if m.conn in s.lines && s.lines[m.conn].gen == m.gen then s.(workers := s.workers[w := Waiting(m)])
      else s.(workers := s.workers[w := Free])
    case Waiting(m) =>
      if m.conn in s.lines && s.lines[m.conn].expected == m.ticket then s.(workers := s.workers[w := Parsing(m)])
      else s
    case Parsing(m) =>
      if m.conn !in s.lines then s
      else
        var l := s.lines[m.conn];
        s.(workers := s.workers[w := Counting(m)], lines := s.lines[m.conn := l.(parsed := l.parsed + [m.fragment])])
    case Counting(m) =>
      if m.conn !in s.lines then s
      else
        var l := s.lines[m.conn];
        s.(workers := s.workers[w := Free],
           lines := s.lines[m.conn := l.(expected := (l.expected + 1) % TICKETS, counted := l.counted + 1)])
  }

  function Step<F>(s: State<F>, e: Event<F>): State<F> {
    match e
    case Receive(c, fragment) =>
      if c !in s.lines || s.lines[c].closed then s
      else
        var l := s.lines[c];
        s.(queue := s.queue + [Message(c, l.gen, l.nextTicket, fragment, |l.received|)],
           lines := s.lines[c := l.(nextTicket := (l.nextTicket + 1) % TICKETS, received := l.received + [fragment])])
    case Close(c) =>
      if c !in s.lines then s
      else s.(lines := s.lines[c := s.lines[c].(gen := s.lines[c].gen + 1, closed := true)])
    case Take(w) =>
      if w < |s.workers| && s.workers[w].Free? && s.queue != []
      then s.(queue := s.queue[1..], workers := s.workers[w := Checking(s.queue[0])])
      else s
    case Move(w) => if w < |s.workers| then MoveWorker(s, w) else s
  }

  // ---------------------------------------------------------------------------------------------
  // The invariant
  // ---------------------------------------------------------------------------------------------

  /** Message `m` carries the fragment received at its index and, on an open connection, is not parsed and counted yet. */
  ghost predicate Good<F>(lines: map<Conn, Line<F>>, m: Message<F>) {
    && m.conn in lines
    && m.index < |lines[m.conn].received| && m.fragment == lines[m.conn].received[m.index]
    && m.ticket == m.index % TICKETS
    && (!lines[m.conn].closed ==> m.gen == lines[m.conn].gen && lines[m.conn].counted <= m.index)
  }

  ghost predicate Held<F>(s: State<F>, c: Conn, k: nat) {
    exists w {:trigger s.workers[w]} :: 0 <= w < |s.workers| && HoldsIndex(s.workers[w], c, k)
  }

  predicate HoldsIndex<F>(stage: Stage<F>, c: Conn, k: nat) {
    !stage.Free? && stage.msg.conn == c && stage.msg.index == k
  }

  ghost predicate Queued<F>(s: State<F>, c: Conn, k: nat) {
    exists i {:trigger s.queue[i]} :: 0 <= i < |s.queue| && s.queue[i].conn == c && s.queue[i].index == k
  }

  /** Messages of one connection leave the queue in index order, each to one worker. */
  ghost predicate Ordered<F>(s: State<F>) {
    && (forall i {:trigger s.queue[i]} | 0 <= i < |s.queue| :: Good(s.lines, s.queue[i]))
    && (forall w {:trigger s.workers[w]} | 0 <= w < |s.workers| && !s.workers[w].Free? :: Good(s.lines, s.workers[w].msg))
    && (forall i, j {:trigger s.queue[i], s.queue[j]} | 0 <= i < j < |s.queue| && s.queue[i].conn == s.queue[j].conn ::
          s.queue[i].index < s.queue[j].index)
    && (forall w, i {:trigger s.workers[w], s.queue[i]} | 0 <= w < |s.workers| && 0 <= i < |s.queue|
          && !s.workers[w].Free? && s.workers[w].msg.conn == s.queue[i].conn :: s.workers[w].msg.index < s.queue[i].index)
    && (forall v, w {:trigger s.workers[v], s.workers[w]} | 0 <= v < w < |s.workers|
          && !s.workers[v].Free? && !s.workers[w].Free? && s.workers[v].msg.conn == s.workers[w].msg.conn ::
          s.workers[v].msg.index != s.workers[w].msg.index)
  }

  /** The counters and histories of an open connection agree. */
  ghost predicate LineInv<F>(l: Line<F>) {
    !l.closed ==>
      && l.expected == l.counted % TICKETS && l.nextTicket == |l.received| % TICKETS
      && l.counted <= |l.parsed| <= l.counted + 1 && |l.parsed| <= |l.received| && l.parsed == l.received[..|l.parsed|]
  }

  ghost predicate CountingFor<F>(s: State<F>, c: Conn) {
    exists w {:trigger s.workers[w]} :: 0 <= w < |s.workers| && s.workers[w].Counting? && s.workers[w].msg.conn == c
  }

  /** Nothing of an open connection is missing between its context and the end of the queue. */
  ghost predicate Covered<F>(s: State<F>, c: Conn)
    requires c in s.lines
  {
    !s.lines[c].closed ==>
      && (forall k {:trigger Held(s, c, k)} {:trigger Queued(s, c, k)} | s.lines[c].counted <= k < |s.lines[c].received| ::
            Held(s, c, k) || Queued(s, c, k))
      && (s.lines[c].counted < |s.lines[c].parsed| ==> CountingFor(s, c))
  }

  /** A worker past its wait holds the fragment the context expects. */
  ghost predicate StageInv<F>(lines: map<Conn, Line<F>>, stage: Stage<F>) {
    (stage.Parsing? || stage.Counting?) && stage.msg.conn in lines && !lines[stage.msg.conn].closed ==>
      && stage.msg.index == lines[stage.msg.conn].counted
      && |lines[stage.msg.conn].parsed| == lines[stage.msg.conn].counted + (if stage.Counting? then 1 else 0)
  }

  ghost predicate Inv<F>(s: State<F>) {
    && Ordered(s)
    && (forall c {:trigger s.lines[c]} | c in s.lines :: LineInv(s.lines[c]) && Covered(s, c))
    && (forall w {:trigger s.workers[w]} | 0 <= w < |s.workers| :: StageInv(s.lines, s.workers[w]))
  }

  lemma InitInv<F>(conns: set<Conn>, workers: nat)
    ensures Inv(Init<F>(conns, workers))
  {
  }

  // ---------------------------------------------------------------------------------------------
  // Workers hold a window no wider than their number
  // ---------------------------------------------------------------------------------------------

  function Holders<F>(s: State<F>, c: Conn, lo: nat, hi: nat): set<Worker> {
    set w: Worker | w < |s.workers| && !s.workers[w].Free? && s.workers[w].msg.conn == c
        && lo <= s.workers[w].msg.index < hi
  }

  lemma {:induction false} HoldersFillWindow<F>(s: State<F>, c: Conn, lo: nat, hi: nat)
    requires Ordered(s) && lo <= hi
    requires forall k {:trigger Held(s, c, k)} | lo <= k < hi :: Held(s, c, k)
    ensures |Holders(s, c, lo, hi)| == hi - lo
    decreases hi
  {
    if lo == hi {
      assert Holders(s, c, lo, hi) == {};
    } else {
      HoldersFillWindow(s, c, lo, hi - 1);
      assert Held(s, c, hi - 1);
      OneMoreHolder(s, c, lo, hi);
    }
  }

  lemma OneMoreHolder<F>(s: State<F>, c: Conn, lo: nat, hi: nat)
    requires Ordered(s) && lo < hi && Held(s, c, hi - 1)
    ensures |Holders(s, c, lo, hi)| == |Holders(s, c, lo, hi - 1)| + 1
  {
    var w: Worker :| 0 <= w < |s.workers| && HoldsIndex(s.workers[w], c, hi - 1);
    assert Holders(s, c, lo, hi) == Holders(s, c, lo, hi - 1) + {w};
    assert w !in Holders(s, c, lo, hi - 1);
  }

  lemma {:induction false} WorkersBelow(n: nat, ws: set<Worker>)
    requires forall w | w in ws :: w < n
    ensures |ws| <= n
    decreases n
  {
    if n == 0 {
      assert ws == {};
    } else {
      WorkersBelow(n - 1, ws - {n - 1});
    }
  }

  lemma HeldBeforeQueued<F>(s: State<F>, w: Worker, k: nat)
    requires Ordered(s) && w < |s.workers| && !s.workers[w].Free? && k <= s.workers[w].msg.index
    ensures !Queued(s, s.workers[w].msg.conn, k)
  {
    forall i {:trigger s.queue[i]} | 0 <= i < |s.queue|
        && s.queue[i].conn == s.workers[w].msg.conn ensures k < s.queue[i].index {
      assert s.workers[w].msg.index < s.queue[i].index;
    }
  }

  /** A waiting worker whose 32-bit ticket matches holds exactly the fragment expected next. */
  lemma TicketIsExact<F>(s: State<F>, w: Worker)
    requires Inv(s) && |s.workers| <= 0x1_0000_0000 && w < |s.workers| && !s.workers[w].Free?
    requires var m := s.workers[w].msg; !s.lines[m.conn].closed && s.lines[m.conn].expected == m.ticket
    ensures s.workers[w].msg.index == s.lines[s.workers[w].msg.conn].counted
  {
    var m := s.workers[w].msg;
    var l := s.lines[m.conn];
    assert Good(s.lines, m) && LineInv(l) && Covered(s, m.conn);
    forall k | l.counted <= k < m.index ensures Held(s, m.conn, k) {
      HeldBeforeQueued(s, w, k);
    }
    HoldersFillWindow(s, m.conn, l.counted, m.index);
    var before := Holders(s, m.conn, l.counted, m.index);
    assert w !in before;
    WorkersBelow(|s.workers|, before + {w});
    assert m.index - l.counted < TICKETS;
    SameResidue(l.counted, m.index);
  }

  lemma SameResidue(a: nat, b: nat)
    requires a <= b < a + TICKETS && a % TICKETS == b % TICKETS
    ensures a == b
  {
  }

  // ---------------------------------------------------------------------------------------------
  // Every event keeps the invariant
  // ---------------------------------------------------------------------------------------------

  lemma HeldStays<F>(s: State<F>, s': State<F>, c: Conn, k: nat, w: Worker)
    requires w < |s.workers| && |s'.workers| == |s.workers| && s'.workers == s.workers[w := s'.workers[w]]
    requires Held(s, c, k) && (HoldsIndex(s.workers[w], c, k) ==> HoldsIndex(s'.workers[w], c, k))
    ensures Held(s', c, k)
  {
    var v :| 0 <= v < |s.workers| && HoldsIndex(s.workers[v], c, k);
    assert HoldsIndex(s'.workers[v], c, k);
  }

  lemma CountingStays<F>(s: State<F>, s': State<F>, c: Conn, w: Worker)
    requires w < |s.workers| == |s'.workers| && s'.workers == s.workers[w := s'.workers[w]]
    requires CountingFor(s, c) && !(s.workers[w].Counting? && s.workers[w].msg.conn == c)
    ensures CountingFor(s', c)
  {
    var v :| 0 <= v < |s.workers| && s.workers[v].Counting? && s.workers[v].msg.conn == c;
    assert s'.workers[v] == s.workers[v];
  }

  lemma ReceiveInv<F>(s: State<F>, c: Conn, fragment: F)
    requires Inv(s) && c in s.lines && !s.lines[c].closed
    ensures Inv(Step(s, Receive(c, fragment)))
  {
    var s' := Step(s, Receive(c, fragment));
    assert LineInv(s.lines[c]) && Covered(s, c);
    forall d {:trigger s'.lines[d]} | d in s'.lines ensures LineInv(s'.lines[d]) && Covered(s', d) {
      assert LineInv(s.lines[d]) && Covered(s, d);
      ReceiveLine(s, c, fragment, d);
    }
    ReceiveOrdered(s, c, fragment);
    forall w {:trigger s'.workers[w]} | 0 <= w < |s'.workers| ensures StageInv(s'.lines, s'.workers[w]) {
      ReceiveStage(s, c, fragment, w);
    }
  }

  lemma ReceiveLine<F>(s: State<F>, c: Conn, fragment: F, d: Conn)
    requires c in s.lines && !s.lines[c].closed && d in s.lines && LineInv(s.lines[d]) && Covered(s, d)
    ensures d in Step(s, Receive(c, fragment)).lines
    ensures LineInv(Step(s, Receive(c, fragment)).lines[d]) && Covered(Step(s, Receive(c, fragment)), d)
  {
    ReceiveCovered(s, c, fragment, d);
  }

  lemma ReceiveStage<F>(s: State<F>, c: Conn, fragment: F, w: Worker)
    requires c in s.lines && !s.lines[c].closed && w < |s.workers| && StageInv(s.lines, s.workers[w])
    ensures StageInv(Step(s, Receive(c, fragment)).lines, s.workers[w])
  {
  }

  lemma ReceiveCovered<F>(s: State<F>, c: Conn, fragment: F, d: Conn)
    requires c in s.lines && !s.lines[c].closed && d in s.lines && Covered(s, d)
    ensures Covered(Step(s, Receive(c, fragment)), d)
  {
    var s' := Step(s, Receive(c, fragment));
    forall k {:trigger Held(s', d, k)} | s'.lines[d].counted <= k < |s'.lines[d].received| && !s'.lines[d].closed
      ensures Held(s', d, k) || Queued(s', d, k)
    {
      if d == c && k == |s.lines[c].received| {
        assert s'.queue[|s.queue|].index == k;
      } else if Held(s, d, k) {
        var v :| 0 <= v < |s.workers| && HoldsIndex(s.workers[v], d, k);
        assert HoldsIndex(s'.workers[v], d, k);
      } else {
        assert Queued(s, d, k);
        var i :| 0 <= i < |s.queue| && s.queue[i].conn == d && s.queue[i].index == k;
        assert s'.queue[i] == s.queue[i];
      }
    }
    if CountingFor(s, d) {
      var v :| 0 <= v < |s.workers| && s.workers[v].Counting? && s.workers[v].msg.conn == d;
      assert s'.workers[v] == s.workers[v];
    }
  }

  lemma ReceiveOrdered<F>(s: State<F>, c: Conn, fragment: F)
    requires Ordered(s) && c in s.lines && !s.lines[c].closed && LineInv(s.lines[c])
    ensures Ordered(Step(s, Receive(c, fragment)))
  {
    var s' := Step(s, Receive(c, fragment));
    forall i {:trigger s'.queue[i]} | 0 <= i < |s'.queue| ensures Good(s'.lines, s'.queue[i]) {
      if i < |s.queue| { assert Good(s.lines, s.queue[i]); }
    }
    forall w {:trigger s'.workers[w]} | 0 <= w < |s'.workers|
        && !s'.workers[w].Free? ensures Good(s'.lines, s'.workers[w].msg) {
      assert Good(s.lines, s.workers[w].msg);
    }
    forall i, j {:trigger s'.queue[i], s'.queue[j]} | 0 <= i < j < |s'.queue| && s'.queue[i].conn == s'.queue[j].conn
      ensures s'.queue[i].index < s'.queue[j].index
    {
      assert Good(s.lines, s.queue[i]);
      if j < |s.queue| { assert s.queue[j] == s'.queue[j]; }
    }
    forall w, i {:trigger s'.workers[w], s'.queue[i]} | 0 <= w < |s'.workers| && 0 <= i < |s'.queue|
      && !s'.workers[w].Free? && s'.workers[w].msg.conn == s'.queue[i].conn
      ensures s'.workers[w].msg.index < s'.queue[i].index
    {
      assert Good(s.lines, s.workers[w].msg);
      if i < |s.queue| { assert s.queue[i] == s'.queue[i]; }
    }
  }

  lemma CloseInv<F>(s: State<F>, c: Conn)
    requires Inv(s) && c in s.lines
    ensures Inv(Step(s, Close(c)))
  {
    var s' := Step(s, Close(c));
    forall i {:trigger s'.queue[i]} | 0 <= i < |s'.queue| ensures Good(s'.lines, s'.queue[i]) {
      assert Good(s.lines, s.queue[i]);
    }
    forall w {:trigger s'.workers[w]} | 0 <= w < |s'.workers|
      ensures StageInv(s'.lines, s'.workers[w]) && (!s'.workers[w].Free? ==> Good(s'.lines, s'.workers[w].msg))
    {
      assert StageInv(s.lines, s.workers[w]);
      if !s.workers[w].Free? { assert Good(s.lines, s.workers[w].msg); }
    }
    forall d {:trigger s'.lines[d]} | d in s'.lines ensures LineInv(s'.lines[d]) && Covered(s', d) {
      if d != c {
        assert LineInv(s.lines[d]) && Covered(s, d);
        SameCover(s, s', d);
      }
    }
  }

  lemma SameCover<F>(s: State<F>, s': State<F>, d: Conn)
    requires d in s.lines && d in s'.lines && s'.lines[d] == s.lines[d] && s'.queue == s.queue && s'.workers == s.workers
    requires Covered(s, d)
    ensures Covered(s', d)
  {
    forall k {:trigger Held(s', d, k)} | s.lines[d].counted <= k < |s.lines[d].received| && !s.lines[d].closed
      ensures Held(s', d, k) || Queued(s', d, k)
    {
      assert Held(s, d, k) || Queued(s, d, k);
    }
  }

  lemma TakeOrdered<F>(s: State<F>, w: Worker)
    requires Ordered(s) && w < |s.workers| && s.workers[w].Free? && s.queue != []
    ensures Ordered(Step(s, Take(w)))
  {
    var s' := Step(s, Take(w));
    assert Good(s.lines, s.queue[0]);
    forall i {:trigger s'.queue[i]} | 0 <= i < |s'.queue| ensures Good(s'.lines, s'.queue[i])
        && s'.queue[i] == s.queue[i + 1] {
      assert Good(s.lines, s.queue[i + 1]);
    }
    forall v, i {:trigger s'.workers[v], s'.queue[i]} | 0 <= v < |s'.workers| && 0 <= i < |s'.queue|
      && !s'.workers[v].Free? && s'.workers[v].msg.conn == s'.queue[i].conn
      ensures s'.workers[v].msg.index < s'.queue[i].index
    {
      assert s'.queue[i] == s.queue[i + 1];
      if v == w { assert s.queue[0].conn == s.queue[i + 1].conn; }
    }
    forall v {:trigger s'.workers[v]} | 0 <= v < |s'.workers| && v != w && !s'.workers[v].Free?
        && s'.workers[v].msg.conn == s.queue[0].conn
      ensures s'.workers[v].msg.index < s.queue[0].index
    {
      assert s.workers[v].msg.index < s.queue[0].index;
    }
    forall i, j {:trigger s'.queue[i], s'.queue[j]} | 0 <= i < j < |s'.queue| && s'.queue[i].conn == s'.queue[j].conn
      ensures s'.queue[i].index < s'.queue[j].index
    {
      assert s'.queue[i] == s.queue[i + 1] && s'.queue[j] == s.queue[j + 1];
    }
  }

  lemma TakeInv<F>(s: State<F>, w: Worker)
    requires Inv(s) && w < |s.workers| && s.workers[w].Free? && s.queue != []
    ensures Inv(Step(s, Take(w)))
  {
    var s' := Step(s, Take(w));
    TakeOrdered(s, w);
    forall d {:trigger s'.lines[d]} | d in s'.lines ensures LineInv(s'.lines[d]) && Covered(s', d) {
      assert LineInv(s.lines[d]) && Covered(s, d);
      forall k {:trigger Held(s', d, k)} | s.lines[d].counted <= k < |s.lines[d].received| && !s.lines[d].closed
        ensures Held(s', d, k) || Queued(s', d, k)
      {
        if Held(s, d, k) {
          HeldStays(s, s', d, k, w);
        } else {
          assert Queued(s, d, k);
          var i :| 0 <= i < |s.queue| && s.queue[i].conn == d && s.queue[i].index == k;
          if i == 0 { assert HoldsIndex(s'.workers[w], d, k); } else { assert s'.queue[i - 1] == s.queue[i]; }
        }
      }
      if CountingFor(s, d) { CountingStays(s, s', d, w); }
    }
    forall v {:trigger s'.workers[v]} | 0 <= v < |s'.workers| ensures StageInv(s'.lines, s'.workers[v]) {
      if v != w { assert StageInv(s.lines, s.workers[v]); }
    }
  }

  /** A worker step that changes no line and keeps or drops its message. */
  lemma QuietMoveInv<F>(s: State<F>, w: Worker, stage: Stage<F>)
    requires Inv(s) && w < |s.workers| && !s.workers[w].Free? && !s.workers[w].Counting?
    requires stage.Free? || stage.msg == s.workers[w].msg
    requires stage.Free? ==> s.lines[s.workers[w].msg.conn].closed
    requires StageInv(s.lines, stage)
    ensures Inv(s.(workers := s.workers[w := stage]))
  {
    var s' := s.(workers := s.workers[w := stage]);
    assert Good(s.lines, s.workers[w].msg);
    forall d {:trigger s'.lines[d]} | d in s'.lines ensures LineInv(s'.lines[d]) && Covered(s', d) {
      assert LineInv(s.lines[d]) && Covered(s, d);
      forall k {:trigger Held(s', d, k)} | s.lines[d].counted <= k < |s.lines[d].received| && !s.lines[d].closed
        ensures Held(s', d, k) || Queued(s', d, k)
      {
        if Held(s, d, k) { HeldStays(s, s', d, k, w); } else { assert Queued(s, d, k); }
      }
      if CountingFor(s, d) { CountingStays(s, s', d, w); }
    }
    forall v {:trigger s'.workers[v]} | 0 <= v < |s'.workers| ensures StageInv(s'.lines, s'.workers[v]) {
      if v != w { assert StageInv(s.lines, s.workers[v]); }
    }
  }

  /** Worker `w` alone moves: the fragments it held and that are not counted yet are still held. */
  lemma CoverKept<F>(s: State<F>, s': State<F>, d: Conn, w: Worker)
    requires d in s.lines && d in s'.lines && Covered(s, d) && !s.lines[d].closed
    requires w < |s.workers| == |s'.workers| && s'.workers == s.workers[w := s'.workers[w]] && s'.queue == s.queue
    requires s'.lines[d].received == s.lines[d].received && s.lines[d].counted <= s'.lines[d].counted
    requires forall k {:trigger HoldsIndex(s'.workers[w], d, k)} | k >= s'.lines[d].counted ::
               HoldsIndex(s.workers[w], d, k) ==> HoldsIndex(s'.workers[w], d, k)
    ensures forall k {:trigger Held(s', d, k)} {:trigger Queued(s', d, k)} | s'.lines[d].counted <= k < |s'.lines[d].received| ::
              Held(s', d, k) || Queued(s', d, k)
  {
    forall k {:trigger Held(s', d, k)} {:trigger Queued(s', d, k)} | s'.lines[d].counted <= k < |s'.lines[d].received|
      ensures Held(s', d, k) || Queued(s', d, k)
    {
      if Held(s, d, k) { HeldStays(s, s', d, k, w); } else { assert Queued(s, d, k); }
    }
  }

  /** Worker `w` keeps or drops its message; the order facts carry over. */
  lemma OneWorkerOrdered<F>(s: State<F>, s': State<F>, w: Worker)
    requires Ordered(s) && w < |s.workers| == |s'.workers| && s'.workers == s.workers[w := s'.workers[w]]
        && s'.queue == s.queue
    requires !s'.workers[w].Free? ==> !s.workers[w].Free? && s'.workers[w].msg == s.workers[w].msg
    requires forall i {:trigger s.queue[i]} | 0 <= i < |s.queue| :: Good(s'.lines, s.queue[i])
    requires forall v {:trigger s.workers[v]} | 0 <= v < |s.workers|
        && !s'.workers[v].Free? :: Good(s'.lines, s.workers[v].msg)
    ensures Ordered(s')
  {
    forall v {:trigger s'.workers[v]} | 0 <= v < |s'.workers| && !s'.workers[v].Free?
      ensures !s.workers[v].Free? && s'.workers[v].msg == s.workers[v].msg && Good(s'.lines, s'.workers[v].msg)
    {
    }
  }

  /** Past their waits, no two workers serve one open connection. */
  lemma OneInside<F>(s: State<F>, v: Worker, w: Worker)
    requires Inv(s) && w < |s.workers| && v < |s.workers| && v != w
    requires s.workers[w].Parsing? || s.workers[w].Counting?
    requires s.workers[v].Parsing? || s.workers[v].Counting?
    requires s.workers[v].msg.conn == s.workers[w].msg.conn
    ensures s.workers[w].msg.conn in s.lines && s.lines[s.workers[w].msg.conn].closed
  {
    assert StageInv(s.lines, s.workers[w]) && StageInv(s.lines, s.workers[v]);
    assert Good(s.lines, s.workers[w].msg);
    assert s.workers[v].msg.index != s.workers[w].msg.index;
  }

  /** parseRequest returns: the fragment joins the parsed ones. */
  lemma ParseInv<F>(s: State<F>, w: Worker)
    requires Inv(s) && w < |s.workers| && s.workers[w].Parsing?
    ensures Inv(MoveWorker(s, w))
  {
    var s', m := MoveWorker(s, w), s.workers[w].msg;
    assert Good(s.lines, m) && StageInv(s.lines, s.workers[w]) && LineInv(s.lines[m.conn]);
    forall v {:trigger s.workers[v]} | 0 <= v < |s.workers|
        && !s'.workers[v].Free? ensures Good(s'.lines, s.workers[v].msg) {
      assert Good(s.lines, s.workers[v].msg);
    }
    OneWorkerOrdered(s, s', w);
    forall d {:trigger s'.lines[d]} | d in s'.lines ensures LineInv(s'.lines[d]) && Covered(s', d) {
      ParseLine(s, w, d);
    }
    forall v {:trigger s'.workers[v]} | 0 <= v < |s'.workers| ensures StageInv(s'.lines, s'.workers[v]) {
      assert StageInv(s.lines, s.workers[v]);
      if v != w && (s.workers[v].Parsing? || s.workers[v].Counting?)
          && s.workers[v].msg.conn == m.conn { OneInside(s, v, w); }
    }
  }

  lemma ParseLine<F>(s: State<F>, w: Worker, d: Conn)
    requires Inv(s) && w < |s.workers| && s.workers[w].Parsing? && d in s.lines
    ensures LineInv(MoveWorker(s, w).lines[d]) && Covered(MoveWorker(s, w), d)
  {
    var s', m := MoveWorker(s, w), s.workers[w].msg;
    assert Good(s.lines, m) && StageInv(s.lines, s.workers[w]);
    assert LineInv(s.lines[d]) && Covered(s, d);
    if !s.lines[d].closed {
      CoverKept(s, s', d, w);
      if d == m.conn {
        assert s'.workers[w].Counting?;
      } else if CountingFor(s, d) {
        CountingStays(s, s', d, w);
      }
    }
  }

  /** The ticket is handed on. */
  lemma CountInv<F>(s: State<F>, w: Worker)
    requires Inv(s) && w < |s.workers| && s.workers[w].Counting?
    ensures Inv(MoveWorker(s, w))
  {
    var s', m := MoveWorker(s, w), s.workers[w].msg;
    assert Good(s.lines, m) && StageInv(s.lines, s.workers[w]) && LineInv(s.lines[m.conn]);
    forall i {:trigger s.queue[i]} | 0 <= i < |s.queue| ensures Good(s'.lines, s.queue[i]) {
      assert Good(s.lines, s.queue[i]);
      if s.queue[i].conn == m.conn { assert s.workers[w].msg.index < s.queue[i].index; }
    }
    forall v {:trigger s.workers[v]} | 0 <= v < |s.workers|
        && !s'.workers[v].Free? ensures Good(s'.lines, s.workers[v].msg) {
      assert Good(s.lines, s.workers[v].msg);
      if s.workers[v].msg.conn == m.conn { assert s.workers[v].msg.index != s.workers[w].msg.index; }
    }
    OneWorkerOrdered(s, s', w);
    forall d {:trigger s'.lines[d]} | d in s'.lines ensures LineInv(s'.lines[d]) && Covered(s', d) {
      CountLine(s, w, d);
    }
    forall v {:trigger s'.workers[v]} | 0 <= v < |s'.workers| ensures StageInv(s'.lines, s'.workers[v]) {
      assert StageInv(s.lines, s.workers[v]);
      if v != w && (s.workers[v].Parsing? || s.workers[v].Counting?)
          && s.workers[v].msg.conn == m.conn { OneInside(s, v, w); }
    }
  }

  lemma CountLine<F>(s: State<F>, w: Worker, d: Conn)
    requires Inv(s) && w < |s.workers| && s.workers[w].Counting? && d in s.lines
    ensures LineInv(MoveWorker(s, w).lines[d]) && Covered(MoveWorker(s, w), d)
  {
    var s', m := MoveWorker(s, w), s.workers[w].msg;
    assert Good(s.lines, m) && StageInv(s.lines, s.workers[w]);
    assert LineInv(s.lines[d]) && Covered(s, d);
    if !s.lines[d].closed {
      CoverKept(s, s', d, w);
      if d == m.conn {
        NextResidue(s.lines[d].counted);
      } else if CountingFor(s, d) {
        CountingStays(s, s', d, w);
      }
    }
  }

  lemma NextResidue(k: nat)
    ensures (k % TICKETS + 1) % TICKETS == (k + 1) % TICKETS
  {
  }

  lemma MoveInv<F>(s: State<F>, w: Worker)
    requires Inv(s) && |s.workers| <= TICKETS && w < |s.workers|
    ensures Inv(MoveWorker(s, w))
  {
    var stage := s.workers[w];
    if stage.Free? { return; }
    assert Good(s.lines, stage.msg) && Covered(s, stage.msg.conn) && LineInv(s.lines[stage.msg.conn]);
    match stage
    case Checking(m) =>
      QuietMoveInv(s, w, if s.lines[m.conn].gen == m.gen then Waiting(m) else Free);
    case Waiting(m) =>
      if s.lines[m.conn].expected == m.ticket { PassWait(s, w); }
    case Parsing(_) => ParseInv(s, w);
    case Counting(_) => CountInv(s, w);
  }

  lemma PassWait<F>(s: State<F>, w: Worker)
    requires Inv(s) && |s.workers| <= TICKETS && w < |s.workers| && s.workers[w].Waiting?
    requires s.lines[s.workers[w].msg.conn].expected == s.workers[w].msg.ticket
    ensures Inv(s.(workers := s.workers[w := Parsing(s.workers[w].msg)]))
  {
    var m := s.workers[w].msg;
    assert Good(s.lines, m) && Covered(s, m.conn) && LineInv(s.lines[m.conn]);
    if !s.lines[m.conn].closed {
      TicketIsExact(s, w);
      if CountingFor(s, m.conn) { NoneInside(s, w); }
    }
    QuietMoveInv(s, w, Parsing(m));
  }

  /** While a worker is about to hand on the ticket, no other worker holds that ticket. */
  lemma NoneInside<F>(s: State<F>, w: Worker)
    requires Inv(s) && w < |s.workers| && s.workers[w].Waiting?
    requires var m := s.workers[w].msg; !s.lines[m.conn].closed && m.index == s.lines[m.conn].counted
    ensures !CountingFor(s, s.workers[w].msg.conn)
  {
    var m := s.workers[w].msg;
    forall v {:trigger s.workers[v]} | 0 <= v < |s.workers|
        && s.workers[v].Counting? ensures s.workers[v].msg.conn != m.conn {
      assert StageInv(s.lines, s.workers[v]);
      DistinctHolders(s, v, w);
    }
  }

  lemma DistinctHolders<F>(s: State<F>, v: Worker, w: Worker)
    requires Ordered(s) && v < |s.workers| && w < |s.workers| && v != w && !s.workers[v].Free? && !s.workers[w].Free?
    ensures s.workers[v].msg.conn == s.workers[w].msg.conn ==> s.workers[v].msg.index != s.workers[w].msg.index
  {
  }

  lemma StepInv<F>(s: State<F>, e: Event<F>)
    requires Inv(s) && |s.workers| <= TICKETS
    ensures Inv(Step(s, e)) && |Step(s, e).workers| == |s.workers|
  {
    match e
    case Receive(c, fragment) => if c in s.lines && !s.lines[c].closed { ReceiveInv(s, c, fragment); }
    case Close(c) => if c in s.lines { CloseInv(s, c); }
    case Take(w) => if w < |s.workers| && s.workers[w].Free? && s.queue != [] { TakeInv(s, w); }
    case Move(w) => if w < |s.workers| { MoveInv(s, w); }
  }

  function RunAll<F>(s: State<F>, events: seq<Event<F>>): State<F>
    decreases |events|
  {
    if events == [] then s else RunAll(Step(s, events[0]), events[1..])
  }

  lemma {:induction false} RunInv<F>(s: State<F>, events: seq<Event<F>>)
    requires Inv(s) && |s.workers| <= TICKETS
    ensures Inv(RunAll(s, events)) && |RunAll(s, events).workers| == |s.workers|
    decreases |events|
  {
    if events != [] {
      StepInv(s, events[0]);
      RunInv(Step(s, events[0]), events[1..]);
    }
  }
}
