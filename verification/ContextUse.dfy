/** Who uses a connection's context, up to the end: after it has passed the ticket on, a worker whose fragment completed
    the request still handles it and then resets the context. The ticket keeps the others out of the parser only. */
module ContextUse {
  import opened TicketPipeline
  import P = PipelineTheorems

  /** `handling` are the workers between their ticket increment and the end of `context_->reset()`. */
  datatype Full<F> = Full(base: State<F>, handling: map<Worker, Message<F>>)

  function Start<F>(conns: set<Conn>, workers: nat): Full<F> { Full(Init(conns, workers), map[]) }

  function BaseStep<F>(s: Full<F>, e: Event<F>): Full<F> { s.(base := Step(s.base, e)) }

  /** The step of a worker that holds a message; parsing a fragment of which `completes` holds completes a request. */
  function WorkerStep<F>(s: Full<F>, w: Worker, completes: F -> bool): Full<F> {
    if w in s.handling then s.(handling := s.handling - {w})
    else if w < |s.base.workers| && s.base.workers[w].Counting? && completes(s.base.workers[w].msg.fragment) then
      BaseStep(s, Move(w)).(handling := s.handling[w := s.base.workers[w].msg])
    else BaseStep(s, Move(w))
  }

  function FullStep<F>(s: Full<F>, e: Event<F>, completes: F -> bool): Full<F> {
    match e
    case Take(w) => if w in s.handling then s else BaseStep(s, e)
    case Move(w) => WorkerStep(s, w, completes)
    case _ => BaseStep(s, e)
  }

  function FullRun<F>(s: Full<F>, events: seq<Event<F>>, completes: F -> bool): Full<F>
    decreases |events|
  {
    if events == [] then s else FullStep(FullRun(s, events[..|events| - 1], completes), events[|events| - 1], completes)
  }

  /** Worker `w` reads or changes the context of `c`. */
  predicate Inside<F>(s: Full<F>, w: Worker, c: Conn) {
    || (w < |s.base.workers| && (s.base.workers[w].Parsing? || s.base.workers[w].Counting?) && s.base.workers[w].msg.conn == c)
    || (w in s.handling && s.handling[w].conn == c)
  }

  predicate Open<F>(s: Full<F>, c: Conn) { c in s.base.lines && !s.base.lines[c].closed }

  /** No two workers use the context of one open connection. */
  ghost predicate Exclusive<F>(s: Full<F>) {
    forall v, w, c {:trigger Inside(s, v, c), Inside(s, w, c)} | v != w && Open(s, c) && Inside(s, v, c) :: !Inside(s, w, c)
  }

  // ---------------------------------------------------------------------------------------------
  // A client that waits
  // ---------------------------------------------------------------------------------------------

  /** A fragment of `c` that completes a request is on its way through the server. */
  ghost predicate CompletingOutstanding<F>(s: Full<F>, c: Conn, completes: F -> bool) {
    || (exists i {:trigger s.base.queue[i]} :: 0 <= i < |s.base.queue| && s.base.queue[i].conn == c
          && completes(s.base.queue[i].fragment))
    || (exists w {:trigger s.base.workers[w]} :: 0 <= w < |s.base.workers| && !s.base.workers[w].Free?
          && s.base.workers[w].msg.conn == c && completes(s.base.workers[w].msg.fragment))
    || (exists w {:trigger s.handling[w]} :: w in s.handling && s.handling[w].conn == c)
  }

  /** Nothing arrives while a request of its connection is outstanding. */
  ghost predicate Waits<F>(s: Full<F>, e: Event<F>, completes: F -> bool) {
    e.Receive? ==> !CompletingOutstanding(s, e.c, completes)
  }

  ghost predicate WaitingRun<F>(s: Full<F>, events: seq<Event<F>>, completes: F -> bool)
    decreases |events|
  {
    events == []
    || (var before := events[..|events| - 1];
        WaitingRun(s, before, completes) && Waits(FullRun(s, before, completes), events[|events| - 1], completes))
  }

  /** A message that completes a request of an open connection is the last one received. */
  predicate LastOfLine<F>(lines: map<Conn, Line<F>>, m: Message<F>, completes: F -> bool) {
    m.conn in lines && !lines[m.conn].closed && completes(m.fragment) ==> m.index + 1 == |lines[m.conn].received|
  }

  predicate AllCounted<F>(lines: map<Conn, Line<F>>, c: Conn) {
    c in lines && !lines[c].closed ==> lines[c].counted == |lines[c].received|
  }

  ghost predicate Handlers<F>(s: Full<F>) {
    && (forall w {:trigger s.handling[w]} | w in s.handling :: w < |s.base.workers| && s.base.workers[w].Free?)
    && (forall w {:trigger s.handling[w]} | w in s.handling :: AllCounted(s.base.lines, s.handling[w].conn))
    && (forall v, w {:trigger s.handling[v], s.handling[w]} | v in s.handling && w in s.handling && v != w
          && s.handling[v].conn == s.handling[w].conn :: !Open(s, s.handling[w].conn))
  }

  ghost predicate CompletingLast<F>(s: Full<F>, completes: F -> bool) {
    && (forall i {:trigger s.base.queue[i]} | 0 <= i < |s.base.queue| :: LastOfLine(s.base.lines, s.base.queue[i], completes))
    && (forall w {:trigger s.base.workers[w]} | 0 <= w < |s.base.workers| && !s.base.workers[w].Free? ::
          LastOfLine(s.base.lines, s.base.workers[w].msg, completes))
  }

  ghost predicate FullInv<F>(s: Full<F>, completes: F -> bool) {
    Inv(s.base) && |s.base.workers| <= TICKETS && Handlers(s) && CompletingLast(s, completes)
  }

  lemma ReceiveKeeps<F>(s: Full<F>, c: Conn, fragment: F, completes: F -> bool)
    requires FullInv(s, completes) && !CompletingOutstanding(s, c, completes)
    ensures Handlers(BaseStep(s, Receive(c, fragment))) && CompletingLast(BaseStep(s, Receive(c, fragment)), completes)
  {
    var s' := BaseStep(s, Receive(c, fragment));
    forall i {:trigger s'.base.queue[i]} | 0 <= i < |s'.base.queue|
      ensures LastOfLine(s'.base.lines, s'.base.queue[i], completes)
    {
      if i < |s.base.queue| { assert s'.base.queue[i] == s.base.queue[i]; }
    }
    forall w {:trigger s.handling[w]} | w in s.handling ensures AllCounted(s'.base.lines, s.handling[w].conn) {
      assert s.handling[w].conn != c;
    }
  }

  /** Lines keep what they have received, and what is counted stays counted. */
  ghost predicate NothingNew<F>(lines: map<Conn, Line<F>>, lines': map<Conn, Line<F>>) {
    lines'.Keys == lines.Keys
    && forall c | c in lines ::
         && lines'[c].received == lines[c].received && lines[c].counted <= lines'[c].counted
         && (lines[c].closed ==> lines'[c].closed)
  }

  lemma LastStays<F>(lines: map<Conn, Line<F>>, lines': map<Conn, Line<F>>, m: Message<F>, completes: F -> bool)
    requires NothingNew(lines, lines') && LastOfLine(lines, m, completes)
    ensures LastOfLine(lines', m, completes)
  {
  }

  lemma CloseKeeps<F>(s: Full<F>, c: Conn, completes: F -> bool)
    requires FullInv(s, completes)
    ensures Handlers(BaseStep(s, Close(c))) && CompletingLast(BaseStep(s, Close(c)), completes)
  {
    var s' := BaseStep(s, Close(c));
    forall i {:trigger s'.base.queue[i]} | 0 <= i < |s'.base.queue|
      ensures LastOfLine(s'.base.lines, s'.base.queue[i], completes)
    {
      LastStays(s.base.lines, s'.base.lines, s.base.queue[i], completes);
    }
    forall w {:trigger s'.base.workers[w]} | 0 <= w < |s'.base.workers| && !s'.base.workers[w].Free?
      ensures LastOfLine(s'.base.lines, s'.base.workers[w].msg, completes)
    {
      LastStays(s.base.lines, s'.base.lines, s.base.workers[w].msg, completes);
    }
  }

  lemma TakeKeeps<F>(s: Full<F>, w: Worker, completes: F -> bool)
    requires FullInv(s, completes) && w !in s.handling && w < |s.base.workers| && s.base.workers[w].Free? && s.base.queue != []
    ensures Handlers(BaseStep(s, Take(w))) && CompletingLast(BaseStep(s, Take(w)), completes)
  {
    var s' := BaseStep(s, Take(w));
    forall i {:trigger s'.base.queue[i]} | 0 <= i < |s'.base.queue|
      ensures LastOfLine(s'.base.lines, s'.base.queue[i], completes)
    {
      assert s'.base.queue[i] == s.base.queue[i + 1];
    }
    forall v {:trigger s'.base.workers[v]} | 0 <= v < |s'.base.workers| && !s'.base.workers[v].Free?
      ensures LastOfLine(s'.base.lines, s'.base.workers[v].msg, completes)
    {
      assert s'.base.workers[v].msg == if v == w then s.base.queue[0] else s.base.workers[v].msg;
    }
  }

  /** What a step of worker `w` does to the base: its message stays or goes, and at most its own line moves on. */
  lemma MoveEffect<F>(s: State<F>, w: Worker)
    requires Inv(s) && w < |s.workers|
    ensures var s' := MoveWorker(s, w);
      && NothingNew(s.lines, s'.lines) && s'.queue == s.queue && s'.workers == s.workers[w := s'.workers[w]]
      && (!s'.workers[w].Free? ==> !s.workers[w].Free? && s'.workers[w].msg == s.workers[w].msg)
      && (s.workers[w].Free? ==> s'.workers[w].Free?)
      && (forall c | c in s.lines && (s.workers[w].Free? || c != s.workers[w].msg.conn) :: s'.lines[c] == s.lines[c])
      && (s.workers[w].Counting? ==>
            var c := s.workers[w].msg.conn;
            c in s.lines && s'.workers[w].Free? && s'.lines[c].counted == s.lines[c].counted + 1)
  {
    if !s.workers[w].Free? { assert Good(s.lines, s.workers[w].msg); }
  }

  lemma MoveKeepsLast<F>(s: Full<F>, w: Worker, completes: F -> bool)
    requires FullInv(s, completes) && w < |s.base.workers|
    ensures CompletingLast(BaseStep(s, Move(w)), completes)
  {
    var s' := BaseStep(s, Move(w));
    MoveEffect(s.base, w);
    forall i {:trigger s'.base.queue[i]} | 0 <= i < |s'.base.queue|
      ensures LastOfLine(s'.base.lines, s'.base.queue[i], completes)
    {
      LastStays(s.base.lines, s'.base.lines, s.base.queue[i], completes);
    }
    forall v {:trigger s'.base.workers[v]} | 0 <= v < |s'.base.workers| && !s'.base.workers[v].Free?
      ensures LastOfLine(s'.base.lines, s'.base.workers[v].msg, completes)
    {
      assert !s.base.workers[v].Free? && s'.base.workers[v].msg == s.base.workers[v].msg;
      LastStays(s.base.lines, s'.base.lines, s.base.workers[v].msg, completes);
    }
  }

  /** While a request of an open connection is handled, nothing of that connection is left to parse. */
  lemma NoneHeldWhileHandled<F>(s: Full<F>, v: Worker, w: Worker, completes: F -> bool)
    requires FullInv(s, completes) && v in s.handling && w < |s.base.workers| && !s.base.workers[w].Free?
    requires Open(s, s.handling[v].conn)
    ensures s.base.workers[w].msg.conn != s.handling[v].conn
  {
    assert Good(s.base.lines, s.base.workers[w].msg) && AllCounted(s.base.lines, s.handling[v].conn);
  }

  lemma HandlersKept<F>(s: Full<F>, w: Worker, completes: F -> bool)
    requires FullInv(s, completes) && w < |s.base.workers| && w !in s.handling
    ensures Handlers(BaseStep(s, Move(w)))
  {
    var s' := BaseStep(s, Move(w));
    MoveEffect(s.base, w);
    forall v {:trigger s.handling[v]} | v in s.handling ensures AllCounted(s'.base.lines, s.handling[v].conn) {
      assert AllCounted(s.base.lines, s.handling[v].conn);
      if Open(s, s.handling[v].conn) && !s.base.workers[w].Free? {
        NoneHeldWhileHandled(s, v, w, completes);
      }
    }
  }

  /** A worker goes on to handle the request its fragment completed. */
  lemma HandlingBegins<F>(s: Full<F>, w: Worker, completes: F -> bool)
    requires FullInv(s, completes) && w < |s.base.workers| && w !in s.handling
    requires s.base.workers[w].Counting? && completes(s.base.workers[w].msg.fragment)
    ensures Handlers(WorkerStep(s, w, completes))
  {
    var s', c := WorkerStep(s, w, completes), s.base.workers[w].msg.conn;
    HandlersKept(s, w, completes);
    MoveEffect(s.base, w);
    assert Good(s.base.lines, s.base.workers[w].msg) && StageInv(s.base.lines, s.base.workers[w]);
    assert LastOfLine(s.base.lines, s.base.workers[w].msg, completes);
    assert AllCounted(s'.base.lines, c);
    forall v {:trigger s'.handling[v]} | v in s'.handling && v != w && Open(s', c) ensures s'.handling[v].conn != c {
      assert s'.handling[v] == s.handling[v];
      if s.handling[v].conn == c && Open(s, c) { NoneHeldWhileHandled(s, v, w, completes); }
    }
    forall v {:trigger s'.handling[v]} | v in s'.handling && v != w
      ensures v < |s'.base.workers| && s'.base.workers[v].Free? && AllCounted(s'.base.lines, s'.handling[v].conn)
    {
      assert s'.handling[v] == s.handling[v];
    }
  }

  lemma HandlingEnds<F>(s: Full<F>, w: Worker, completes: F -> bool)
    requires FullInv(s, completes) && w in s.handling
    ensures FullInv(WorkerStep(s, w, completes), completes)
  {
    var s' := WorkerStep(s, w, completes);
    forall v {:trigger s'.handling[v]} | v in s'.handling ensures v in s.handling && s'.handling[v] == s.handling[v] {
    }
  }

  lemma FullStepKeeps<F>(s: Full<F>, e: Event<F>, completes: F -> bool)
    requires FullInv(s, completes) && Waits(s, e, completes)
    ensures FullInv(FullStep(s, e, completes), completes)
  {
    StepInv(s.base, e);
    match e
    case Receive(c, fragment) => ReceiveKeeps(s, c, fragment, completes);
    case Close(c) => CloseKeeps(s, c, completes);
    case Take(w) =>
      if w !in s.handling && w < |s.base.workers| && s.base.workers[w].Free? && s.base.queue != [] {
        TakeKeeps(s, w, completes);
      }
    case Move(w) =>
      if w in s.handling {
        HandlingEnds(s, w, completes);
      } else if w < |s.base.workers| {
        MoveKeepsLast(s, w, completes);
        HandlersKept(s, w, completes);
        if s.base.workers[w].Counting? && completes(s.base.workers[w].msg.fragment) {
          HandlingBegins(s, w, completes);
        }
      }
  }

  lemma {:induction false} WaitingRunKeeps<F>(conns: set<Conn>, workers: nat, events: seq<Event<F>>, completes: F -> bool)
    requires workers <= 0x1_0000_0000 && WaitingRun(Start<F>(conns, workers), events, completes)
    ensures FullInv(FullRun(Start<F>(conns, workers), events, completes), completes)
    decreases |events|
  {
    if events == [] {
      InitInv<F>(conns, workers);
    } else {
      var before := events[..|events| - 1];
      WaitingRunKeeps(conns, workers, before, completes);
      FullStepKeeps(FullRun(Start<F>(conns, workers), before, completes), events[|events| - 1], completes);
    }
  }

  /** With a client that sends nothing while its request is outstanding, up to the reset, no two of any number of workers
      use the context of one open connection. */
  lemma WaitingClientIsSafe<F>(conns: set<Conn>, workers: nat, events: seq<Event<F>>, completes: F -> bool)
    requires workers <= 0x1_0000_0000 && WaitingRun(Start<F>(conns, workers), events, completes)
    ensures Exclusive(FullRun(Start<F>(conns, workers), events, completes))
  {
    var s := FullRun(Start<F>(conns, workers), events, completes);
    WaitingRunKeeps(conns, workers, events, completes);
    forall v, w, c {:trigger Inside(s, v, c), Inside(s, w, c)} | v != w && Open(s, c) && Inside(s, v, c)
      ensures !Inside(s, w, c)
    {
      NotBothInside(s, v, w, c, completes);
    }
  }

  lemma NotBothInside<F>(s: Full<F>, v: Worker, w: Worker, c: Conn, completes: F -> bool)
    requires FullInv(s, completes) && v != w && Open(s, c) && Inside(s, v, c)
    ensures !Inside(s, w, c)
  {
    if v in s.handling && w < |s.base.workers| && !s.base.workers[w].Free? {
      if s.handling[v].conn == c { NoneHeldWhileHandled(s, v, w, completes); }
    }
    if w in s.handling && v < |s.base.workers| && !s.base.workers[v].Free? {
      if s.handling[w].conn == c { NoneHeldWhileHandled(s, w, v, completes); }
    }
    if Inside(s, w, c) && v !in s.handling && w !in s.handling {
      OneInside(s.base, v, w);
    }
  }

  // ---------------------------------------------------------------------------------------------
  // A client that does not wait
  // ---------------------------------------------------------------------------------------------

  /** State `t` ends some run. */
  ghost predicate Reached<F(!new)>(conns: set<Conn>, workers: nat, completes: F -> bool, t: Full<F>) {
    exists events: seq<Event<F>> :: FullRun(Start<F>(conns, workers), events, completes) == t
  }

  lemma ThenStep<F(!new)>(conns: set<Conn>, workers: nat, completes: F -> bool, s: Full<F>, e: Event<F>, t: Full<F>)
    requires Reached(conns, workers, completes, s) && FullStep(s, e, completes) == t
    ensures Reached(conns, workers, completes, t)
  {
    var events: seq<Event<F>> :| FullRun(Start<F>(conns, workers), events, completes) == s;
    var more := events + [e];
    assert more[..|more| - 1] == events;
    assert FullRun(Start<F>(conns, workers), more, completes) == t;
  }

  /** The first two workers stand at `a` and `b`; all others are free. */
  function TwoOf<F>(n: nat, a: Stage<F>, b: Stage<F>): seq<Stage<F>> {
    seq(n, i => if i == 0 then a else if i == 1 then b else Free)
  }

  lemma TwoOfUpdates<F>(n: nat, a: Stage<F>, b: Stage<F>, x: Stage<F>)
    requires n >= 2
    ensures |TwoOf(n, a, b)| == n && TwoOf(n, a, b)[0] == a && TwoOf(n, a, b)[1] == b
    ensures TwoOf(n, a, b)[0 := x] == TwoOf(n, x, b) && TwoOf(n, a, b)[1 := x] == TwoOf(n, a, x)
  {
  }

  /** Connection `c` has line `l`, the others their first. */
  function Scene<F>(conns: set<Conn>, c: Conn, l: Line<F>, queue: seq<Message<F>>, workers: seq<Stage<F>>,
        handling: map<Worker, Message<F>>): Full<F>
  {
    Full(State(Init<F>(conns, 0).lines[c := l], queue, workers), handling)
  }

  /** Worker 0 has parsed and counted the completing fragment `f` and handles its request. */
  function Handled<F>(conns: set<Conn>, n: nat, c: Conn, f: F): Full<F> {
    Scene(conns, c, Line(1, 1, 1, false, [f], [f], 1), [], TwoOf(n, Free, Free), map[0 := Message(c, 1, 0, f, 0)])
  }

  lemma FirstIsTaken<F(!new)>(conns: set<Conn>, n: nat, c: Conn, f: F, completes: F -> bool)
    requires c in conns && n >= 2
    ensures Reached(conns, n, completes,
              Scene(conns, c, Line(1, 1, 0, false, [f], [], 0), [], TwoOf(n, Checking(Message(c, 1, 0, f, 0)), Free), map[]))
  {
    var s0 := Start<F>(conns, n);
    assert FullRun(s0, [], completes) == s0;
    var l, m := Line(1, 1, 0, false, [f], [], 0), Message(c, 1, 0, f, 0);
    TwoOfUpdates(n, Free, Free, Checking(m));
    assert s0.base.workers == TwoOf(n, Free, Free) && [] + [f] == [f] && [] + [m] == [m];
    assert s0.base.lines == Init<F>(conns, 0).lines;
    var received := Scene(conns, c, l, [m], TwoOf(n, Free, Free), map[]);
    ThenStep(conns, n, completes, s0, Receive(c, f), received);
    ThenStep(conns, n, completes, received, Take(0), Scene(conns, c, l, [], TwoOf(n, Checking(m), Free), map[]));
  }

  /** Worker `w` of the first two goes from its check to the parser when it holds the fragment expected next. */
  lemma ChecksAndWaits<F(!new)>(conns: set<Conn>, n: nat, c: Conn, l: Line<F>, m: Message<F>, w: Worker,
        handling: map<Worker, Message<F>>, completes: F -> bool)
    requires n >= 2 && w < 2 && w !in handling && m.conn == c && l.gen == m.gen && l.expected == m.ticket
    requires Reached(conns, n, completes, Scene(conns, c, l, [], Standing(n, w, Checking(m)), handling))
    ensures Reached(conns, n, completes, Scene(conns, c, l, [], Standing(n, w, Parsing(m)), handling))
  {
    StandingUpdates(n, w, Checking(m), Waiting(m));
    StandingUpdates(n, w, Waiting(m), Parsing(m));
    var waiting := Scene(conns, c, l, [], Standing(n, w, Waiting(m)), handling);
    ThenStep(conns, n, completes, Scene(conns, c, l, [], Standing(n, w, Checking(m)), handling), Move(w), waiting);
    ThenStep(conns, n, completes, waiting, Move(w), Scene(conns, c, l, [], Standing(n, w, Parsing(m)), handling));
  }

  /** Of the first two workers only `w` is busy. */
  function Standing<F>(n: nat, w: Worker, stage: Stage<F>): seq<Stage<F>> {
    if w == 0 then TwoOf(n, stage, Free) else TwoOf(n, Free, stage)
  }

  lemma StandingUpdates<F>(n: nat, w: Worker, a: Stage<F>, b: Stage<F>)
    requires n >= 2 && w < 2
    ensures |Standing(n, w, a)| == n && Standing(n, w, a)[w] == a && Standing(n, w, a)[w := b] == Standing(n, w, b)
  {
    TwoOfUpdates(n, if w == 0 then a else Free, if w == 0 then Free else a, b);
  }

  lemma FirstIsHandled<F(!new)>(conns: set<Conn>, n: nat, c: Conn, f: F, completes: F -> bool)
    requires c in conns && n >= 2 && completes(f)
    ensures Reached(conns, n, completes, Handled(conns, n, c, f))
  {
    var l, m := Line(1, 1, 0, false, [f], [], 0), Message(c, 1, 0, f, 0);
    FirstIsTaken(conns, n, c, f, completes);
    ChecksAndWaits(conns, n, c, l, m, 0, map[], completes);
    StandingUpdates(n, 0, Parsing(m), Counting(m));
    StandingUpdates(n, 0, Counting(m), Free);
    assert [] + [f] == [f];
    var counting := Scene(conns, c, l.(parsed := [f]), [], Standing(n, 0, Counting(m)), map[]);
    ThenStep(conns, n, completes, Scene(conns, c, l, [], Standing(n, 0, Parsing(m)), map[]), Move(0), counting);
    ThenStep(conns, n, completes, counting, Move(0), Handled(conns, n, c, f));
  }

  /** While worker 0 handles the request, worker 1 goes into the parser with the fragment behind it. */
  lemma SecondGoesIn<F(!new)>(conns: set<Conn>, n: nat, c: Conn, f: F, completes: F -> bool)
    requires c in conns && n >= 2 && completes(f)
    ensures Reached(conns, n, completes, TwoInside(conns, n, c, f))
  {
    FirstIsHandled(conns, n, c, f, completes);
    var l, m := Line(1, 2, 1, false, [f, f], [f], 1), Message(c, 1, 1, f, 1);
    var handling := Handled(conns, n, c, f).handling;
    var received := Scene(conns, c, l, [m], TwoOf(n, Free, Free), handling);
    assert [f] + [f] == [f, f] && [] + [m] == [m];
    ThenStep(conns, n, completes, Handled(conns, n, c, f), Receive(c, f), received);
    TwoOfUpdates(n, Free, Free, Checking(m));
    ThenStep(conns, n, completes, received, Take(1), Scene(conns, c, l, [], Standing(n, 1, Checking(m)), handling));
    ChecksAndWaits(conns, n, c, l, m, 1, handling, completes);
  }

  function TwoInside<F>(conns: set<Conn>, n: nat, c: Conn, f: F): Full<F> {
    Scene(conns, c, Line(1, 2, 1, false, [f, f], [f], 1), [], Standing(n, 1, Parsing(Message(c, 1, 1, f, 1))),
          map[0 := Message(c, 1, 0, f, 0)])
  }

  lemma TwoAreInside<F>(conns: set<Conn>, n: nat, c: Conn, f: F)
    requires n >= 2
    ensures !Exclusive(TwoInside(conns, n, c, f))
  {
    var s := TwoInside(conns, n, c, f);
    StandingUpdates<F>(n, 1, Parsing(Message(c, 1, 1, f, 1)), Free);
    assert Open(s, c) && Inside(s, 0, c) && Inside(s, 1, c);
  }

  lemma {:induction false} NothingHandled<F>(conns: set<Conn>, workers: nat, events: seq<Event<F>>, completes: F -> bool)
    requires workers <= 0x1_0000_0000 && forall f :: !completes(f)
    ensures var s := FullRun(Start<F>(conns, workers), events, completes);
            s.handling == map[] && Inv(s.base) && |s.base.workers| == workers
    decreases |events|
  {
    if events == [] {
      InitInv<F>(conns, workers);
    } else {
      var before := events[..|events| - 1];
      NothingHandled(conns, workers, before, completes);
      NoneHandledYet(FullRun(Start<F>(conns, workers), before, completes), events[|events| - 1], completes);
    }
  }

  lemma NoneHandledYet<F>(s: Full<F>, e: Event<F>, completes: F -> bool)
    requires (forall f :: !completes(f)) && s.handling == map[]
    requires Inv(s.base) && |s.base.workers| <= TICKETS
    ensures var s' := FullStep(s, e, completes);
            s'.handling == map[] && Inv(s'.base) && |s'.base.workers| == |s.base.workers|
  {
    StepInv(s.base, e);
    assert FullStep(s, e, completes) == BaseStep(s, e);
  }

  lemma NoHandlersIsExclusive<F>(s: Full<F>)
    requires s.handling == map[] && Inv(s.base)
    ensures Exclusive(s)
  {
    forall v, w, c {:trigger Inside(s, v, c), Inside(s, w, c)} | v != w && Open(s, c) && Inside(s, v, c)
      ensures !Inside(s, w, c)
    {
      if Inside(s, w, c) { OneInside(s.base, v, w); }
    }
  }

  /** Whatever the clients send, every state of every run uses each open context exclusively, if and only if there is at
      most one worker, or no connection, or no fragment that completes a request. */
  lemma ExclusiveIff<F(!new)>(conns: set<Conn>, workers: nat, completes: F -> bool)
    requires workers <= 0x1_0000_0000
    ensures (forall s: Full<F> | Reached(conns, workers, completes, s) :: Exclusive(s))
       <==> workers <= 1 || conns == {} || forall f :: !completes(f)
  {
    if workers > 1 && conns != {} && exists f :: completes(f) {
      var c, f :| c in conns && completes(f);
      SecondGoesIn(conns, workers, c, f, completes);
      TwoAreInside(conns, workers, c, f);
    } else {
      forall s: Full<F> | Reached(conns, workers, completes, s) ensures Exclusive(s) {
        var events: seq<Event<F>> :| FullRun(Start<F>(conns, workers), events, completes) == s;
        if forall f :: !completes(f) {
          NothingHandled(conns, workers, events, completes);
          NoHandlersIsExclusive(s);
        } else {
          FewStayFew(conns, workers, events, completes);
        }
      }
    }
  }

  /** The workers that handle are workers; no connection is added. */
  lemma {:induction false} FewStayFew<F>(conns: set<Conn>, workers: nat, events: seq<Event<F>>, completes: F -> bool)
    ensures var s := FullRun(Start<F>(conns, workers), events, completes);
      && |s.base.workers| == workers && s.base.lines.Keys == conns && (forall w | w in s.handling :: w < workers)
    decreases |events|
  {
    if events != [] {
      FewStayFew(conns, workers, events[..|events| - 1], completes);
    }
  }

  // ---------------------------------------------------------------------------------------------
  // Progress up to the reset
  // ---------------------------------------------------------------------------------------------

  /** The pipeline's invariant, and a worker that handles a request holds no message. */
  ghost predicate Sound<F>(s: Full<F>) {
    Inv(s.base) && 0 < |s.base.workers| <= 0x1_0000_0000 && HandlersFree(s)
  }

  predicate CanGo<F>(s: Full<F>, e: Event<F>) {
    match e
    case Take(w) => w !in s.handling && P.Enabled(s.base, e)
    case Move(w) => w in s.handling || P.Enabled(s.base, e)
    case _ => false
  }

  ghost predicate GoingRun<F>(s: Full<F>, events: seq<Event<F>>, completes: F -> bool)
    decreases |events|
  {
    events == [] || (CanGo(s, events[0]) && GoingRun(FullStep(s, events[0], completes), events[1..], completes))
  }

  function GoOn<F>(s: Full<F>, events: seq<Event<F>>, completes: F -> bool): Full<F>
    decreases |events|
  {
    if events == [] then s else GoOn(FullStep(s, events[0], completes), events[1..], completes)
  }

  /** Steps the workers still make with what is there, counting each handling. */
  function FullWork<F>(s: Full<F>): nat { 2 * P.Work(s.base) + |s.handling| }

  lemma HandlingReleases<F>(s: Full<F>, w: Worker, completes: F -> bool)
    requires w in s.handling
    ensures var s' := FullStep(s, Move(w), completes);
      s'.base == s.base && w !in s'.handling && |s'.handling| == |s.handling| - 1 && FullWork(s') < FullWork(s)
  {
    var rest := s.handling - {w};
    assert s.handling.Keys == rest.Keys + {w};
  }

  /** Whatever the others do, a worker that has counted a completing fragment handles its request, and one that has counted
      another is free. */
  lemma CountedIsHandled<F>(s: Full<F>, w: Worker, completes: F -> bool)
    requires Inv(s.base) && w < |s.base.workers| && s.base.workers[w].Counting? && w !in s.handling
    ensures var s', m := FullStep(s, Move(w), completes), s.base.workers[w].msg;
      && s'.base.workers[w].Free?
      && s'.handling == (if completes(m.fragment) then s.handling[w := m] else s.handling)
  {
    MoveEffect(s.base, w);
  }

  lemma GoingWorks<F>(s: Full<F>, e: Event<F>, completes: F -> bool)
    requires Sound(s) && P.AllOpen(s.base) && CanGo(s, e)
    ensures var s' := FullStep(s, e, completes);
      && Sound(s') && P.AllOpen(s'.base) && FullWork(s') < FullWork(s) && s'.base.lines.Keys == s.base.lines.Keys
      && forall c | c in s.base.lines :: s'.base.lines[c].received == s.base.lines[c].received
  {
    StepInv(s.base, e);
    if e.Move? && e.w in s.handling {
      HandlingReleases(s, e.w, completes);
    } else {
      P.EnabledWorks(s.base, e);
      BaseGoes(s, e, completes);
    }
  }

  lemma OneMoreHandles<F>(handling: map<Worker, Message<F>>, w: Worker, m: Message<F>)
    ensures |handling[w := m]| <= |handling| + 1
  {
    assert handling[w := m].Keys == handling.Keys + {w};
  }

  ghost predicate HandlersFree<F>(s: Full<F>) {
    forall w {:trigger s.handling[w]} | w in s.handling :: w < |s.base.workers| && s.base.workers[w].Free?
  }

  lemma TakeGoes<F>(s: Full<F>, w: Worker, completes: F -> bool)
    requires HandlersFree(s) && w !in s.handling
    ensures var s' := FullStep(s, Take(w), completes);
      s'.base == Step(s.base, Take(w)) && s'.handling == s.handling && HandlersFree(s')
  {
  }

  lemma MoveGoes<F>(s: Full<F>, w: Worker, completes: F -> bool)
    requires Inv(s.base) && HandlersFree(s) && w !in s.handling && w < |s.base.workers|
    ensures var s' := FullStep(s, Move(w), completes);
      s'.base == Step(s.base, Move(w)) && |s'.handling| <= |s.handling| + 1 && HandlersFree(s')
  {
    MoveEffect(s.base, w);
    var s' := FullStep(s, Move(w), completes);
    if s'.handling != s.handling {
      OneMoreHandles(s.handling, w, s.base.workers[w].msg);
    }
  }

  lemma BaseGoes<F>(s: Full<F>, e: Event<F>, completes: F -> bool)
    requires Sound(s) && CanGo(s, e) && !(e.Move? && e.w in s.handling)
    ensures var s' := FullStep(s, e, completes);
      s'.base == Step(s.base, e) && |s'.handling| <= |s.handling| + 1 && HandlersFree(s')
  {
    if e.Take? {
      TakeGoes(s, e.w, completes);
    } else {
      MoveGoes(s, e.w, completes);
    }
  }

  /** With every connection open and any number of workers, no schedule of worker steps, handling and reset among them, is
      longer than the work left; one that cannot go on has handled every completed request and parsed every fragment, in
      order. */
  lemma {:induction false} EveryRequestIsHandled<F>(s: Full<F>, events: seq<Event<F>>, completes: F -> bool)
    requires Sound(s) && P.AllOpen(s.base) && GoingRun(s, events, completes)
    ensures |events| <= FullWork(s)
    ensures var t := GoOn(s, events, completes);
      (forall e :: !CanGo(t, e)) ==>
        && t.handling == map[]
        && forall c | c in s.base.lines :: c in t.base.lines && t.base.lines[c].parsed == s.base.lines[c].received
    decreases |events|
  {
    if events == [] {
      if forall e :: !CanGo(s, e) { NothingGoes(s); }
    } else {
      GoingWorks(s, events[0], completes);
      EveryRequestIsHandled(FullStep(s, events[0], completes), events[1..], completes);
    }
  }

  lemma NothingGoes<F>(s: Full<F>)
    requires Sound(s) && P.AllOpen(s.base) && forall e :: !CanGo(s, e)
    ensures s.handling == map[] && forall c | c in s.base.lines :: s.base.lines[c].parsed == s.base.lines[c].received
  {
    if s.handling != map[] {
      var w :| w in s.handling;
      assert CanGo(s, Move(w));
    }
    forall e ensures !P.Enabled(s.base, e) {
      assert !CanGo(s, e);
    }
    P.StuckIsDone(s.base);
  }
}
