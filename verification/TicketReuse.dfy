/** Tickets over several tenancies of a connection object, with waits that run out after five seconds. A new tenancy
    starts its own tickets at 0, but its context goes on expecting where the last one stopped. */
module TicketReuse {
  import opened TicketPipeline
  import P = PipelineTheorems
  import C = ContextUse

  datatype Event<F> =
    | Base(e: TicketPipeline.Event<F>)
    | Expire(w: Worker)  // the wait runs out; its answer is not looked at
    | Reopen(c: Conn)    // recycled and taken again

  /** `PutOneToFree` and `GetOneToUse`: the ticket to give out is 0 again, the expected one stays. */
  function Reopened<F>(l: Line<F>): Line<F> { Line(l.gen + 2, 0, l.expected, false, [], [], l.counted) }

  function Step<F>(s: State<F>, e: Event<F>): State<F> {
    match e
    case Base(b) => TicketPipeline.Step(s, b)
    case Expire(w) =>
      if w < |s.workers| && s.workers[w].Waiting? then s.(workers := s.workers[w := Parsing(s.workers[w].msg)]) else s
    case Reopen(c) => if c in s.lines && s.lines[c].closed then s.(lines := s.lines[c := Reopened(s.lines[c])]) else s
  }

  function RunAll<F>(s: State<F>, events: seq<Event<F>>): State<F>
    decreases |events|
  {
    if events == [] then s else Step(RunAll(s, events[..|events| - 1]), events[|events| - 1])
  }

  // ---------------------------------------------------------------------------------------------
  // The counters of every run
  // ---------------------------------------------------------------------------------------------

  predicate Stamped<F>(m: Message<F>) { m.ticket == m.index % TICKETS }

  predicate Counters<F>(l: Line<F>) { l.expected == l.counted % TICKETS && l.nextTicket == |l.received| % TICKETS }

  ghost predicate AllStamped<F>(s: State<F>) {
    && (forall c {:trigger s.lines[c]} | c in s.lines :: Counters(s.lines[c]))
    && (forall i {:trigger s.queue[i]} | 0 <= i < |s.queue| :: Stamped(s.queue[i]))
    && (forall w {:trigger s.workers[w]} | 0 <= w < |s.workers| && !s.workers[w].Free? :: Stamped(s.workers[w].msg))
  }

  lemma StepKeepsStamps<F>(s: State<F>, e: Event<F>)
    requires AllStamped(s)
    ensures AllStamped(Step(s, e))
  {
    match e
    case Base(Receive(c, _)) => if c in s.lines { NextResidue(|s.lines[c].received|); }
    case Base(Move(w)) =>
      if w < |s.workers| && s.workers[w].Counting? && s.workers[w].msg.conn in s.lines {
        NextResidue(s.lines[s.workers[w].msg.conn].counted);
      }
    case _ =>
  }

  lemma {:induction false} RunKeepsStamps<F>(conns: set<Conn>, workers: nat, events: seq<Event<F>>)
    ensures AllStamped(RunAll(Init<F>(conns, workers), events))
    decreases |events|
  {
    if events != [] {
      RunKeepsStamps(conns, workers, events[..|events| - 1]);
      StepKeepsStamps(RunAll(Init<F>(conns, workers), events[..|events| - 1]), events[|events| - 1]);
    }
  }

  lemma SameResidueIff(a: nat, b: nat)
    ensures a % TICKETS == b % TICKETS <==> (a - b) % TICKETS == 0
  {
    assert a - b == TICKETS * (a / TICKETS - b / TICKETS) + (a % TICKETS - b % TICKETS);
  }

  /** A wait, exactly: fragment `k` of a tenancy passes without a time-out if and only if the number of fragments counted
      on this connection object in all its tenancies exceeds `k` by a multiple of 2^32. */
  lemma WaitPassesIff<F>(conns: set<Conn>, workers: nat, events: seq<Event<F>>, w: Worker)
    requires var s := RunAll(Init<F>(conns, workers), events);
             w < |s.workers| && s.workers[w].Waiting? && s.workers[w].msg.conn in s.lines
    ensures var s := RunAll(Init<F>(conns, workers), events); var m := s.workers[w].msg;
            Step(s, Base(Move(w))).workers[w].Parsing? <==> (s.lines[m.conn].counted - m.index) % 0x1_0000_0000 == 0
  {
    RunKeepsStamps(conns, workers, events);
    StampedWaitIff(RunAll(Init<F>(conns, workers), events), w);
  }

  lemma StampedWaitIff<F>(s: State<F>, w: Worker)
    requires AllStamped(s) && w < |s.workers| && s.workers[w].Waiting? && s.workers[w].msg.conn in s.lines
    ensures var m := s.workers[w].msg;
            Step(s, Base(Move(w))).workers[w].Parsing? <==> (s.lines[m.conn].counted - m.index) % 0x1_0000_0000 == 0
  {
    var m := s.workers[w].msg;
    assert Stamped(m) && Counters(s.lines[m.conn]);
    SameResidueIff(s.lines[m.conn].counted, m.index);
  }

  /** The first fragment of a tenancy passes without a time-out if and only if the fragments counted before are a multiple
      of 2^32. */
  lemma FirstOfTenancyPassesIff<F>(conns: set<Conn>, workers: nat, events: seq<Event<F>>, w: Worker)
    requires var s := RunAll(Init<F>(conns, workers), events);
             && w < |s.workers| && s.workers[w].Waiting? && s.workers[w].msg.conn in s.lines
             && s.workers[w].msg.index == 0
    ensures var s := RunAll(Init<F>(conns, workers), events);
            Step(s, Base(Move(w))).workers[w].Parsing? <==> s.lines[s.workers[w].msg.conn].counted % 0x1_0000_0000 == 0
  {
    WaitPassesIff(conns, workers, events, w);
  }

  /** The count, and with it the expected ticket, moves exactly when a worker counts; closing and reopening leave it. */
  lemma OnlyCountingCounts<F>(s: State<F>, e: Event<F>, c: Conn)
    requires c in s.lines
    ensures var s' := Step(s, e);
      && c in s'.lines
      && s'.lines[c].counted == s.lines[c].counted +
           (if e.Base? && e.e.Move? && e.e.w < |s.workers| && s.workers[e.e.w].Counting? && s.workers[e.e.w].msg.conn == c
            then 1 else 0)
      && (s'.lines[c].counted == s.lines[c].counted ==> s'.lines[c].expected == s.lines[c].expected)
  {
  }

  // ---------------------------------------------------------------------------------------------
  // Whose fragments are let in
  // ---------------------------------------------------------------------------------------------

  /** Which event of the run made each message that is queued or held. */
  datatype Origins = Origins(queue: seq<nat>, held: map<Worker, nat>)

  /** A message that joins the queue was made by the event of that moment; a taken one brings its origin along. */
  function Moved<F>(s: State<F>, e: Event<F>, o: Origins, now: nat): Origins {
    if |Step(s, e).queue| > |s.queue| then o.(queue := o.queue + [now])
    else if |Step(s, e).queue| < |s.queue| && e.Base? && e.e.Take? && o.queue != [] then
      Origins(o.queue[1..], o.held[e.e.w := o.queue[0]])
    else o
  }

  function OriginsOf<F>(start: State<F>, events: seq<Event<F>>): Origins
    decreases |events|
  {
    if events == [] then Origins([], map[])
    else
      var before := events[..|events| - 1];
      Moved(RunAll(start, before), events[|events| - 1], OriginsOf(start, before), |before|)
  }

  /** No close of `c` after event `k`. */
  ghost predicate NoClose<F>(events: seq<Event<F>>, k: nat, c: Conn) {
    forall j {:trigger events[j]} | k < j < |events| :: events[j] != Base(Close(c))
  }

  /** Event `k` made message `m`, whose generation is the present one as long as its connection has not been closed; and
      its fragment is then one of the present tenancy. */
  ghost predicate MadeBy<F>(lines: map<Conn, Line<F>>, events: seq<Event<F>>, m: Message<F>, k: nat) {
    && k < |events| && events[k] == Base(Receive(m.conn, m.fragment)) && m.conn in lines
    && var l := lines[m.conn];
    && m.gen <= l.gen && (m.gen == l.gen <==> NoClose(events, k, m.conn))
    && (m.gen == l.gen ==> !l.closed && m.index < |l.received| && l.received[m.index] == m.fragment)
  }

  /** One more event: the lines it leaves still say of a message made before whether it is stale. */
  lemma StillMadeBy<F>(s: State<F>, events: seq<Event<F>>, e: Event<F>, m: Message<F>, k: nat)
    requires MadeBy(s.lines, events, m, k)
    ensures MadeBy(Step(s, e).lines, events + [e], m, k)
  {
    var more, c := events + [e], m.conn;
    assert more[k] == events[k];
    assert NoClose(more, k, c) <==> NoClose(events, k, c) && e != Base(Close(c)) by {
      assert more[|events|] == e;
      assert forall j | 0 <= j < |events| :: more[j] == events[j];
    }
    LineMovesOn(s, e, c);
  }

  /** A generation moves with a close, and on a closed line with the next use; an open line keeps what it has received. */
  lemma LineMovesOn<F>(s: State<F>, e: Event<F>, c: Conn)
    requires c in s.lines
    ensures c in Step(s, e).lines
    ensures var l, l' := s.lines[c], Step(s, e).lines[c];
      && l.gen <= l'.gen && (e == Base(Close(c)) ==> l.gen < l'.gen)
      && (!l.closed && e != Base(Close(c)) ==> l'.gen == l.gen && !l'.closed && l.received <= l'.received)
  {
  }

  /** A received fragment is stamped with its tenancy. */
  lemma ReceivedIsMade<F>(s: State<F>, events: seq<Event<F>>, c: Conn, fragment: F)
    requires c in s.lines && !s.lines[c].closed
    ensures var s' := Step(s, Base(Receive(c, fragment)));
      && |s'.queue| == |s.queue| + 1 && s'.queue[..|s.queue|] == s.queue && s'.workers == s.workers
      && MadeBy(s'.lines, events + [Base(Receive(c, fragment))], s'.queue[|s.queue|], |events|)
  {
  }

  /** Every message queued or held in `s` was made by its origin, as the lines and events given have it. */
  ghost predicate RightIn<F>(s: State<F>, lines: map<Conn, Line<F>>, events: seq<Event<F>>, o: Origins) {
    && |o.queue| == |s.queue|
    && (forall i {:trigger s.queue[i]} | 0 <= i < |s.queue| :: MadeBy(lines, events, s.queue[i], o.queue[i]))
    && (forall w {:trigger s.workers[w]} | 0 <= w < |s.workers| && !s.workers[w].Free? ::
          w in o.held && MadeBy(lines, events, s.workers[w].msg, o.held[w]))
  }

  lemma StillRight<F>(s: State<F>, events: seq<Event<F>>, e: Event<F>, o: Origins)
    requires RightIn(s, s.lines, events, o)
    ensures RightIn(s, Step(s, e).lines, events + [e], o)
  {
    forall i {:trigger s.queue[i]} | 0 <= i < |s.queue|
      ensures MadeBy(Step(s, e).lines, events + [e], s.queue[i], o.queue[i])
    {
      StillMadeBy(s, events, e, s.queue[i], o.queue[i]);
    }
    forall w {:trigger s.workers[w]} | 0 <= w < |s.workers| && !s.workers[w].Free?
      ensures MadeBy(Step(s, e).lines, events + [e], s.workers[w].msg, o.held[w])
    {
      StillMadeBy(s, events, e, s.workers[w].msg, o.held[w]);
    }
  }

  lemma TakenRight<F>(s: State<F>, w: Worker, lines: map<Conn, Line<F>>, events: seq<Event<F>>, o: Origins)
    requires RightIn(s, lines, events, o) && w < |s.workers| && s.workers[w].Free? && s.queue != []
    ensures var s' := Step(s, Base(Take(w)));
            |s'.queue| < |s.queue| && RightIn(s', lines, events, Origins(o.queue[1..], o.held[w := o.queue[0]]))
  {
    var s', o' := Step(s, Base(Take(w))), Origins(o.queue[1..], o.held[w := o.queue[0]]);
    forall i {:trigger s'.queue[i]} | 0 <= i < |s'.queue| ensures MadeBy(lines, events, s'.queue[i], o'.queue[i]) {
      assert s'.queue[i] == s.queue[i + 1];
    }
    forall v {:trigger s'.workers[v]} | 0 <= v < |s'.workers| && !s'.workers[v].Free?
      ensures v in o'.held && MadeBy(lines, events, s'.workers[v].msg, o'.held[v])
    {
      if v != w { assert s'.workers[v] == s.workers[v]; } else { assert s'.workers[v].msg == s.queue[0]; }
    }
  }

  /** Any other step but a receipt leaves the queue, and a worker keeps its message or drops it. */
  lemma OthersHold<F>(s: State<F>, e: Event<F>)
    requires e.Base? ==> !e.e.Receive? && !e.e.Take?
    ensures var s' := Step(s, e);
      && s'.queue == s.queue && |s'.workers| == |s.workers|
      && forall w {:trigger s'.workers[w]} | 0 <= w < |s.workers| && !s'.workers[w].Free? ::
           !s.workers[w].Free? && s'.workers[w].msg == s.workers[w].msg
  {
  }

  lemma StepKeepsOrigins<F>(s: State<F>, before: seq<Event<F>>, e: Event<F>, o: Origins)
    requires RightIn(s, s.lines, before, o)
    ensures RightIn(Step(s, e), Step(s, e).lines, before + [e], Moved(s, e, o, |before|))
  {
    StillRight(s, before, e, o);
    if e.Base? && e.e.Receive? {
      if e.e.c in s.lines && !s.lines[e.e.c].closed {
        ReceivedIsMade(s, before, e.e.c, e.e.fragment);
      }
    } else if e.Base? && e.e.Take? {
      if e.e.w < |s.workers| && s.workers[e.e.w].Free? && s.queue != [] {
        TakenRight(s, e.e.w, s.lines, before + [e], o);
      }
    } else {
      OthersHold(s, e);
    }
  }

  lemma {:induction false} RunKeepsOrigins<F>(start: State<F>, events: seq<Event<F>>)
    requires start.queue == [] && forall w {:trigger start.workers[w]} | 0 <= w < |start.workers| :: start.workers[w].Free?
    ensures var s := RunAll(start, events); RightIn(s, s.lines, events, OriginsOf(start, events))
    decreases |events|
  {
    if events != [] {
      var before, e := events[..|events| - 1], events[|events| - 1];
      RunKeepsOrigins(start, before);
      StepKeepsOrigins(RunAll(start, before), before, e, OriginsOf(start, before));
      assert events == before + [e];
    }
  }

  /** The check of a worker, over every run with any closes, reuses and time-outs: the message goes on to its wait if and
      only if its connection has not been closed since the event that received its fragment, and otherwise it is dropped.
      A fragment let through was received in the tenancy it is let into. */
  lemma CheckPassesIff<F>(conns: set<Conn>, workers: nat, events: seq<Event<F>>, w: Worker)
    requires var s := RunAll(Init<F>(conns, workers), events); w < |s.workers| && s.workers[w].Checking?
    ensures var s, o := RunAll(Init<F>(conns, workers), events), OriginsOf(Init<F>(conns, workers), events);
      var m, next := s.workers[w].msg, Step(s, Base(Move(w))).workers[w];
      && w in o.held && o.held[w] < |events| && events[o.held[w]] == Base(Receive(m.conn, m.fragment))
      && (next == Waiting(m) <==> NoClose(events, o.held[w], m.conn))
      && (next == Free <==> !NoClose(events, o.held[w], m.conn))
      && (next == Waiting(m) ==> !s.lines[m.conn].closed && m.fragment in s.lines[m.conn].received)
  {
    RunKeepsOrigins(Init<F>(conns, workers), events);
    var s, o := RunAll(Init<F>(conns, workers), events), OriginsOf(Init<F>(conns, workers), events);
    assert MadeBy(s.lines, events, s.workers[w].msg, o.held[w]);
  }

  // ---------------------------------------------------------------------------------------------
  // Every fragment gets through
  // ---------------------------------------------------------------------------------------------

  /** A worker lets go of its message only at the check and when it has counted it; and before it counts it has parsed the
      fragment, behind what was parsed before. */
  lemma NothingElseDrops<F>(s: State<F>, e: Event<F>, w: Worker)
    requires w < |s.workers| && !s.workers[w].Free?
    ensures var s', m := Step(s, e), s.workers[w].msg;
      && |s'.workers| == |s.workers|
      && (s'.workers[w].Free? ==> e == Base(Move(w)) && (s.workers[w].Checking? || s.workers[w].Counting?))
      && (!s'.workers[w].Free? ==> s'.workers[w].msg == m)
      && (s'.workers[w].Counting? && !s.workers[w].Counting? ==>
            && m.conn in s.lines && m.conn in s'.lines
            && s'.lines[m.conn].parsed == s.lines[m.conn].parsed + [m.fragment])
  {
  }

  ghost predicate Known<F>(s: State<F>) {
    && (forall i {:trigger s.queue[i]} | 0 <= i < |s.queue| :: s.queue[i].conn in s.lines)
    && (forall w {:trigger s.workers[w]} | 0 <= w < |s.workers| && !s.workers[w].Free? :: s.workers[w].msg.conn in s.lines)
  }

  /** Something is there to be done: a message to take, a step of a worker, or a wait that can run out. */
  predicate CanGo<F>(s: State<F>, e: Event<F>) {
    match e
    case Base(b) => P.Enabled(s, b)
    case Expire(w) => w < |s.workers| && s.workers[w].Waiting?
    case Reopen(_) => false
  }

  lemma GoingWorks<F>(s: State<F>, e: Event<F>)
    requires Known(s) && CanGo(s, e)
    ensures Known(Step(s, e)) && P.Work(Step(s, e)) < P.Work(s)
  {
    match e
    case Base(Take(w)) => P.WorkUpdate(s.workers, w, Checking(s.queue[0]));
    case Base(Move(w)) => P.WorkUpdate(s.workers, w, Step(s, e).workers[w]);
    case Expire(w) => P.WorkUpdate(s.workers, w, Parsing(s.workers[w].msg));
  }

  ghost predicate GoingRun<F>(s: State<F>, events: seq<Event<F>>)
    decreases |events|
  {
    events == [] || (CanGo(s, events[0]) && GoingRun(Step(s, events[0]), events[1..]))
  }

  function GoOn<F>(s: State<F>, events: seq<Event<F>>): State<F>
    decreases |events|
  {
    if events == [] then s else GoOn(Step(s, events[0]), events[1..])
  }

  lemma {:induction false} GoingEnds<F>(s: State<F>, more: seq<Event<F>>)
    requires Known(s) && 0 < |s.workers| && GoingRun(s, more)
    ensures |more| <= P.Work(s)
    ensures var t := GoOn(s, more); (forall e :: !CanGo(t, e)) ==> Quiet(t)
    decreases |more|
  {
    if more == [] {
      if forall e :: !CanGo(s, e) { NothingGoes(s); }
    } else {
      GoingWorks(s, more[0]);
      SameWorkers(s, more[0]);
      GoingEnds(Step(s, more[0]), more[1..]);
    }
  }

  /** Nothing is queued, and no worker holds a message. */
  ghost predicate Quiet<F>(s: State<F>) {
    s.queue == [] && forall w {:trigger s.workers[w]} | 0 <= w < |s.workers| :: s.workers[w].Free?
  }

  lemma SameWorkers<F>(s: State<F>, e: Event<F>)
    ensures |Step(s, e).workers| == |s.workers|
  {
  }

  lemma NothingGoes<F>(s: State<F>)
    requires Known(s) && 0 < |s.workers| && forall e :: !CanGo(s, e)
    ensures Quiet(s)
  {
    forall w {:trigger s.workers[w]} | 0 <= w < |s.workers| ensures s.workers[w].Free? {
      assert !CanGo(s, Base(Move(w))) && !CanGo(s, Expire(w));
    }
    assert s.workers[0].Free? && !CanGo(s, Base(Take(0)));
  }

  lemma {:induction false} RunKnows<F>(conns: set<Conn>, workers: nat, events: seq<Event<F>>)
    ensures var s := RunAll(Init<F>(conns, workers), events); Known(s) && |s.workers| == workers
    decreases |events|
  {
    if events != [] {
      var before := events[..|events| - 1];
      RunKnows(conns, workers, before);
      StepKnows(RunAll(Init<F>(conns, workers), before), events[|events| - 1]);
    }
  }

  lemma StepKnows<F>(s: State<F>, e: Event<F>)
    requires Known(s)
    ensures Known(Step(s, e)) && |Step(s, e).workers| == |s.workers|
  {
  }

  /** After any run, over any tenancies: however the workers are scheduled and the waits run out, no schedule is longer than
      the work left, and one that cannot go on has left no message queued or held. No wait blocks a worker for good. */
  lemma EveryMessageGetsThrough<F>(conns: set<Conn>, workers: nat, events: seq<Event<F>>, more: seq<Event<F>>)
    requires workers > 0 && GoingRun(RunAll(Init<F>(conns, workers), events), more)
    ensures var s := RunAll(Init<F>(conns, workers), events);
      && |more| <= P.Work(s) && ((forall e :: !CanGo(GoOn(s, more), e)) ==> Quiet(GoOn(s, more)))
  {
    RunKnows(conns, workers, events);
    GoingEnds(RunAll(Init<F>(conns, workers), events), more);
  }

  // ---------------------------------------------------------------------------------------------
  // What a second tenancy can come to
  // ---------------------------------------------------------------------------------------------

  /** State `t` ends some run in which no wait runs out. */
  ghost predicate Reached<F(!new)>(conns: set<Conn>, workers: nat, t: State<F>) {
    exists events: seq<Event<F>> ::
      RunAll(Init<F>(conns, workers), events) == t && forall i {:trigger events[i]} :: 0 <= i < |events| ==> !events[i].Expire?
  }

  lemma ThenStep<F(!new)>(conns: set<Conn>, workers: nat, s: State<F>, e: Event<F>, t: State<F>)
    requires Reached(conns, workers, s) && !e.Expire? && Step(s, e) == t
    ensures Reached(conns, workers, t)
  {
    var events: seq<Event<F>> :| RunAll(Init<F>(conns, workers), events) == s
      && forall i {:trigger events[i]} :: 0 <= i < |events| ==> !events[i].Expire?;
    var more := events + [e];
    assert more[..|more| - 1] == events;
    assert RunAll(Init<F>(conns, workers), more) == t;
  }

  /** Connection `c` has line `l`; of the first two workers `w` stands at `x`, the other at `y`. */
  function SceneOf<F>(lines: map<Conn, Line<F>>, n: nat, c: Conn, l: Line<F>, queue: seq<Message<F>>, w: Worker, x: Stage<F>,
        y: Stage<F>): State<F>
  {
    State(lines[c := l], queue, if w == 0 then C.TwoOf(n, x, y) else C.TwoOf(n, y, x))
  }

  /** The other connections have their first line. */
  function Scene<F>(conns: set<Conn>, n: nat, c: Conn, l: Line<F>, queue: seq<Message<F>>, w: Worker, x: Stage<F>,
        y: Stage<F>): State<F>
  {
    SceneOf(Init<F>(conns, 0).lines, n, c, l, queue, w, x, y)
  }

  /** A step of a worker at `x` that serves the connection with line `l`. */
  ghost predicate Moves<F>(c: Conn, l: Line<F>, x: Stage<F>, l': Line<F>, x': Stage<F>) {
    match x
    case Checking(m) => m.conn == c && m.gen == l.gen && l' == l && x' == Waiting(m)
    case Waiting(m) => m.conn == c && m.ticket == l.expected && l' == l && x' == Parsing(m)
    case Parsing(m) => m.conn == c && l' == l.(parsed := l.parsed + [m.fragment]) && x' == Counting(m)
    case Counting(m) =>
      m.conn == c && l' == l.(expected := (l.expected + 1) % TICKETS, counted := l.counted + 1) && x' == Free
    case Free => false
  }

  lemma MoveIs<F>(lines: map<Conn, Line<F>>, n: nat, c: Conn, l: Line<F>, w: Worker, x: Stage<F>, y: Stage<F>, l': Line<F>,
        x': Stage<F>)
    requires n >= 2 && w < 2 && Moves(c, l, x, l', x')
    ensures Step(SceneOf(lines, n, c, l, [], w, x, y), Base(Move(w))) == SceneOf(lines, n, c, l', [], w, x', y)
  {
    C.TwoOfUpdates(n, if w == 0 then x else y, if w == 0 then y else x, x');
    assert lines[c := l][c := l'] == lines[c := l'];
  }

  lemma ThenMoves<F(!new)>(conns: set<Conn>, n: nat, c: Conn, l: Line<F>, w: Worker, x: Stage<F>, y: Stage<F>, l': Line<F>,
        x': Stage<F>)
    requires n >= 2 && w < 2 && Moves(c, l, x, l', x') && Reached(conns, n, Scene(conns, n, c, l, [], w, x, y))
    ensures Reached(conns, n, Scene(conns, n, c, l', [], w, x', y))
  {
    MoveIs(Init<F>(conns, 0).lines, n, c, l, w, x, y, l', x');
    ThenStep(conns, n, Scene(conns, n, c, l, [], w, x, y), Base(Move(w)), Scene(conns, n, c, l', [], w, x', y));
  }

  ghost predicate Receives<F>(c: Conn, l: Line<F>, f: F, l': Line<F>, m: Message<F>) {
    && !l.closed && l' == l.(nextTicket := (l.nextTicket + 1) % TICKETS, received := l.received + [f])
    && m == Message(c, l.gen, l.nextTicket, f, |l.received|)
  }

  lemma ReceiveIs<F>(lines: map<Conn, Line<F>>, n: nat, c: Conn, l: Line<F>, queue: seq<Message<F>>, f: F, l': Line<F>,
        m: Message<F>)
    requires Receives(c, l, f, l', m)
    ensures Step(SceneOf(lines, n, c, l, queue, 0, Free, Free), Base(Receive(c, f)))
         == SceneOf(lines, n, c, l', queue + [m], 0, Free, Free)
  {
    assert lines[c := l][c := l'] == lines[c := l'];
  }

  lemma ThenReceives<F(!new)>(conns: set<Conn>, n: nat, c: Conn, l: Line<F>, queue: seq<Message<F>>, f: F, l': Line<F>,
        m: Message<F>)
    requires Receives(c, l, f, l', m) && Reached(conns, n, Scene(conns, n, c, l, queue, 0, Free, Free))
    ensures Reached(conns, n, Scene(conns, n, c, l', queue + [m], 0, Free, Free))
  {
    ReceiveIs(Init<F>(conns, 0).lines, n, c, l, queue, f, l', m);
    ThenStep(conns, n, Scene(conns, n, c, l, queue, 0, Free, Free), Base(Receive(c, f)),
             Scene(conns, n, c, l', queue + [m], 0, Free, Free));
  }

  lemma ThenTakes<F(!new)>(conns: set<Conn>, n: nat, c: Conn, l: Line<F>, m: Message<F>, queue: seq<Message<F>>, w: Worker,
        y: Stage<F>)
    requires n >= 2 && w < 2 && Reached(conns, n, Scene(conns, n, c, l, [m] + queue, w, Free, y))
    ensures Reached(conns, n, Scene(conns, n, c, l, queue, w, Checking(m), y))
  {
    C.TwoOfUpdates(n, if w == 0 then Free else y, if w == 0 then y else Free, Checking(m));
    assert ([m] + queue)[1..] == queue;
    ThenStep(conns, n, Scene(conns, n, c, l, [m] + queue, w, Free, y), Base(Take(w)),
             Scene(conns, n, c, l, queue, w, Checking(m), y));
  }

  lemma FirstReceived<F(!new)>(conns: set<Conn>, n: nat, c: Conn, f: F)
    requires c in conns
    ensures Reached(conns, n, Scene(conns, n, c, Line(1, 1, 0, false, [f], [], 0), [Message(c, 1, 0, f, 0)] + [], 0, Free, Free))
  {
    var s0: State<F> := Init(conns, n);
    var l: Line<F> := Line(1, 0, 0, false, [], [], 0);
    assert RunAll(s0, []) == s0;
    assert s0 == Scene(conns, n, c, l, [], 0, Free, Free);
    assert [] + [f] == [f] && [] + [Message(c, 1, 0, f, 0)] == [Message(c, 1, 0, f, 0)] + [];
    ThenReceives(conns, n, c, l, [], f, Line(1, 1, 0, false, [f], [], 0), Message(c, 1, 0, f, 0));
  }

  /** One fragment is received, parsed and counted. */
  lemma FirstCounted<F(!new)>(conns: set<Conn>, n: nat, c: Conn, f: F)
    requires c in conns && n >= 2
    ensures Reached(conns, n, Scene(conns, n, c, Line(1, 1, 1, false, [f], [] + [f], 1), [], 0, Free, Free))
  {
    var l, m := Line(1, 1, 0, false, [f], [], 0), Message(c, 1, 0, f, 0);
    var parsed, counted := l.(parsed := [] + [f]), Line(1, 1, 1, false, [f], [] + [f], 1);
    FirstReceived(conns, n, c, f);
    ThenTakes(conns, n, c, l, m, [], 0, Free);
    ThenMoves(conns, n, c, l, 0, Checking(m), Free, l, Waiting(m));
    ThenMoves(conns, n, c, l, 0, Waiting(m), Free, l, Parsing(m));
    ThenMoves(conns, n, c, l, 0, Parsing(m), Free, parsed, Counting(m));
    ThenMoves(conns, n, c, parsed, 0, Counting(m), Free, counted, Free);
  }

  lemma ReopenIs<F>(lines: map<Conn, Line<F>>, n: nat, c: Conn, l: Line<F>, closed: Line<F>)
    requires closed == l.(gen := l.gen + 1, closed := true)
    ensures Step(SceneOf(lines, n, c, l, [], 0, Free, Free), Base(Close(c))) == SceneOf(lines, n, c, closed, [], 0, Free, Free)
    ensures Step(SceneOf(lines, n, c, closed, [], 0, Free, Free), Reopen(c))
         == SceneOf(lines, n, c, Reopened(closed), [], 0, Free, Free)
  {
    assert lines[c := l][c := closed] == lines[c := closed];
    assert lines[c := closed][c := Reopened(closed)] == lines[c := Reopened(closed)];
  }

  /** The tenancy ends, and the connection is recycled and taken again. */
  lemma ThenReopened<F(!new)>(conns: set<Conn>, n: nat, c: Conn, l: Line<F>)
    requires Reached(conns, n, Scene(conns, n, c, l, [], 0, Free, Free))
    ensures Reached(conns, n, Scene(conns, n, c, Reopened(l.(gen := l.gen + 1, closed := true)), [], 0, Free, Free))
  {
    var closed := l.(gen := l.gen + 1, closed := true);
    ReopenIs(Init<F>(conns, 0).lines, n, c, l, closed);
    var t := Scene(conns, n, c, closed, [], 0, Free, Free);
    ThenStep(conns, n, Scene(conns, n, c, l, [], 0, Free, Free), Base(Close(c)), t);
    ThenStep(conns, n, t, Reopen(c), Scene(conns, n, c, Reopened(closed), [], 0, Free, Free));
  }

  /** The next tenancy receives two fragments, and the first two workers take one each. */
  lemma BothTaken<F(!new)>(conns: set<Conn>, n: nat, c: Conn, f: F, g: F)
    requires c in conns && n >= 2
    ensures Reached(conns, n, Scene(conns, n, c, Second(f, g), [], 1, Checking(Message(c, 4, 1, g, 1)),
                                    Checking(Message(c, 4, 0, f, 0))))
  {
    var l0: Line<F> := Line(4, 0, 1, false, [], [], 1);
    var m0, m1 := Message(c, 4, 0, f, 0), Message(c, 4, 1, g, 1);
    var l1 := l0.(nextTicket := 1, received := [] + [f]);
    FirstCounted(conns, n, c, f);
    ThenReopened(conns, n, c, Line(1, 1, 1, false, [f], [] + [f], 1));
    ThenReceives(conns, n, c, l0, [], f, l1, m0);
    ThenReceives(conns, n, c, l1, [] + [m0], g, Second(f, g), m1);
    assert [] + [m0] + [m1] == [m0] + ([m1] + []);
    ThenTakes(conns, n, c, Second(f, g), m0, [m1] + [], 0, Free);
    assert Scene(conns, n, c, Second(f, g), [m1] + [], 0, Checking(m0), Free)
        == Scene(conns, n, c, Second(f, g), [m1] + [], 1, Free, Checking(m0));
    ThenTakes(conns, n, c, Second(f, g), m1, [], 1, Checking(m0));
  }

  /** The second tenancy with two fragments received. */
  function Second<F>(f: F, g: F): Line<F> { Line(4, 2, 1, false, [] + [f] + [g], [], 1) }

  /** The second fragment of the new tenancy has been parsed; the first still waits. */
  function Overtaken<F>(conns: set<Conn>, n: nat, c: Conn, f: F, g: F): State<F> {
    Scene(conns, n, c, Second(f, g).(parsed := [] + [g]), [], 1, Counting(Message(c, 4, 1, g, 1)),
          Waiting(Message(c, 4, 0, f, 0)))
  }

  lemma OvertakenIs<F>(conns: set<Conn>, n: nat, c: Conn, f: F, g: F)
    requires n >= 2
    ensures var s := Overtaken(conns, n, c, f, g);
      && !s.lines[c].closed && s.lines[c].received == [f, g] && s.lines[c].parsed == [g]
      && s.workers[0] == Waiting(Message(c, 4, 0, f, 0)) && Step(s, Base(Move(0))) == s
  {
    C.TwoOfUpdates(n, Waiting(Message(c, 4, 0, f, 0)), Counting(Message(c, 4, 1, g, 1)), Free);
  }

  /** After one tenancy of a single fragment, two workers parse the second fragment of the next tenancy first, without
      any wait running out, and the first fragment then waits for a ticket that comes round after 2^32 fragments. */
  lemma NextTenancyOvertakes<F(!new)>(conns: set<Conn>, n: nat, c: Conn, f: F, g: F)
    requires c in conns && n >= 2
    ensures var s := Overtaken(conns, n, c, f, g);
      && Reached(conns, n, s) && !s.lines[c].closed && s.lines[c].received == [f, g] && s.lines[c].parsed == [g]
      && s.workers[0] == Waiting(Message(c, 4, 0, f, 0)) && Step(s, Base(Move(0))) == s
  {
    OvertakenReached(conns, n, c, f, g);
    OvertakenIs(conns, n, c, f, g);
  }

  lemma OvertakenReached<F(!new)>(conns: set<Conn>, n: nat, c: Conn, f: F, g: F)
    requires c in conns && n >= 2
    ensures Reached(conns, n, Overtaken(conns, n, c, f, g))
  {
    var m0, m1, l := Message(c, 4, 0, f, 0), Message(c, 4, 1, g, 1), Second(f, g);
    BothTaken(conns, n, c, f, g);
    ThenMoves(conns, n, c, l, 1, Checking(m1), Checking(m0), l, Waiting(m1));
    ThenMoves(conns, n, c, l, 1, Waiting(m1), Checking(m0), l, Parsing(m1));
    ThenMoves(conns, n, c, l, 1, Parsing(m1), Checking(m0), l.(parsed := [] + [g]), Counting(m1));
    OtherMoves(conns, n, c, l.(parsed := [] + [g]), m0, Counting(m1));
  }

  lemma OtherMoves<F(!new)>(conns: set<Conn>, n: nat, c: Conn, l: Line<F>, m: Message<F>, x: Stage<F>)
    requires n >= 2 && m.conn == c && m.gen == l.gen
    requires Reached(conns, n, Scene(conns, n, c, l, [], 1, x, Checking(m)))
    ensures Reached(conns, n, Scene(conns, n, c, l, [], 1, x, Waiting(m)))
  {
    assert Scene(conns, n, c, l, [], 1, x, Checking(m)) == Scene(conns, n, c, l, [], 0, Checking(m), x);
    ThenMoves(conns, n, c, l, 0, Checking(m), x, l, Waiting(m));
    assert Scene(conns, n, c, l, [], 1, x, Waiting(m)) == Scene(conns, n, c, l, [], 0, Waiting(m), x);
  }
}
