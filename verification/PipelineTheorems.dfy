/** What the ticket protocol guarantees for any number of connections and of workers up to 2^32. */
module PipelineTheorems {
  import opened TicketPipeline

  /** While a connection's tenancy lasts, at most one worker is between its wait and its ticket increment. */
  lemma AtMostOneParses<F>(conns: set<Conn>, workers: nat, events: seq<Event<F>>, v: Worker, w: Worker)
    requires workers <= 0x1_0000_0000
    requires var s := RunAll(Init<F>(conns, workers), events);
             && v < |s.workers| && w < |s.workers| && v != w
             && (s.workers[v].Parsing? || s.workers[v].Counting?) && (s.workers[w].Parsing? || s.workers[w].Counting?)
             && s.workers[v].msg.conn in s.lines && !s.lines[s.workers[v].msg.conn].closed
    ensures var s := RunAll(Init<F>(conns, workers), events);
            s.workers[v].msg.conn != s.workers[w].msg.conn
  {
    var s := RunAll(Init<F>(conns, workers), events);
    InitInv<F>(conns, workers);
    RunInv(Init<F>(conns, workers), events);
    if s.workers[v].msg.conn == s.workers[w].msg.conn {
      OneInside(s, v, w);
      assert false;
    }
  }

  /** The fragments parsed so far are a prefix of those received, and the context's ticket is their number modulo 2^32;
      only while a worker stands between parsing and counting is the ticket one behind. */
  lemma ParsedInOrder<F>(conns: set<Conn>, workers: nat, events: seq<Event<F>>, c: Conn)
    requires workers <= 0x1_0000_0000
    requires var s := RunAll(Init<F>(conns, workers), events); c in s.lines && !s.lines[c].closed
    ensures var s := RunAll(Init<F>(conns, workers), events); var l := s.lines[c];
            && l.parsed <= l.received
            && (CountingFor(s, c) ==> |l.parsed| == l.counted + 1 && l.expected == (|l.parsed| - 1) % 0x1_0000_0000)
            && (!CountingFor(s, c) ==> l.expected == |l.parsed| % 0x1_0000_0000)
  {
    var s := RunAll(Init<F>(conns, workers), events);
    InitInv<F>(conns, workers);
    RunInv(Init<F>(conns, workers), events);
    assert LineInv(s.lines[c]) && Covered(s, c);
    if CountingFor(s, c) {
      var w :| 0 <= w < |s.workers| && s.workers[w].Counting? && s.workers[w].msg.conn == c;
      assert StageInv(s.lines, s.workers[w]);
    }
  }

  // ---------------------------------------------------------------------------------------------
  // Progress
  // ---------------------------------------------------------------------------------------------

  ghost predicate AllOpen<F>(s: State<F>) {
    forall c {:trigger s.lines[c]} | c in s.lines :: !s.lines[c].closed
  }

  /** A fragment is outstanding: queued, or held by a worker. */
  ghost predicate Outstanding<F>(s: State<F>) {
    s.queue != [] || exists w {:trigger s.workers[w]} :: 0 <= w < |s.workers| && !s.workers[w].Free?
  }

  predicate Enabled<F>(s: State<F>, e: Event<F>) {
    match e
    case Take(w) => w < |s.workers| && s.workers[w].Free? && s.queue != []
    case Move(w) =>
      && w < |s.workers| && !s.workers[w].Free? && s.workers[w].msg.conn in s.lines
      && (s.workers[w].Waiting? ==> s.lines[s.workers[w].msg.conn].expected == s.workers[w].msg.ticket)
    case _ => false
  }

  /** The worker holding the fragment expected next can move even when every worker waits. */
  lemma NextHolderMoves<F>(s: State<F>, w: Worker) returns (v: Worker)
    requires Inv(s) && AllOpen(s) && w < |s.workers| && !s.workers[w].Free?
    ensures Enabled(s, Move(v))
  {
    var m := s.workers[w].msg;
    assert Good(s.lines, m) && Covered(s, m.conn) && LineInv(s.lines[m.conn]);
    var k := s.lines[m.conn].counted;
    HeldBeforeQueued(s, w, k);
    assert Held(s, m.conn, k);
    v :| 0 <= v < |s.workers| && HoldsIndex(s.workers[v], m.conn, k);
    assert Good(s.lines, s.workers[v].msg);
  }

  /** Some worker can always move while fragments are outstanding and no connection has been closed. */
  lemma Progress<F>(s: State<F>) returns (e: Event<F>)
    requires Inv(s) && AllOpen(s) && |s.workers| > 0 && Outstanding(s)
    ensures Enabled(s, e)
  {
    if w :| 0 <= w < |s.workers| && !s.workers[w].Free? {
      var v := NextHolderMoves(s, w);
      e := Move(v);
    } else {
      e := Take(0);
    }
  }

  /** Steps a worker still makes with the message it holds. */
  function StageWork<F>(stage: Stage<F>): nat {
    match stage
    case Free => 0
    case Checking(_) => 4
    case Waiting(_) => 3
    case Parsing(_) => 2
    case Counting(_) => 1
  }

  function WorkersWork<F>(workers: seq<Stage<F>>): nat {
    if workers == [] then 0 else WorkersWork(workers[..|workers| - 1]) + StageWork(workers[|workers| - 1])
  }

  function Work<F>(s: State<F>): nat { 5 * |s.queue| + WorkersWork(s.workers) }

  lemma {:induction false} WorkUpdate<F>(workers: seq<Stage<F>>, w: Worker, stage: Stage<F>)
    requires w < |workers|
    ensures WorkersWork(workers[w := stage]) == WorkersWork(workers) - StageWork(workers[w]) + StageWork(stage)
    decreases |workers|
  {
    var n := |workers| - 1;
    if w == n {
      assert workers[w := stage][..n] == workers[..n];
    } else {
      assert workers[w := stage][..n] == workers[..n][w := stage];
      WorkUpdate(workers[..n], w, stage);
    }
  }

  lemma EnabledWorks<F>(s: State<F>, e: Event<F>)
    requires Inv(s) && AllOpen(s) && |s.workers| <= 0x1_0000_0000 && Enabled(s, e)
    ensures Work(Step(s, e)) < Work(s) && AllOpen(Step(s, e))
    ensures Step(s, e).lines.Keys == s.lines.Keys && forall c | c in s.lines :: Step(s, e).lines[c].received == s.lines[c].received
  {
    match e
    case Take(w) => WorkUpdate(s.workers, w, Checking(s.queue[0]));
    case Move(w) => MoveWorks(s, w);
  }

  lemma MoveWorks<F>(s: State<F>, w: Worker)
    requires AllOpen(s) && Enabled(s, Move(w))
    ensures var s' := MoveWorker(s, w);
      && Work(s') < Work(s) && AllOpen(s') && s'.lines.Keys == s.lines.Keys
      && forall c | c in s.lines :: s'.lines[c].received == s.lines[c].received
  {
    WorkUpdate(s.workers, w, MoveWorker(s, w).workers[w]);
  }

  lemma {:induction false} FreeIsDone<F>(workers: seq<Stage<F>>)
    requires forall w {:trigger workers[w]} | 0 <= w < |workers| :: workers[w].Free?
    ensures WorkersWork(workers) == 0
    decreases |workers|
  {
    if workers != [] {
      assert workers[|workers| - 1].Free?;
      forall w {:trigger workers[..|workers| - 1][w]} | 0 <= w < |workers| - 1 ensures workers[..|workers| - 1][w].Free? {
        assert workers[w].Free?;
      }
      FreeIsDone(workers[..|workers| - 1]);
    }
  }

  /** Every event of the schedule is a worker step that is enabled when its turn comes. */
  ghost predicate WorkerRun<F>(s: State<F>, events: seq<Event<F>>)
    decreases |events|
  {
    events == [] || (Enabled(s, events[0]) && WorkerRun(Step(s, events[0]), events[1..]))
  }

  /** From any reachable state with every connection open, no schedule of worker steps goes on for more than `Work(s)`
      steps, and one that cannot be continued has parsed every fragment of every connection, in order. */
  lemma {:induction false} EverySchedulePasses<F>(s: State<F>, events: seq<Event<F>>)
    requires Inv(s) && AllOpen(s) && 0 < |s.workers| <= 0x1_0000_0000 && WorkerRun(s, events)
    ensures |events| <= Work(s)
    ensures var t := RunAll(s, events);
            (forall e :: !Enabled(t, e)) ==> forall c | c in s.lines :: c in t.lines && t.lines[c].parsed == s.lines[c].received
    decreases |events|
  {
    if events == [] {
      if forall e :: !Enabled(s, e) { StuckIsDone(s); }
    } else {
      StepInv(s, events[0]);
      EnabledWorks(s, events[0]);
      EverySchedulePasses(Step(s, events[0]), events[1..]);
    }
  }

  lemma StuckIsDone<F>(s: State<F>)
    requires Inv(s) && AllOpen(s) && |s.workers| > 0 && forall e :: !Enabled(s, e)
    ensures forall c | c in s.lines :: s.lines[c].parsed == s.lines[c].received
  {
    if Outstanding(s) { var e := Progress(s); }
    forall c | c in s.lines ensures s.lines[c].parsed == s.lines[c].received {
      var l := s.lines[c];
      assert LineInv(l) && Covered(s, c);
      assert !Held(s, c, l.counted) && !Queued(s, c, l.counted);
    }
  }

  // ---------------------------------------------------------------------------------------------
  // What "received" means
  // ---------------------------------------------------------------------------------------------

  /** The fragments the events deliver to connection `c`, in order. */
  function Arrivals<F>(events: seq<Event<F>>, c: Conn): seq<F> {
    if events == [] then []
    else (if events[0].Receive? && events[0].c == c then [events[0].fragment] else []) + Arrivals(events[1..], c)
  }

  lemma OneArrival<F>(s: State<F>, e: Event<F>, c: Conn)
    requires AllOpen(s) && c in s.lines && !e.Close?
    ensures var s' := Step(s, e);
      && AllOpen(s') && c in s'.lines
      && s'.lines[c].received == s.lines[c].received + (if e.Receive? && e.c == c then [e.fragment] else [])
  {
  }

  /** Without a close, exactly the delivered fragments are recorded as received. */
  lemma {:induction false} ReceivedIsArrivals<F>(s: State<F>, events: seq<Event<F>>, c: Conn)
    requires AllOpen(s) && c in s.lines && forall i | 0 <= i < |events| :: !events[i].Close?
    ensures var t := RunAll(s, events);
            AllOpen(t) && c in t.lines && t.lines[c].received == s.lines[c].received + Arrivals(events, c)
    decreases |events|
  {
    if events != [] {
      assert !events[0].Close?;
      var s' := Step(s, events[0]);
      OneArrival(s, events[0], c);
      ReceivedIsArrivals(s', events[1..], c);
      assert s'.lines[c].received + Arrivals(events[1..], c) == s.lines[c].received + Arrivals(events, c);
    }
  }

  /** End to end: deliver fragments in any interleaving with worker steps, then let the workers run as long as they can.
      Each connection has parsed exactly its delivered fragments, in order. */
  lemma DeliveredIsParsed<F>(conns: set<Conn>, workers: nat, events: seq<Event<F>>, rest: seq<Event<F>>, c: Conn)
    requires 0 < workers <= 0x1_0000_0000 && c in conns && forall i | 0 <= i < |events| :: !events[i].Close?
    requires WorkerRun(RunAll(Init<F>(conns, workers), events), rest)
    requires forall e :: !Enabled(RunAll(RunAll(Init<F>(conns, workers), events), rest), e)
    ensures var t := RunAll(RunAll(Init<F>(conns, workers), events), rest);
            c in t.lines && t.lines[c].parsed == Arrivals(events, c)
  {
    InitInv<F>(conns, workers);
    RunInv(Init<F>(conns, workers), events);
    ReceivedIsArrivals(Init<F>(conns, workers), events, c);
    EverySchedulePasses(RunAll(Init<F>(conns, workers), events), rest);
  }
}
