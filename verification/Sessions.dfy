/** The connection pool and the timer queue together, over every run of accepts,
    closes, expiries and recycler passes
    (my_socket_accept.cpp, my_socket.cpp, my_socket_time.cpp). */
module Sessions {
  import opened ConnectionPool
  import T = TimerQueue
  import opened PoolTheorems

  /** `worker_connections`, the recycling delay, the idle time, whether the kick
      clock runs, and whether an expired timer kicks its user. */
  datatype Config = Config(workers: nat, recycleWait: int, idle: int, clock: bool, kick: bool)

  /** `open` are the accepted connections whose close has not begun; `failed`
      counts the accepts undone because epoll refused the socket. */
  datatype Server = Server(pool: Pool, timers: T.Timers, open: set<nat>, failed: nat)

  datatype Step =
    | Listen(fd: int)
    | Accept(fd: int, registered: bool, now: int)
    | BeginClose(c: nat)
    | FinishClose(c: nat, now: int)
    | Expire(now: int)
    | Recycle(now: int)
    | RecycleOne(k: nat, now: int)

  ghost predicate Sane(cfg: Config) {
    cfg.workers > 0 && cfg.idle >= 5
  }

  function Start(cfg: Config): Server {
    Server(Init(cfg.workers), T.Timers([], 0, 0), {}, 0)
  }

  /** The two guards of an accept: too many users, or a large pool with few free. */
  predicate Refused(p: Pool, workers: nat) {
    p.online >= workers || (|p.connections| > workers * 5 && |p.free| < workers)
  }

  predicate Usable(p: Pool) {
    p.free != [] ==> p.free[0] < |p.connections|
  }

  /** epoll refused the socket: the connection is given back at once. */
  function Undone(s: Server, p: Pool, c: nat): Server
    requires c < |p.connections|
  {
    s.(pool := Discard(p, c), failed := s.failed + 1)
  }

  function Opened(s: Server, p: Pool, c: nat, now: int, cfg: Config): Server
    requires c < |p.connections|
  {
    var entry := T.Entry(now + cfg.idle, c, p.connections[c].gen);
    Server(p, if cfg.clock then T.Add(s.timers, entry) else s.timers, s.open + {c}, s.failed)
  }

  /** One pass of the accept loop for a socket the kernel handed over. */
  function AcceptOne(s: Server, fd: int, registered: bool, now: int, cfg: Config): Server
    requires cfg.workers > 0 && Usable(s.pool)
  {
    if Refused(s.pool, cfg.workers) then s
    else
      var (p, c) := Get(s.pool, fd, cfg.workers);
      if registered then Opened(s, p, c, now, cfg) else Undone(s, p, c)
  }

  /** `zdClosesocketProc` up to the recycle queue: the timer goes, the socket closes. */
  function BeginCloseOf(s: Server, c: nat, cfg: Config): Server
    requires c < |s.pool.connections|
  {
    s.(pool := s.pool.(connections := s.pool.connections[c := s.pool.connections[c].(fd := -1)]),
       timers := if cfg.clock then T.Delete(s.timers, c) else s.timers,
       open := s.open - {c})
  }

  /** A close names a connection; its second half does not name one that is free
      or whose new tenancy is open. (That the free list names a connection is no
      restriction: it always does, see `AlwaysAcceptable`.) */
  predicate Allowed(s: Server, e: Step) {
    match e
    case BeginClose(c) => c < |s.pool.connections|
    case FinishClose(c, _) => c < |s.pool.connections| && c !in s.pool.free && c !in s.open
    case Listen(_) => Usable(s.pool)
    case Accept(_, _, _) => Usable(s.pool)
    case _ => true
  }

  function Next(s: Server, e: Step, cfg: Config): Server
    requires cfg.workers > 0 && Allowed(s, e)
  {
    match e
    case Listen(fd) => s.(pool := Get(s.pool, fd, cfg.workers).0)
    case Accept(fd, registered, now) => AcceptOne(s, fd, registered, now, cfg)
    case BeginClose(c) => BeginCloseOf(s, c, cfg)
    case FinishClose(c, now) => s.(pool := Retire(s.pool, c, now))
    case Expire(now) => s.(timers := T.TakeExpired(s.timers, now, cfg.idle, cfg.kick).1)
    case Recycle(now) => s.(pool := Sweep(s.pool, now, cfg.recycleWait))
    case RecycleOne(k, now) => s.(pool := SweepOne(s.pool, k, now, cfg.recycleWait))
  }

  // ---- The invariant ----

  /** `w` is an open connection with its present generation. */
  predicate OpenNow(s: Server, w: (nat, nat)) {
    w.0 in s.open && w.0 < |s.pool.connections| && s.pool.connections[w.0].gen == w.1
  }

  /** One timer for each open connection, stamped with its tenancy, and no other. */
  ghost predicate Paired(s: Server) {
    forall w :: T.Watched(s.timers.entries)[w] == if OpenNow(s, w) then 1 else 0
  }

  ghost predicate SessionInv(s: Server, cfg: Config) {
    && Inv(s.pool)
    && T.Consistent(s.timers)
    && (forall c :: c in s.open ==> StatusOf(s.pool, c) == Used)
    && s.pool.online == UsedCount(s.pool) + s.failed
    && (if cfg.clock then Paired(s) else s.timers.entries == [])
  }

  /** What a pool event leaves alone: the open connections and their generations. */
  ghost predicate SameOpen(p: Pool, q: Pool, open: set<nat>) {
    forall c :: c in open ==>
      && c < |p.connections| && c < |q.connections|
      && StatusOf(q, c) == Used && q.connections[c].gen == p.connections[c].gen
  }

  lemma StillPaired(s: Server, p: Pool)
    requires Paired(s) && SameOpen(s.pool, p, s.open)
    ensures Paired(s.(pool := p))
  {
    forall w ensures OpenNow(s.(pool := p), w) == OpenNow(s, w) {
    }
  }

  /** `p` is the pool of `s` just after `c` was taken from it. */
  ghost predicate JustTaken(s: Server, p: Pool, c: nat) {
    && SameOpen(s.pool, p, s.open) && Inv(p)
    && p.online == UsedCount(p) + s.failed
    && StatusOf(p, c) == Used && c !in s.open
  }

  lemma GetLeavesOpen(s: Server, fd: int, cfg: Config)
    requires SessionInv(s, cfg) && Sane(cfg)
    ensures var (p, c) := Get(s.pool, fd, cfg.workers); JustTaken(s, p, c)
  {
    var e := PoolTheorems.Take(fd);
    GetKeepsInv(s.pool, fd, cfg.workers);
    StepOnline(s.pool, e, cfg.workers, 0);
    forall c | c in s.open
      ensures SameOpen(s.pool, Get(s.pool, fd, cfg.workers).0, {c})
    {
      StepMovesGeneration(s.pool, e, cfg.workers, 0, c);
    }
    assert SameOpen(s.pool, Get(s.pool, fd, cfg.workers).0, s.open);
  }

  lemma DiscardLeavesOpen(p: Pool, c: nat, open: set<nat>)
    requires Inv(p) && c < |p.connections| && StatusOf(p, c) == Used && c !in open
    requires forall o :: o in open ==> StatusOf(p, o) == Used
    ensures Inv(Discard(p, c)) && SameOpen(p, Discard(p, c), open)
    ensures Discard(p, c).online - UsedCount(Discard(p, c)) == p.online - UsedCount(p) + 1
  {
    DiscardKeepsInvIff(p, c);
  }

  lemma UndoneKeeps(s: Server, p: Pool, c: nat, cfg: Config)
    requires SessionInv(s, cfg) && JustTaken(s, p, c)
    ensures SessionInv(Undone(s, p, c), cfg)
  {
    DiscardLeavesOpen(p, c, s.open);
    assert SameOpen(s.pool, Discard(p, c), s.open);
    if cfg.clock {
      StillPaired(s, Discard(p, c));
    }
  }

  lemma OpenedKeeps(s: Server, p: Pool, c: nat, now: int, cfg: Config)
    requires SessionInv(s, cfg) && JustTaken(s, p, c)
    ensures SessionInv(Opened(s, p, c, now, cfg), cfg)
  {
    if cfg.clock {
      var entry := T.Entry(now + cfg.idle, c, p.connections[c].gen);
      T.ChangesStayConsistent(s.timers, entry, c, now, cfg.idle, cfg.kick);
      StillPaired(s, p);
      PairedWithNew(s.(pool := p), entry);
    }
  }

  lemma AcceptKeeps(s: Server, fd: int, registered: bool, now: int, cfg: Config)
    requires SessionInv(s, cfg) && Sane(cfg)
    ensures Usable(s.pool) && SessionInv(AcceptOne(s, fd, registered, now, cfg), cfg)
  {
    GetLeavesOpen(s, fd, cfg);
    var (p, c) := Get(s.pool, fd, cfg.workers);
    UndoneKeeps(s, p, c, cfg);
    OpenedKeeps(s, p, c, now, cfg);
  }

  lemma PairedWithNew(s: Server, entry: T.Entry)
    requires Paired(s) && entry.conn !in s.open
    requires entry.conn < |s.pool.connections| && entry.stamp == s.pool.connections[entry.conn].gen
    ensures Paired(s.(timers := T.Add(s.timers, entry), open := s.open + {entry.conn}))
  {
    T.WatchedInsert(s.timers.entries, entry);
    var t := s.(timers := T.Add(s.timers, entry), open := s.open + {entry.conn});
    forall w ensures OpenNow(t, w) == (OpenNow(s, w) || w == (entry.conn, entry.stamp)) {
    }
  }

  lemma BeginCloseKeeps(s: Server, c: nat, cfg: Config)
    requires SessionInv(s, cfg) && Sane(cfg) && c < |s.pool.connections|
    ensures SessionInv(BeginCloseOf(s, c, cfg), cfg)
  {
    var t := BeginCloseOf(s, c, cfg);
    if cfg.clock {
      T.ChangesStayConsistent(s.timers, T.Entry(0, 0, 0), c, 0, cfg.idle, cfg.kick);
      forall w ensures T.Watched(t.timers.entries)[w] == if OpenNow(t, w) then 1 else 0 {
        T.WatchedWithout(s.timers.entries, c, w);
      }
    }
  }

  lemma PoolEventKeeps(s: Server, e: PoolTheorems.Event, cfg: Config)
    requires SessionInv(s, cfg) && Sane(cfg) && Legal(s.pool, e) && !e.CloseNow? && !e.Take?
    requires e.Close? ==> e.c !in s.open
    ensures SessionInv(s.(pool := Apply(s.pool, e, cfg.workers, cfg.recycleWait)), cfg)
  {
    var p := Apply(s.pool, e, cfg.workers, cfg.recycleWait);
    StepKeepsInv(s.pool, e, cfg.workers, cfg.recycleWait);
    StepOnline(s.pool, e, cfg.workers, cfg.recycleWait);
    forall c | c in s.open ensures SameOpen(s.pool, p, {c}) {
      if e.Recycle? {
        SelectIs(s.pool, s.pool.recycle, e.at, cfg.recycleWait, true);
        SelectIs(s.pool, s.pool.recycle, e.at, cfg.recycleWait, false);
      } else if e.RecycleOne? {
        SweepOneStatus(s.pool, e.k, e.at, cfg.recycleWait, c);
      }
    }
    assert SameOpen(s.pool, p, s.open);
    if cfg.clock {
      StillPaired(s, p);
    }
  }

  lemma RequeueWatchesTheSame(t: T.Timers, now: int, wait: int)
    requires T.Consistent(t)
    ensures var next := T.TakeExpired(t, now, wait, false).1;
      T.Consistent(next) && T.Watched(next.entries) == T.Watched(t.entries)
      && (t.entries == [] ==> next.entries == [])
  {
    T.ChangesStayConsistent(t, T.Entry(0, 0, 0), 0, now, wait, false);
    if t.entries != [] {
      var e, rest := t.entries[0], t.entries[1..];
      T.WatchedInsert(rest, e.(key := now + wait));
      T.WatchedFirst(e, rest);
      assert t.entries == [e] + rest;
    }
  }

  lemma SameWatchesPaired(s: Server, t: T.Timers)
    requires Paired(s) && T.Watched(t.entries) == T.Watched(s.timers.entries)
    ensures Paired(s.(timers := t))
  {
    forall w ensures OpenNow(s.(timers := t), w) == OpenNow(s, w) {
    }
  }

  lemma ExpireKeeps(s: Server, now: int, cfg: Config)
    requires SessionInv(s, cfg) && !cfg.kick
    ensures SessionInv(s.(timers := T.TakeExpired(s.timers, now, cfg.idle, false).1), cfg)
  {
    RequeueWatchesTheSame(s.timers, now, cfg.idle);
    if cfg.clock {
      SameWatchesPaired(s, T.TakeExpired(s.timers, now, cfg.idle, false).1);
    }
  }

  lemma StepKeepsSessions(s: Server, e: Step, cfg: Config)
    requires SessionInv(s, cfg) && Sane(cfg) && !cfg.kick && Allowed(s, e)
    ensures SessionInv(Next(s, e, cfg), cfg)
  {
    match e
    case Listen(fd) =>
      GetLeavesOpen(s, fd, cfg);
      if cfg.clock {
        StillPaired(s, Get(s.pool, fd, cfg.workers).0);
      }
    case Accept(fd, registered, now) => AcceptKeeps(s, fd, registered, now, cfg);
    case BeginClose(c) => BeginCloseKeeps(s, c, cfg);
    case FinishClose(c, now) => PoolEventKeeps(s, PoolTheorems.Close(c, now), cfg);
    case Expire(now) => ExpireKeeps(s, now, cfg);
    case Recycle(now) => PoolEventKeeps(s, PoolTheorems.Recycle(now), cfg);
    case RecycleOne(k, now) => PoolEventKeeps(s, PoolTheorems.RecycleOne(k, now), cfg);
  }

  /** The second half of a close keeps the invariant exactly when it names neither a
      free connection nor one that is open again. */
  lemma FinishCloseKeepsIff(s: Server, c: nat, now: int, cfg: Config)
    requires SessionInv(s, cfg) && Sane(cfg) && c < |s.pool.connections|
    ensures SessionInv(s.(pool := Retire(s.pool, c, now)), cfg) <==> c !in s.pool.free && c !in s.open
  {
    RetireKeepsInvIff(s.pool, c, now);
    if c !in s.pool.free && c !in s.open {
      PoolEventKeeps(s, PoolTheorems.Close(c, now), cfg);
    }
  }

  /** An expiry keeps the pairing exactly when it does not drop a timer: users are
      not kicked, or none is due. Kicking removes the timer and closes nothing. */
  lemma ExpireKeepsIff(s: Server, now: int, cfg: Config)
    requires SessionInv(s, cfg) && Sane(cfg) && cfg.clock
    ensures SessionInv(s.(timers := T.TakeExpired(s.timers, now, cfg.idle, cfg.kick).1), cfg)
       <==> !cfg.kick || s.timers.entries == [] || now < s.timers.entries[0].key
  {
    if !cfg.kick {
      ExpireKeeps(s, now, cfg);
    } else if s.timers.entries != [] && s.timers.entries[0].key <= now {
      var e := s.timers.entries[0];
      var t := T.TakeExpired(s.timers, now, cfg.idle, true).1;
      T.WatchedFirst(e, s.timers.entries[1..]);
      assert s.timers.entries == [e] + s.timers.entries[1..];
      var w := (e.conn, e.stamp);
      assert T.Watched(s.timers.entries)[w] == 1 + T.Watched(t.entries)[w];
      assert OpenNow(s.(timers := t), w) == OpenNow(s, w);
    }
  }

  /** What an expiry does when users are not kicked: with the earliest timer due, that one entry is put back to run out
      `idle` seconds from now; otherwise nothing changes. */
  lemma ExpirePostpones(s: Server, now: int, cfg: Config)
    requires Sane(cfg) && !cfg.kick
    ensures var t := Next(s, Expire(now), cfg); var was, left := s.timers.entries, t.timers.entries;
      && t == s.(timers := t.timers)
      && (if was == [] || was[0].key > now then t == s
          else multiset(left) == multiset(was) - multiset{was[0]} + multiset{was[0].(key := now + cfg.idle)})
  {
    T.ExpiryPostpones(s.timers, now, cfg.idle);
  }

  // ---- Runs ----

  ghost predicate IsSessionRun(states: seq<Server>, steps: seq<Step>, cfg: Config) {
    && Sane(cfg) && !cfg.kick
    && |states| == |steps| + 1
    && states[0] == Start(cfg)
    && (forall i :: 0 <= i < |steps| ==>
          Allowed(states[i], steps[i]) && states[i + 1] == Next(states[i], steps[i], cfg))
  }

  lemma AlwaysAcceptable(states: seq<Server>, steps: seq<Step>, cfg: Config, i: nat)
    requires IsSessionRun(states, steps, cfg) && i < |states|
    ensures Usable(states[i].pool)
  {
    RunKeepsSessions(states, steps, cfg, i);
  }

  lemma {:induction false} RunKeepsSessions(states: seq<Server>, steps: seq<Step>, cfg: Config, i: nat)
    requires IsSessionRun(states, steps, cfg) && i < |states|
    ensures SessionInv(states[i], cfg)
  {
    if i == 0 {
      InitHolds(cfg.workers);
    } else {
      RunKeepsSessions(states, steps, cfg, i - 1);
      StepKeepsSessions(states[i - 1], steps[i - 1], cfg);
    }
  }

  function Pairs(s: Server, open: set<nat>): set<(nat, nat)> {
    set c | c in open && c < |s.pool.connections| :: (c, s.pool.connections[c].gen)
  }

  lemma {:induction false} PairsSize(s: Server, open: set<nat>)
    requires forall c :: c in open ==> c < |s.pool.connections|
    ensures |Pairs(s, open)| == |open|
  {
    if open != {} {
      var c :| c in open;
      PairsSize(s, open - {c});
      assert Pairs(s, open) == Pairs(s, open - {c}) + {(c, s.pool.connections[c].gen)};
    }
  }

  /** In every reachable state with the kick clock on: as many timers as open
      connections, exactly one for each and with its stamp, the size counted, the
      earliest expiry cached. */
  lemma TimersMatchSessions(states: seq<Server>, steps: seq<Step>, cfg: Config, i: nat)
    requires IsSessionRun(states, steps, cfg) && i < |states| && cfg.clock
    ensures var s := states[i];
            && T.Watched(s.timers.entries) == multiset(Pairs(s, s.open))
            && s.timers.size == |s.timers.entries| == |s.open|
            && (s.timers.entries != [] ==> forall e :: e in s.timers.entries ==> s.timers.head <= e.key)
            && (s.open != {} ==> s.timers.head == T.Earliest(s.timers.entries))
  {
    RunKeepsSessions(states, steps, cfg, i);
    var s := states[i];
    forall w ensures multiset(Pairs(s, s.open))[w] == if OpenNow(s, w) then 1 else 0 {
    }
    PairsSize(s, s.open);
    assert |T.Watched(s.timers.entries)| == |s.timers.entries|;
  }

  /** Each undone accept leaves the online count one too high, so after as many of
      them as there are workers every accept is refused, whoever is connected. */
  lemma DriftRefusesEveryone(states: seq<Server>, steps: seq<Step>, cfg: Config, i: nat, fd: int, registered: bool,
        now: int)
    requires IsSessionRun(states, steps, cfg) && i < |states|
    ensures states[i].pool.online == |HandedOut(states[i].pool)| + states[i].failed
    ensures Usable(states[i].pool)
    ensures states[i].failed >= cfg.workers ==> AcceptOne(states[i], fd, registered, now, cfg) == states[i]
  {
    RunKeepsSessions(states, steps, cfg, i);
    HandedOutSize(states[i].pool);
  }

  /** Nobody is connected, and the pool has its first size. */
  predicate NobodyConnected(s: Server, cfg: Config) {
    && s.open == {} && s.timers.entries == []
    && |s.pool.free| == |s.pool.connections| == cfg.workers && s.pool.online == s.failed
  }

  lemma UndoneAcceptDrifts(s: Server, fd: int, now: int, cfg: Config)
    requires Sane(cfg) && Usable(s.pool) && NobodyConnected(s, cfg) && s.failed < cfg.workers
    ensures var t := AcceptOne(s, fd, false, now, cfg); NobodyConnected(t, cfg) && t.failed == s.failed + 1
  {
  }

  lemma RunGoesOn(states: seq<Server>, steps: seq<Step>, e: Step, cfg: Config)
    requires IsSessionRun(states, steps, cfg) && Allowed(states[|steps|], e)
    ensures IsSessionRun(states + [Next(states[|steps|], e, cfg)], steps + [e], cfg)
  {
  }

  /** In every configuration epoll's refusals alone lead to a state in which nobody is connected and every accept, of
      whatever socket, is refused. */
  lemma {:induction false} DriftLocksOut(cfg: Config, n: nat) returns (states: seq<Server>, steps: seq<Step>)
    requires Sane(cfg) && !cfg.kick && n <= cfg.workers
    ensures IsSessionRun(states, steps, cfg) && |steps| == n
    ensures NobodyConnected(states[n], cfg) && states[n].failed == n && Usable(states[n].pool)
    ensures n == cfg.workers ==> forall fd, registered, now :: AcceptOne(states[n], fd, registered, now, cfg) == states[n]
  {
    if n == 0 {
      states, steps := [Start(cfg)], [];
    } else {
      states, steps := DriftLocksOut(cfg, n - 1);
      var e, s := Accept(0, false, 0), states[n - 1];
      UndoneAcceptDrifts(s, 0, 0, cfg);
      RunGoesOn(states, steps, e, cfg);
      states, steps := states + [Next(s, e, cfg)], steps + [e];
    }
    AlwaysAcceptable(states, steps, cfg, n);
  }

  // ---- A whole close ----

  /** `zdClosesocketProc` from its start to its end. */
  function CloseOf(s: Server, c: nat, now: int, cfg: Config): Server
    requires c < |s.pool.connections|
  {
    var b := BeginCloseOf(s, c, cfg);
    b.(pool := Retire(b.pool, c, now))
  }

  /** A close of a connection in use leaves it waiting for the recycler with its socket
      closed and no timer; closing it again, at any time, changes nothing. */
  lemma CloseIsFinal(s: Server, c: nat, now: int, later: int, cfg: Config)
    requires SessionInv(s, cfg) && StatusOf(s.pool, c) == Used
    ensures var t := CloseOf(s, c, now, cfg);
      && StatusOf(t.pool, c) == Recycling && WaitsSince(t.pool, c, now) && c !in t.open
      && t.pool.connections[c].fd == -1 && T.Absent(t.timers.entries, c)
      && t.pool.online == s.pool.online - 1
      && CloseOf(t, c, later, cfg) == t
  {
    var t := CloseOf(s, c, now, cfg);
    assert t.pool.recycle == s.pool.recycle + [c];
    T.WithoutAbsent(s.timers.entries, c);
    T.WithoutAbsent(t.timers.entries, c);
    assert t.pool.connections[c := t.pool.connections[c].(fd := -1)] == t.pool.connections;
    assert BeginCloseOf(t, c, cfg) == t;
  }

  /** The two halves of a close, one step after the other, are the whole close. */
  lemma CloseInSteps(s: Server, c: nat, now: int, cfg: Config)
    requires SessionInv(s, cfg) && Sane(cfg) && StatusOf(s.pool, c) == Used
    ensures Allowed(s, BeginClose(c)) && Allowed(Next(s, BeginClose(c), cfg), FinishClose(c, now))
    ensures Next(Next(s, BeginClose(c), cfg), FinishClose(c, now), cfg) == CloseOf(s, c, now, cfg)
  {
  }

  /** A listening socket takes a connection that was in no one's hands, and opens no session. */
  lemma ListenTakes(s: Server, fd: int, cfg: Config)
    requires SessionInv(s, cfg) && Sane(cfg)
    ensures Usable(s.pool)
    ensures var t := Next(s, Listen(fd), cfg);
      && t.open == s.open && t.timers == s.timers
      && exists c: nat :: StatusOf(s.pool, c) != Used && StatusOf(t.pool, c) == Used && t.pool.connections[c].fd == fd
  {
    TakeGivesSocket(s.pool, fd, cfg.workers);
    var (p, c) := Get(s.pool, fd, cfg.workers);
    GetKeepsInv(s.pool, fd, cfg.workers);
    assert StatusOf(s.pool, c) != Used && StatusOf(p, c) == Used;
  }

  /** A recycler pass frees exactly the closed connections that have waited long enough, and touches nothing else. */
  lemma RecycleFrees(s: Server, now: int, c: nat, cfg: Config)
    requires SessionInv(s, cfg) && Sane(cfg) && c < |s.pool.connections|
    ensures var t := Next(s, Step.Recycle(now), cfg);
      && t.open == s.open && t.timers == s.timers && t.failed == s.failed
      && StatusOf(t.pool, c) ==
           (if StatusOf(s.pool, c) == Recycling && s.pool.connections[c].since + cfg.recycleWait <= now then Free
            else StatusOf(s.pool, c))
  {
    RecyclerFreesTheRipe(s.pool, now, cfg.recycleWait, c);
  }

  lemma OpenedThenClosed(s: Server, p: Pool, c: nat, now: int, later: int, cfg: Config)
    requires SessionInv(s, cfg) && JustTaken(s, p, c)
    ensures var accepted := Opened(s, p, c, now, cfg);
      && (cfg.clock ==> T.Entry(now + cfg.idle, c, p.connections[c].gen) in accepted.timers.entries)
      && var closed := CloseOf(accepted, c, later, cfg);
      && closed.timers.entries == s.timers.entries && closed.timers.size == s.timers.size
      && closed.open == s.open && closed.pool.online == p.online - 1
  {
    if cfg.clock {
      NoTimerYet(s, c);
      T.AddedThenDeleted(s.timers, T.Entry(now + cfg.idle, c, p.connections[c].gen));
    }
    RetireCounts(BeginCloseOf(Opened(s, p, c, now, cfg), c, cfg).pool, c, later);
  }

  lemma RetireCounts(p: Pool, c: nat, now: int)
    requires c < |p.connections| && p.connections[c].id == c && c !in p.recycle
    requires forall r :: r in p.recycle && r < |p.connections| ==> p.connections[r].id == r
    ensures Retire(p, c, now).online == p.online - 1
  {
  }

  /** A close undoes the accept before it, as far as timers and open connections go. */
  lemma AcceptThenClose(s: Server, fd: int, now: int, later: int, cfg: Config)
    requires SessionInv(s, cfg) && Sane(cfg) && Usable(s.pool) && !Refused(s.pool, cfg.workers)
    ensures var (p, c) := Get(s.pool, fd, cfg.workers);
      var accepted := AcceptOne(s, fd, true, now, cfg);
      && c < |accepted.pool.connections| && c in accepted.open && accepted.pool.connections[c].fd == fd
      && (cfg.clock ==> T.Entry(now + cfg.idle, c, p.connections[c].gen) in accepted.timers.entries)
      && var closed := CloseOf(accepted, c, later, cfg);
      && closed.timers.entries == s.timers.entries && closed.timers.size == s.timers.size
      && closed.open == s.open && closed.pool.online == s.pool.online
  {
    GetLeavesOpen(s, fd, cfg);
    var (p, c) := Get(s.pool, fd, cfg.workers);
    assert AcceptOne(s, fd, true, now, cfg) == Opened(s, p, c, now, cfg);
    OpenedThenClosed(s, p, c, now, later, cfg);
  }

  lemma NoTimerYet(s: Server, c: nat)
    requires Paired(s) && c !in s.open
    ensures T.Absent(s.timers.entries, c)
  {
    forall e | e in s.timers.entries ensures e.conn != c {
      var i :| 0 <= i < |s.timers.entries| && s.timers.entries[i] == e;
      assert T.Conns(s.timers.entries)[i] == (e.conn, e.stamp);
      assert (e.conn, e.stamp) in T.Watched(s.timers.entries);
      assert OpenNow(s, (e.conn, e.stamp));
    }
  }

  // ---- Which accepts succeed ----

  /** Room for a session, in numbers of the run: fewer users than workers, each undone accept counted as one, and the pool
      not large with few free connections left. */
  predicate Room(s: Server, workers: nat) {
    |HandedOut(s.pool)| + s.failed < workers && (|s.pool.connections| <= 5 * workers || |s.pool.free| >= workers)
  }

  /** In every reachable state an accept opens one new session exactly when there is room, or counts as undone when epoll
      refuses the socket; without room it changes nothing. */
  lemma AcceptsIff(states: seq<Server>, steps: seq<Step>, cfg: Config, i: nat, fd: int, registered: bool, now: int)
    requires IsSessionRun(states, steps, cfg) && i < |states|
    ensures Usable(states[i].pool)
    ensures var s := states[i]; var t := AcceptOne(s, fd, registered, now, cfg);
      && (Room(s, cfg.workers) && registered ==>
            exists c :: c !in s.open && t.open == s.open + {c} && t.failed == s.failed && StatusOf(t.pool, c) == Used)
      && (Room(s, cfg.workers) && !registered ==> t.open == s.open && t.failed == s.failed + 1)
      && (!Room(s, cfg.workers) ==> t == s)
  {
    RunKeepsSessions(states, steps, cfg, i);
    RoomIsNotRefused(states[i], cfg);
    if Room(states[i], cfg.workers) {
      AcceptWithRoom(states[i], fd, registered, now, cfg);
    }
  }

  lemma RoomIsNotRefused(s: Server, cfg: Config)
    requires SessionInv(s, cfg)
    ensures Room(s, cfg.workers) <==> !Refused(s.pool, cfg.workers)
  {
    HandedOutSize(s.pool);
  }

  lemma AcceptWithRoom(s: Server, fd: int, registered: bool, now: int, cfg: Config)
    requires SessionInv(s, cfg) && Sane(cfg) && !Refused(s.pool, cfg.workers)
    ensures Usable(s.pool)
    ensures var t := AcceptOne(s, fd, registered, now, cfg);
      if registered then
        exists c :: c !in s.open && t.open == s.open + {c} && t.failed == s.failed && StatusOf(t.pool, c) == Used
      else t.open == s.open && t.failed == s.failed + 1
  {
    GetLeavesOpen(s, fd, cfg);
    var (p, c) := Get(s.pool, fd, cfg.workers);
    if registered {
      var t := Opened(s, p, c, now, cfg);
      assert t.open == s.open + {c} && StatusOf(t.pool, c) == Used;
    }
  }

  // ---- Limits ----

  lemma SubsetSize(a: set<nat>, b: set<nat>)
    requires a <= b
    ensures |a| <= |b|
  {
    assert b == a + (b - a);
  }

  lemma OpenAreCounted(s: Server, cfg: Config)
    requires SessionInv(s, cfg)
    ensures |s.open| <= s.pool.online
  {
    forall c | c in s.open ensures c in HandedOut(s.pool) {
      HandedOutIs(s.pool, c);
    }
    HandedOutSize(s.pool);
    SubsetSize(s.open, HandedOut(s.pool));
  }

  /** The accept guard on the online count bounds the open sessions, drift or not. */
  lemma {:induction false} NeverMoreSessionsThanWorkers(states: seq<Server>, steps: seq<Step>, cfg: Config, i: nat)
    requires IsSessionRun(states, steps, cfg) && i < |states|
    ensures |states[i].open| <= cfg.workers
  {
    if i > 0 {
      var s := states[i - 1];
      NeverMoreSessionsThanWorkers(states, steps, cfg, i - 1);
      RunKeepsSessions(states, steps, cfg, i - 1);
      OpenAreCounted(s, cfg);
      StepOpensOne(s, steps[i - 1], cfg);
    }
  }

  lemma StepOpensOne(s: Server, e: Step, cfg: Config)
    requires cfg.workers > 0 && Allowed(s, e)
    ensures |Next(s, e, cfg).open| <= |s.open| + (if s.pool.online < cfg.workers then 1 else 0)
  {
    match e
    case BeginClose(c) => SubsetSize(s.open - {c}, s.open);
    case Accept(fd, registered, now) =>
    case _ =>
  }

  /** The second guard bounds the pool: growing only while it is at most five times the
      workers, it never has more than six times as many connections. */
  lemma {:induction false} PoolStaysSmall(states: seq<Server>, steps: seq<Step>, cfg: Config, i: nat)
    requires IsSessionRun(states, steps, cfg) && i < |states|
    requires forall k :: 0 < k < |steps| ==> !steps[k].Listen?
    ensures |states[i].pool.connections| <= 6 * cfg.workers
    ensures i == 0 ==> |states[i].pool.free| == cfg.workers
  {
    if i > 0 {
      PoolStaysSmall(states, steps, cfg, i - 1);
      AlwaysAcceptable(states, steps, cfg, i - 1);
      StepGrowth(states[i - 1], steps[i - 1], cfg);
    }
  }

  lemma StepGrowth(s: Server, e: Step, cfg: Config)
    requires cfg.workers > 0 && Allowed(s, e)
    ensures var n := |Next(s, e, cfg).pool.connections|;
      || n == |s.pool.connections|
      || (n == |s.pool.connections| + cfg.workers && s.pool.free == []
          && (e.Listen? || |s.pool.connections| <= 5 * cfg.workers))
  {
  }
}
