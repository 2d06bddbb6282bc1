/** The cached or fixed thread pool and its draining shutdown (threadpoolfinal.hpp).
    Each step is one region under the pool's lock, one task, or one atomic count. */
module ThreadPool {

  /** `Waiting` at the lock or a condition, `Busy` with a task, or `Done` with it but
      not yet counted as idle. */
  datatype Worker = Waiting | Busy(task: nat) | Done

  /** The sizes set before the start; `queueMax` is after the conversion to `size_t`. */
  datatype Config = Config(cached: bool, initSize: nat, threshold: int, queueMax: nat)

  /** The pool's fields, and the history: how many tasks were accepted (a task is named
      by its number), which ones ran, and how many workers left in the shutdown. */
  datatype Pool = Pool(
    threads: map<nat, Worker>, queue: seq<nat>,
    curSize: int, idleSize: int, taskSize: int, isRunning: bool,
    nextId: nat, accepted: nat, ran: seq<nat>, left: nat)

  datatype Step =
    | Submit
    | Take(t: nat)
    | Finish(t: nat)
    | Recount(t: nat)
    | TimeOut(t: nat)
    | Destroy
    | Leave(t: nat)

  function Waiters(n: nat): (m: map<nat, Worker>)
    ensures |m| == n && |IdleIn(m)| == n
    ensures forall t: nat :: t in m <==> t < n
    ensures forall t :: t in m ==> m[t] == Waiting
  {
    if n == 0 then map[]
    else
      AddedWaiting(Waiters(n - 1), n - 1);
      Waiters(n - 1)[n - 1 := Waiting]
  }

  /** The waiting workers. */
  function IdleIn(m: map<nat, Worker>): set<nat> {
    set t | t in m && m[t] == Waiting
  }

  lemma AddedWaiting(m: map<nat, Worker>, t: nat)
    requires t !in m
    ensures |m[t := Waiting]| == |m| + 1 && |IdleIn(m[t := Waiting])| == |IdleIn(m)| + 1
  {
    assert m[t := Waiting].Keys == m.Keys + {t};
    assert IdleIn(m[t := Waiting]) == IdleIn(m) + {t};
  }

  lemma Removed(m: map<nat, Worker>, t: nat)
    requires t in m && m[t] == Waiting
    ensures |m - {t}| == |m| - 1 && |IdleIn(m - {t})| == |IdleIn(m)| - 1
  {
    assert m.Keys == (m - {t}).Keys + {t};
    assert IdleIn(m) == IdleIn(m - {t}) + {t};
  }

  function One(w: Worker): nat {
    if w == Waiting then 1 else 0
  }

  lemma Changed(m: map<nat, Worker>, t: nat, w: Worker)
    requires t in m
    ensures |m[t := w]| == |m| && |IdleIn(m[t := w])| == |IdleIn(m)| - One(m[t]) + One(w)
  {
    assert m[t := w].Keys == m.Keys;
    OthersIdle(m, t);
    OthersIdle(m[t := w], t);
    assert IdleIn(m[t := w]) - {t} == IdleIn(m) - {t};
  }

  lemma OthersIdle(m: map<nat, Worker>, t: nat)
    requires t in m
    ensures |IdleIn(m)| == |IdleIn(m) - {t}| + One(m[t])
  {
    if m[t] == Waiting {
      assert IdleIn(m) == (IdleIn(m) - {t}) + {t};
    } else {
      assert IdleIn(m) == IdleIn(m) - {t};
    }
  }

  function Start(cfg: Config): Pool {
    Pool(Waiters(cfg.initSize), [], cfg.initSize, cfg.initSize, 0, true, cfg.initSize, 0, [], 0)
  }

  predicate Is(p: Pool, t: nat, w: Worker) {
    t in p.threads && p.threads[t] == w
  }

  /** `submitTask` accepts a task while the queue has room. */
  function AfterSubmit(p: Pool, cfg: Config): Pool {
    if |p.queue| >= cfg.queueMax then p
    else
      var q := p.(queue := p.queue + [p.accepted], accepted := p.accepted + 1, taskSize := p.taskSize + 1);
      if cfg.cached && q.taskSize > q.idleSize && q.curSize < cfg.threshold then
        q.(threads := q.threads[q.nextId := Waiting], nextId := q.nextId + 1,
           idleSize := q.idleSize + 1, curSize := q.curSize + 1)
      else q
  }

  function AfterTake(p: Pool, t: nat): Pool
    requires p.queue != []
  {
    p.(threads := p.threads[t := Busy(p.queue[0])], queue := p.queue[1..],
       idleSize := p.idleSize - 1, taskSize := p.taskSize - 1)
  }

  function AfterTimeOut(p: Pool, t: nat): Pool {
    p.(threads := p.threads - {t}, curSize := p.curSize - 1, idleSize := p.idleSize - 1)
  }

  function AfterLeave(p: Pool, t: nat): Pool {
    p.(threads := p.threads - {t}, left := p.left + 1)
  }

  /** When a step can happen. A worker that timed out leaves without another look at
      the queue. No task is submitted once the destruction has begun. */
  predicate Can(p: Pool, s: Step, cfg: Config) {
    match s
    case Submit => p.isRunning
    case Take(t) => Is(p, t, Waiting) && p.queue != []
    case Finish(t) => t in p.threads && p.threads[t].Busy?
    case Recount(t) => Is(p, t, Done)
    case TimeOut(t) => Is(p, t, Waiting) && cfg.cached && p.curSize > cfg.initSize
    case Destroy => true
    case Leave(t) => Is(p, t, Waiting) && p.queue == [] && !p.isRunning
  }

  function Next(p: Pool, s: Step, cfg: Config): Pool
    requires Can(p, s, cfg)
  {
    match s
    case Submit => AfterSubmit(p, cfg)
    case Take(t) => AfterTake(p, t)
    case Finish(t) => p.(threads := p.threads[t := Done], ran := p.ran + [p.threads[t].task])
    case Recount(t) => p.(threads := p.threads[t := Waiting], idleSize := p.idleSize + 1)
    case TimeOut(t) => AfterTimeOut(p, t)
    case Destroy => p.(isRunning := false)
    case Leave(t) => AfterLeave(p, t)
  }

  ghost predicate IsRun(states: seq<Pool>, steps: seq<Step>, cfg: Config) {
    && |states| == |steps| + 1
    && states[0] == Start(cfg)
    && (forall i :: 0 <= i < |steps| ==>
          Can(states[i], steps[i], cfg) && states[i + 1] == Next(states[i], steps[i], cfg))
  }

  // ---- Every task is in one place ----

  /** The number of tasks taken off the queue. */
  function TakenCount(p: Pool): int {
    p.accepted - |p.queue|
  }

  /** The queue holds the last accepted tasks, in order. */
  ghost predicate QueueInOrder(p: Pool) {
    TakenCount(p) >= 0 && forall i :: 0 <= i < |p.queue| ==> p.queue[i] == TakenCount(p) + i
  }

  /** Each taken task has run or is with exactly one worker, and none has run twice. */
  ghost predicate TakenOnce(p: Pool) {
    && (forall i :: 0 <= i < |p.ran| ==> p.ran[i] < TakenCount(p))
    && (forall i, j :: 0 <= i < j < |p.ran| ==> p.ran[i] != p.ran[j])
    && (forall t :: t in p.threads && p.threads[t].Busy? ==>
          p.threads[t].task < TakenCount(p) && p.threads[t].task !in p.ran)
    && (forall t, u :: t in p.threads && u in p.threads && t != u && p.threads[t].Busy? ==> p.threads[t] != p.threads[u])
    && Placed(p, TakenCount(p))
  }

  function Most(cfg: Config): int {
    if cfg.cached && cfg.threshold > cfg.initSize then cfg.threshold else cfg.initSize
  }

  /** The counters; leaving in the shutdown does not change them, and starts only when
      nothing is queued. */
  ghost predicate Counted(p: Pool, cfg: Config) {
    && p.curSize == |p.threads| + p.left
    && p.idleSize == |IdleIn(p.threads)| + p.left
    && p.taskSize == |p.queue|
    && cfg.initSize <= p.curSize <= Most(cfg)
    && (p.left > 0 ==> !p.isRunning && p.queue == [])
    && (forall t :: t in p.threads ==> t < p.nextId)
  }

  lemma StepKeepsQueue(p: Pool, s: Step, cfg: Config)
    requires QueueInOrder(p) && Can(p, s, cfg)
    ensures QueueInOrder(Next(p, s, cfg))
  {
  }

  /** Every task below `n` has run or is with a worker. */
  ghost predicate Placed(p: Pool, n: int) {
    forall k: nat :: k < n ==> k in p.ran || exists t :: Is(p, t, Busy(k))
  }

  lemma StillPlaced(p: Pool, q: Pool, n: int)
    requires Placed(p, n)
    requires forall k: nat :: k in p.ran ==> k in q.ran
    requires forall t, k :: Is(p, t, Busy(k)) ==> Is(q, t, Busy(k)) || k in q.ran
    ensures Placed(q, n)
  {
    forall k: nat | k < n ensures k in q.ran || exists t :: Is(q, t, Busy(k)) {
      if k !in p.ran {
        var t :| Is(p, t, Busy(k));
        assert Is(q, t, Busy(k)) || k in q.ran;
      }
    }
  }

  lemma TakePlaces(p: Pool, t: nat, cfg: Config)
    requires QueueInOrder(p) && Placed(p, TakenCount(p)) && Can(p, Take(t), cfg)
    ensures Placed(AfterTake(p, t), TakenCount(p) + 1)
  {
    var q := AfterTake(p, t);
    assert p.queue[0] == TakenCount(p);
    StillPlaced(p, q, TakenCount(p));
    assert Is(q, t, Busy(p.queue[0]));
  }

  lemma StepPlaces(p: Pool, s: Step, cfg: Config)
    requires QueueInOrder(p) && Placed(p, TakenCount(p)) && Can(p, s, cfg) && (forall t :: t in p.threads ==> t < p.nextId)
    ensures Placed(Next(p, s, cfg), TakenCount(Next(p, s, cfg)))
  {
    if s.Take? {
      TakePlaces(p, s.t, cfg);
    } else {
      StillPlaced(p, Next(p, s, cfg), TakenCount(p));
    }
  }

  lemma StepTakesOnce(p: Pool, s: Step, cfg: Config)
    requires QueueInOrder(p) && TakenOnce(p) && Can(p, s, cfg) && (forall t :: t in p.threads ==> t < p.nextId)
    ensures TakenOnce(Next(p, s, cfg))
  {
    StepPlaces(p, s, cfg);
    if s.Take? {
      assert p.queue[0] == TakenCount(p);
    }
  }

  lemma StepKeepsCounts(p: Pool, s: Step, cfg: Config)
    requires Counted(p, cfg) && Can(p, s, cfg)
    ensures Counted(Next(p, s, cfg), cfg)
  {
    match s
    case Submit => AddedWaiting(p.threads, p.nextId);
    case Take(t) => Changed(p.threads, t, Busy(p.queue[0]));
    case Finish(t) => Changed(p.threads, t, Done);
    case Recount(t) => Changed(p.threads, t, Waiting);
    case TimeOut(t) => Removed(p.threads, t);
    case Destroy =>
    case Leave(t) => Removed(p.threads, t);
  }

  lemma StartCounts(cfg: Config)
    ensures QueueInOrder(Start(cfg)) && TakenOnce(Start(cfg)) && Counted(Start(cfg), cfg)
  {
  }

  ghost predicate Inv(p: Pool, cfg: Config) {
    QueueInOrder(p) && TakenOnce(p) && Counted(p, cfg)
  }

  lemma {:induction false} RunKeepsInv(states: seq<Pool>, steps: seq<Step>, cfg: Config, i: nat)
    requires IsRun(states, steps, cfg) && i < |states|
    ensures Inv(states[i], cfg)
  {
    if i == 0 {
      StartCounts(cfg);
    } else {
      RunKeepsInv(states, steps, cfg, i - 1);
      StepKeepsQueue(states[i - 1], steps[i - 1], cfg);
      StepTakesOnce(states[i - 1], steps[i - 1], cfg);
      StepKeepsCounts(states[i - 1], steps[i - 1], cfg);
    }
  }

  /** While the pool runs the thread count is the size of the thread map and stays
      between the initial size and the threshold, the idle count is the number of
      waiting workers, and the task count the length of the queue. */
  lemma CountsWhileRunning(states: seq<Pool>, steps: seq<Step>, cfg: Config, i: nat)
    requires IsRun(states, steps, cfg) && i < |states| && states[i].isRunning
    requires cfg.initSize <= cfg.threshold
    ensures var p := states[i];
      && p.curSize == |p.threads|
      && cfg.initSize <= p.curSize <= cfg.threshold
      && p.idleSize == |IdleIn(p.threads)|
      && p.taskSize == |p.queue|
  {
    RunKeepsInv(states, steps, cfg, i);
  }

  /** A submission, exactly: the task joins the queue if and only if it has room, and a waiting thread joins the others if and
      only if it was accepted in cached mode with more tasks queued than threads waiting and fewer threads than allowed. */
  lemma SubmitDoes(states: seq<Pool>, steps: seq<Step>, cfg: Config, i: nat)
    requires IsRun(states, steps, cfg) && i < |steps| && steps[i] == Submit
    ensures var p, q := states[i], states[i + 1];
      var accepts := |p.queue| < cfg.queueMax;
      var grows := accepts && cfg.cached && |p.queue| + 1 > |IdleIn(p.threads)| && |p.threads| < cfg.threshold;
      && q.accepted == p.accepted + (if accepts then 1 else 0)
      && q.queue == p.queue + (if accepts then [p.accepted] else [])
      && (if grows then exists t: nat :: t !in p.threads && q.threads == p.threads[t := Waiting] else q.threads == p.threads)
      && q.ran == p.ran && q.isRunning
  {
    RunKeepsInv(states, steps, cfg, i);
    var p, q := states[i], states[i + 1];
    assert p.queue + [] == p.queue;
    assert p.nextId !in p.threads;
    assert q.threads == p.threads || q.threads == p.threads[p.nextId := Waiting];
  }

  // ---- Shutdown ----

  /** The destructor's wait can end. */
  predicate Ended(p: Pool) {
    !p.isRunning && |p.threads| == 0
  }

  /** Every accepted task has run exactly once, none is queued, none is running. */
  ghost predicate AllRan(p: Pool) {
    && p.queue == []
    && (forall t :: t in p.threads ==> !p.threads[t].Busy?)
    && |p.ran| == p.accepted
    && (forall k: nat :: k < p.accepted <==> k in p.ran)
  }

  lemma HasElement(s: seq<nat>)
    requires s != []
    ensures exists k :: k in s
  {
    assert s[0] in s;
  }

  lemma {:induction false} DistinctCover(s: seq<nat>, n: nat)
    requires forall i, j :: 0 <= i < j < |s| ==> s[i] != s[j]
    requires forall k: nat :: k < n <==> k in s
    ensures |s| == n
    decreases n
  {
    if n == 0 {
      if s != [] {
        HasElement(s);
      }
    } else {
      assert n - 1 in s;
      var i :| 0 <= i < |s| && s[i] == n - 1;
      var rest := s[..i] + s[i + 1..];
      forall k: nat | k < n - 1 ensures k in rest {
        assert k in s;
        var j :| 0 <= j < |s| && s[j] == k;
        assert rest[if j < i then j else j - 1] == k;
      }
      assert forall k :: k in rest ==> k in s;
      DistinctCover(rest, n - 1);
    }
  }

  lemma EndedHasRunAll(p: Pool, cfg: Config)
    requires Inv(p, cfg) && Ended(p) && (cfg.initSize >= 1 || p.queue == [])
    ensures AllRan(p)
  {
    assert p.threads == map[];
    forall k: nat | k < p.accepted ensures k in p.ran {
      assert forall t :: !Is(p, t, Busy(k));
    }
    DistinctCover(p.ran, p.accepted);
  }

  ghost predicate DrainsAlways(cfg: Config) {
    forall states, steps :: IsRun(states, steps, cfg) && Ended(states[|states| - 1]) ==> AllRan(states[|states| - 1])
  }

  lemma {:induction false} NothingAccepted(states: seq<Pool>, steps: seq<Step>, cfg: Config, i: nat)
    requires IsRun(states, steps, cfg) && i < |states| && cfg.queueMax == 0
    ensures states[i].queue == []
  {
    if i > 0 {
      NothingAccepted(states, steps, cfg, i - 1);
    }
  }

  /** A fixed pool of no threads, or a cached one with no thread to spare, is destroyed
      with its task still queued. */
  lemma NoThreadAtAll(cfg: Config) returns (states: seq<Pool>, steps: seq<Step>)
    requires cfg.initSize == 0 && cfg.queueMax > 0 && (!cfg.cached || cfg.threshold <= 0)
    ensures IsRun(states, steps, cfg) && Ended(states[|states| - 1]) && !AllRan(states[|states| - 1])
  {
    var p0 := Start(cfg);
    var p1 := Next(p0, Submit, cfg);
    var p2 := Next(p1, Destroy, cfg);
    states, steps := [p0, p1, p2], [Submit, Destroy];
    assert p0.threads == map[];
    assert p2.queue == [0];
  }

  lemma Extend(states: seq<Pool>, steps: seq<Step>, cfg: Config, s: Step)
    requires IsRun(states, steps, cfg) && Can(states[|states| - 1], s, cfg)
    ensures IsRun(states + [Next(states[|states| - 1], s, cfg)], steps + [s], cfg)
  {
  }

  /** The pool after its first task has run, its only thread waiting again. */
  const ONE_DONE: Pool := Pool(map[0 := Waiting], [], 1, 1, 0, true, 1, 1, [0], 0)

  lemma FirstTaskRuns(cfg: Config) returns (states: seq<Pool>, steps: seq<Step>)
    requires cfg.initSize == 0 && cfg.queueMax > 0 && cfg.cached && cfg.threshold > 0
    ensures IsRun(states, steps, cfg) && states[|states| - 1] == ONE_DONE
  {
    states := [
      Pool(map[], [], 0, 0, 0, true, 0, 0, [], 0),
      Pool(map[0 := Waiting], [0], 1, 1, 1, true, 1, 1, [], 0),
      Pool(map[0 := Busy(0)], [], 1, 0, 0, true, 1, 1, [], 0),
      Pool(map[0 := Done], [], 1, 0, 0, true, 1, 1, [0], 0),
      ONE_DONE];
    steps := [Submit, Take(0), Finish(0), Recount(0)];
  }

  /** A cached pool that started with no thread loses the second task when its only
      thread times out before it looks at the queue again. */
  lemma OnlyThreadTimesOut(cfg: Config) returns (states: seq<Pool>, steps: seq<Step>)
    requires cfg.initSize == 0 && cfg.queueMax > 0 && cfg.cached && cfg.threshold > 0
    ensures IsRun(states, steps, cfg) && Ended(states[|states| - 1]) && !AllRan(states[|states| - 1])
  {
    states, steps := FirstTaskRuns(cfg);
    var queued := AfterSubmit(ONE_DONE, cfg);
    var alone := AfterTimeOut(queued, 0);
    Extend(states, steps, cfg, Submit);
    states, steps := states + [queued], steps + [Submit];
    Extend(states, steps, cfg, TimeOut(0));
    states, steps := states + [alone], steps + [TimeOut(0)];
    Extend(states, steps, cfg, Destroy);
    states, steps := states + [alone.(isRunning := false)], steps + [Destroy];
    assert alone.threads == map[] && alone.queue == [1];
  }

  /** In every run with no submission after the destruction began, the destructor's
      wait ends only when every accepted task has run exactly once: exactly when the
      pool starts with a thread (or its queue takes no task at all). */
  lemma DrainsIff(cfg: Config)
    ensures DrainsAlways(cfg) <==> cfg.initSize >= 1 || cfg.queueMax == 0
  {
    if cfg.initSize >= 1 || cfg.queueMax == 0 {
      forall states, steps | IsRun(states, steps, cfg) && Ended(states[|states| - 1])
        ensures AllRan(states[|states| - 1])
      {
        RunKeepsInv(states, steps, cfg, |states| - 1);
        if cfg.queueMax == 0 {
          NothingAccepted(states, steps, cfg, |states| - 1);
        }
        EndedHasRunAll(states[|states| - 1], cfg);
      }
    } else if cfg.cached && cfg.threshold > 0 {
      var states, steps := OnlyThreadTimesOut(cfg);
      assert !DrainsAlways(cfg);
    } else {
      var states, steps := NoThreadAtAll(cfg);
      assert !DrainsAlways(cfg);
    }
  }

  // ---- The pool as an object ----

  datatype Outcome = GotTask(task: nat) | Exits | Waits

  class Workers {
    var threads: map<nat, Worker>
    var queue: seq<nat>
    var curSize: int
    var idleSize: int
    var taskSize: int
    var isRunning: bool
    var nextId: nat
    var accepted: nat
    ghost var ran: seq<nat>
    ghost var left: nat
    const cfg: Config

    ghost function View(): Pool
      reads this
    {
      Pool(threads, queue, curSize, idleSize, taskSize, isRunning, nextId, accepted, ran, left)
    }

    /** The constructor and `start`. */
    constructor (cfg: Config)
      ensures View() == Start(cfg) && this.cfg == cfg
    {
      this.cfg := cfg;
      threads, queue, accepted, ran, left := map[], [], 0, [], 0;
      curSize, idleSize, taskSize, isRunning, nextId := cfg.initSize, 0, 0, true, 0;
      new;
      for i := 0 to cfg.initSize
        invariant nextId == idleSize == i && threads == Waiters(i)
        invariant queue == [] && accepted == 0 && ran == [] && left == 0
        invariant curSize == cfg.initSize && taskSize == 0 && isRunning
      {
        threads := threads[nextId := Waiting];
        nextId := nextId + 1;
        idleSize := idleSize + 1;
      }
    }

    method SubmitTask() returns (ok: bool)
      modifies this
      ensures View() == AfterSubmit(old(View()), cfg) && ok == (accepted == old(accepted) + 1)
      ensures ok <==> old(|queue|) < cfg.queueMax
    {
      if |queue| >= cfg.queueMax {
        return false;
      }
      queue := queue + [accepted];
      accepted := accepted + 1;
      taskSize := taskSize + 1;
      if cfg.cached && taskSize > idleSize && curSize < cfg.threshold {
        threads := threads[nextId := Waiting];
        nextId := nextId + 1;
        idleSize := idleSize + 1;
        curSize := curSize + 1;
      }
      ok := true;
    }

    /** One stay of a worker under the lock: on arrival, or after a wait that may have
        timed out when the worker had been idle for long. */
    method Locked(t: nat, timedOut: bool, idleLong: bool) returns (o: Outcome)
      requires Is(View(), t, Waiting)
      modifies this
      ensures match o
        case GotTask(task) =>
          old(queue) != [] && task == old(queue[0]) && View() == AfterTake(old(View()), t)
        case Exits =>
          || (timedOut && idleLong && Can(old(View()), TimeOut(t), cfg) && View() == AfterTimeOut(old(View()), t))
          || (Can(old(View()), Leave(t), cfg) && View() == AfterLeave(old(View()), t))
        case Waits => View() == old(View()) && queue == [] && isRunning
      ensures timedOut && idleLong && cfg.cached && old(curSize) > cfg.initSize ==> o == Exits
      ensures o == Waits ==> !(timedOut && idleLong && cfg.cached && old(curSize) > cfg.initSize)
      ensures old(queue) != [] && !(timedOut && idleLong && cfg.cached && old(curSize) > cfg.initSize) ==> o.GotTask?
      ensures o == Exits && old(isRunning) ==> timedOut && idleLong && cfg.cached && old(curSize) > cfg.initSize
    {
      if timedOut && cfg.cached {
        if idleLong && curSize > cfg.initSize {
          threads := threads - {t};
          curSize := curSize - 1;
          idleSize := idleSize - 1;
          return Exits;
        }
      }
      if |queue| == 0 {
        if !isRunning {
          threads := threads - {t};
          left := left + 1;
          return Exits;
        }
        return Waits;
      }
      idleSize := idleSize - 1;
      var task := queue[0];
      threads := threads[t := Busy(task)];
      queue := queue[1..];
      taskSize := taskSize - 1;
      o := GotTask(task);
    }
  }
}
