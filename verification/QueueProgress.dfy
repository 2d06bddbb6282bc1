/** A call that runs alone comes to its end: from any reachable state, with any number of other threads stopped anywhere, a
    thread whose exchanges do not fail spuriously finishes its call within a number of steps that only depends on how far
    the tail lags behind. */
module QueueProgress {
  import opened Common
  import opened LockFreeQueue

  /** By how many links the tail lags behind. */
  function Lag<T>(s: State<T>): nat { if |s.linked| > s.Rank(s.tail) >= 0 then |s.linked| - s.Rank(s.tail) else 0 }

  /** Steps a thread still needs when it runs alone. */
  function StepsLeft<T>(s: State<T>, pc: Pc<T>): nat {
    var again := 4 * Lag(s) + 6;
    match pc
    case EnqLoadTail(_) => again
    case EnqLoadNext(_, oldTail) => if oldTail == s.tail then again - 1 else again + 2
    case EnqRecheck(_, oldTail, next) =>
      if oldTail != s.tail then again + 1 else if next == s.Next(oldTail) then again - 2 else again + 2
    case EnqLink(_, oldTail) => if s.Next(oldTail).None? then 3 else again + 1
    case EnqHelp(_, oldTail, _) => if s.tail == oldTail && Lag(s) > 0 then again - 3 else again + 1
    case EnqCount(_) => 2
    case EnqStoreTail(_) => 1
    case _ => StepsOfDequeue(s, pc)
  }

  function StepsOfDequeue<T>(s: State<T>, pc: Pc<T>): nat {
    var again := 5 * Lag(s) + 6;
    match pc
    case DeqLoadHead => again
    case DeqLoadTail(oldHead) => if oldHead == s.head then again - 1 else again + 4
    case DeqLoadNext(oldHead, oldTail) => if oldHead == s.head && oldTail == s.tail then again - 2 else again + 3
    case DeqRecheck(oldHead, oldTail, next) =>
      if oldHead == s.head && oldTail == s.tail && next == s.Next(oldHead) then again - 3 else again + 2
    case DeqHelp(oldTail, _) => if s.tail == oldTail && Lag(s) > 0 then again - 4 else again + 1
    case DeqSwing(oldHead, _, _) => if oldHead == s.head then 2 else again + 1
    case DeqUncount(_) => 1
    case _ => 0
  }

  /** The node behind the tail is one place on, and there is none exactly when nothing lags. */
  ghost predicate LagKnown<T>(s: State<T>) {
    && 0 <= s.Rank(s.tail) <= |s.linked| && (s.Next(s.tail).None? <==> Lag(s) == 0)
    && (s.Next(s.tail).Some? ==> s.Rank(s.Next(s.tail).value) == s.Rank(s.tail) + 1)
  }

  lemma LagIsKnown<T>(s: State<T>)
    requires Chain(s)
    ensures LagKnown(s)
  {
    assert s.nodes[s.tail].rank.Some?;
    assert s.nodes[s.tail].next == Successor(s.nodes[s.tail].rank, s.order);
    if s.Next(s.tail).Some? { NextRank(s, s.tail); }
  }

  lemma LinkAdvances<T>(s: State<T>, t: Thread)
    requires t in s.pcs && s.pcs[t].EnqLink? && LocalInv(s, s.pcs[t])
    ensures var s' := StepEnqueue(s, t, false); StepsLeft(s', s'.Pc(t)) < StepsLeft(s, s.Pc(t))
  {
  }

  /** A step that moves nothing but, at most, the tail by one place: the lag of the new state is known. */
  lemma EnqueueHelpAdvances<T>(s: State<T>, t: Thread)
    requires LagKnown(s) && t in s.pcs && s.pcs[t].EnqHelp? && s.Next(s.pcs[t].oldTail) == Some(s.pcs[t].succ)
    ensures var s' := StepEnqueue(s, t, false); StepsLeft(s', s'.Pc(t)) < StepsLeft(s, s.Pc(t))
  {
    var s' := StepEnqueue(s, t, false);
    if s.tail == s.pcs[t].oldTail {
      assert Lag(s') == Lag(s) - 1;
    } else {
      assert Lag(s') == Lag(s);
    }
  }

  lemma EnqueueRecheckAdvances<T>(s: State<T>, t: Thread)
    requires LagKnown(s) && t in s.pcs && s.pcs[t].EnqRecheck?
    requires s.pcs[t].next.Some? ==> s.Next(s.pcs[t].oldTail) == s.pcs[t].next
    ensures var s' := StepEnqueue(s, t, false); StepsLeft(s', s'.Pc(t)) < StepsLeft(s, s.Pc(t))
  {
    var s' := StepEnqueue(s, t, false);
    assert Lag(s') == Lag(s) && s'.tail == s.tail && s'.nodes == s.nodes;
  }

  lemma EnqueueLoadAdvances<T>(s: State<T>, t: Thread)
    requires t in s.pcs && s.pcs[t].Enqueuing() && !s.pcs[t].EnqRecheck? && !s.pcs[t].EnqLink? && !s.pcs[t].EnqHelp?
    ensures var s' := StepEnqueue(s, t, false); StepsLeft(s', s'.Pc(t)) < StepsLeft(s, s.Pc(t))
  {
  }

  lemma EnqueueAdvances<T>(s: State<T>, t: Thread)
    requires LagKnown(s) && t in s.pcs && s.pcs[t].Enqueuing() && LocalInv(s, s.pcs[t])
    ensures var s' := StepEnqueue(s, t, false); StepsLeft(s', s'.Pc(t)) < StepsLeft(s, s.Pc(t))
  {
    match s.pcs[t]
    case EnqRecheck(_, _, _) => EnqueueRecheckAdvances(s, t);
    case EnqLink(_, _) => LinkAdvances(s, t);
    case EnqHelp(_, _, _) => EnqueueHelpAdvances(s, t);
    case _ => EnqueueLoadAdvances(s, t);
  }

  lemma RecheckAdvances<T>(s: State<T>, t: Thread)
    requires LagKnown(s) && t in s.pcs && s.pcs[t].DeqRecheck?
    requires s.pcs[t].next.Some? ==> s.Next(s.pcs[t].oldHead) == s.pcs[t].next
    ensures var s' := StepDequeue(s, t, false); StepsLeft(s', s'.Pc(t)) < StepsLeft(s, s.Pc(t))
  {
    var s' := StepDequeue(s, t, false);
    assert Lag(s') == Lag(s) && s'.tail == s.tail && s'.head == s.head && s'.nodes == s.nodes;
  }

  lemma HelpAdvances<T>(s: State<T>, t: Thread)
    requires LagKnown(s) && t in s.pcs && s.pcs[t].DeqHelp? && s.Next(s.pcs[t].oldTail) == Some(s.pcs[t].succ)
    ensures var s' := StepDequeue(s, t, false); StepsLeft(s', s'.Pc(t)) < StepsLeft(s, s.Pc(t))
  {
    var s' := StepDequeue(s, t, false);
    if s.tail == s.pcs[t].oldTail {
      assert Lag(s') == Lag(s) - 1;
    } else {
      assert Lag(s') == Lag(s);
    }
  }

  lemma LoadAdvances<T>(s: State<T>, t: Thread)
    requires t in s.pcs && s.pcs[t].Dequeuing() && !s.pcs[t].DeqRecheck? && !s.pcs[t].DeqHelp?
    ensures var s' := StepDequeue(s, t, false); StepsLeft(s', s'.Pc(t)) < StepsLeft(s, s.Pc(t))
  {
  }

  lemma DequeueAdvances<T>(s: State<T>, t: Thread)
    requires LagKnown(s) && t in s.pcs && s.pcs[t].Dequeuing() && LocalInv(s, s.pcs[t])
    ensures var s' := StepDequeue(s, t, false); StepsLeft(s', s'.Pc(t)) < StepsLeft(s, s.Pc(t))
  {
    match s.pcs[t]
    case DeqRecheck(_, _, _) => RecheckAdvances(s, t);
    case DeqHelp(_, _) => HelpAdvances(s, t);
    case _ => LoadAdvances(s, t);
  }

  lemma StepAdvances<T>(s: State<T>, t: Thread)
    requires Inv(s) && (s.Pc(t).Enqueuing() || s.Pc(t).Dequeuing())
    ensures var s' := Step(s, Run(t, false)); Inv(s') && StepsLeft(s', s'.Pc(t)) < StepsLeft(s, s.Pc(t))
  {
    assert LocalInv(s, s.pcs[t]);
    LagIsKnown(s);
    StepInv(s, Run(t, false));
    if s.pcs[t].Enqueuing() { EnqueueAdvances(s, t); } else { DequeueAdvances(s, t); }
  }

  /** `n` steps of thread `t`, with none of the others in between. */
  function Alone<T>(s: State<T>, t: Thread, n: nat): State<T>
    decreases n
  {
    if n == 0 then s else Alone(Step(s, Run(t, false)), t, n - 1)
  }

  lemma {:induction false} AloneEnds<T>(s: State<T>, t: Thread, n: nat)
    requires Inv(s) && n >= StepsLeft(s, s.Pc(t))
    ensures var pc := Alone(s, t, n).Pc(t); pc.Idle? || pc.Faulted?
    decreases n
  {
    var pc := s.Pc(t);
    if pc.Enqueuing() || pc.Dequeuing() {
      StepAdvances(s, t);
      AloneEnds(Step(s, Run(t, false)), t, n - 1);
    } else {
      NothingToDo(s, t, n);
    }
  }

  lemma {:induction false} NothingToDo<T>(s: State<T>, t: Thread, n: nat)
    requires s.Pc(t).Idle? || s.Pc(t).Faulted?
    ensures Alone(s, t, n) == s
    decreases n
  {
    if n > 0 { NothingToDo(s, t, n - 1); }
  }

  lemma StepsBounded<T>(s: State<T>, pc: Pc<T>)
    ensures StepsLeft(s, pc) <= 5 * Lag(s) + 10
  {
  }

  /** In every reachable state, whatever the other threads are in the middle of, a thread that goes on alone ends its call
      within ten steps and five more for each link by which the tail lags behind. */
  lemma CallAloneEnds<T>(acts: seq<Action<T>>, t: Thread, n: nat)
    requires n >= 5 * Lag(RunAll(Init<T>(), acts)) + 10
    ensures var pc := Alone(RunAll(Init<T>(), acts), t, n).Pc(t); pc.Idle? || pc.Faulted?
  {
    var s := RunAll(Init<T>(), acts);
    RunInv(acts);
    StepsBounded(s, s.Pc(t));
    AloneEnds(s, t, n);
  }
}
