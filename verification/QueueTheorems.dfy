/** What every run of the lock-free queue keeps, for any number of producers and consumers. */
module QueueTheorems {
  import opened Common
  import opened LockFreeQueue

  // ---------------------------------------------------------------------------------------------
  // First in, first out
  // ---------------------------------------------------------------------------------------------

  /** The messages found by following `next` from (but excluding) node `n`. */
  function MessagesAfter<T>(s: State<T>, n: NodeId, fuel: nat): seq<T>
    decreases fuel
  {
    if fuel == 0 || s.Next(n).None? || s.Next(n).value >= |s.nodes| || s.nodes[s.Next(n).value].data.None? then []
    else [s.nodes[s.Next(n).value].data.value] + MessagesAfter(s, s.Next(n).value, fuel - 1)
  }

  lemma SuffixStep<T>(xs: seq<T>, r: nat)
    requires r < |xs|
    ensures xs[r..] == [xs[r]] + xs[r + 1..]
  {
  }

  lemma RankAndEnd<T>(s: State<T>, n: NodeId)
    requires Chain(s) && s.Rank(n) >= 0
    ensures s.Rank(n) <= |s.linked| && (s.Next(n).None? <==> s.Rank(n) == |s.linked|)
  {
    assert s.nodes[n].rank == Some(s.Rank(n));
    assert s.nodes[n].next == Successor(s.nodes[n].rank, s.order);
  }

  lemma {:induction false} MessagesFromRank<T>(s: State<T>, n: NodeId, fuel: nat)
    requires Chain(s) && s.Rank(n) >= 0 && s.Rank(n) + fuel >= |s.linked|
    ensures s.Rank(n) <= |s.linked| && MessagesAfter(s, n, fuel) == s.linked[s.Rank(n)..]
    decreases fuel
  {
    RankAndEnd(s, n);
    if s.Rank(n) < |s.linked| {
      NextRank(s, n);
      MessagesFromRank(s, s.Next(n).value, fuel - 1);
      SuffixStep(s.linked, s.Rank(n));
    }
  }

  /** In every reachable state the values returned by successful dequeues, in head-exchange order, followed by the
      values still linked after the head, are the values linked by enqueues, in link order. The walk behind the head
      reaches a null `next` after no more steps than there were links. */
  lemma FifoHistory<T>(acts: seq<Action<T>>, fuel: nat)
    requires fuel >= |RunAll(Init<T>(), acts).linked|
    ensures var s := RunAll(Init<T>(), acts);
            s.taken + MessagesAfter(s, s.head, fuel) == s.linked
  {
    RunChain(acts);
    HistoryOf(RunAll(Init<T>(), acts), fuel);
  }

  lemma RunChain<T>(acts: seq<Action<T>>)
    ensures Chain(RunAll(Init<T>(), acts))
  {
    RunInv(acts);
  }

  lemma HistoryOf<T>(s: State<T>, fuel: nat)
    requires Chain(s) && fuel >= |s.linked|
    ensures s.taken + MessagesAfter(s, s.head, fuel) == s.linked
  {
    MessagesFromRank(s, s.head, fuel);
  }

  predicate LinksAt<T>(s: State<T>, a: Action<T>) { s.Pc(a.t).EnqLink? && Step(s, a).Pc(a.t).EnqCount? }

  predicate TakesAt<T>(s: State<T>, a: Action<T>) { s.Pc(a.t).DeqSwing? && Step(s, a).Pc(a.t).DeqUncount? }

  lemma OtherStepsQuiet<T>(s: State<T>, a: Action<T>)
    requires !LinksAt(s, a) && !TakesAt(s, a)
    ensures Step(s, a).linked == s.linked && Step(s, a).taken == s.taken
  {
  }

  /** What one step does to the abstract queue: an enqueue appends its own message at its link step, a dequeue returns
      the front at its head exchange, and every other step leaves the queue alone. */
  lemma StepRefinesQueue<T>(s: State<T>, a: Action<T>)
    requires Inv(s)
    ensures var s' := Step(s, a); var pc, pc' := s.Pc(a.t), s'.Pc(a.t);
            if LinksAt(s, a) then
              pc.mine < |s.nodes| && s.nodes[pc.mine].data.Some?
                  && s'.Contents() == s.Contents() + [s.nodes[pc.mine].data.value]
            else if TakesAt(s, a) then
              s.Contents() != [] && pc'.msg == s.Contents()[0] && s'.Contents() == s.Contents()[1..]
            else s'.Contents() == s.Contents()
  {
    if LinksAt(s, a) {
      LinkAppends(s, a);
    } else if TakesAt(s, a) {
      TakeRemoves(s, a);
    } else {
      OtherStepsQuiet(s, a);
    }
  }

  lemma LinkFields<T>(s: State<T>, a: Action<T>)
    requires LinksAt(s, a)
    ensures var pc, s' := s.Pc(a.t), Step(s, a);
            && pc.mine < |s.nodes| && s.nodes[pc.mine].data.Some?
            && s'.linked == s.linked + [s.nodes[pc.mine].data.value] && s'.taken == s.taken
  {
  }

  lemma LinkAppends<T>(s: State<T>, a: Action<T>)
    requires |s.taken| <= |s.linked| && LinksAt(s, a)
    ensures var pc, s' := s.Pc(a.t), Step(s, a);
            && pc.mine < |s.nodes| && s.nodes[pc.mine].data.Some?
            && s'.Contents() == s.Contents() + [s.nodes[pc.mine].data.value]
  {
    LinkFields(s, a);
    DropAppend(s.linked, |s.taken|, s.nodes[s.Pc(a.t).mine].data.value);
  }

  lemma DropAppend<T>(linked: seq<T>, n: nat, msg: T)
    requires n <= |linked|
    ensures (linked + [msg])[n..] == linked[n..] + [msg]
  {
  }

  lemma TakeRemoves<T>(s: State<T>, a: Action<T>)
    requires Chain(s) && Locals(s) && TakesAt(s, a)
    ensures var s' := Step(s, a);
            && s.Contents() != [] && s'.Pc(a.t).msg == s.Contents()[0] && s'.Contents() == s.Contents()[1..]
  {
    assert LocalInv(s, s.pcs[a.t]);
    TakeKeepsChain(s, s.Pc(a.t).oldHead, s.Pc(a.t).succ, s.Pc(a.t).msg);
  }

  // ---------------------------------------------------------------------------------------------
  // The size counter
  // ---------------------------------------------------------------------------------------------

  function Counting<T>(s: State<T>): set<Thread> { set t | t in s.pcs && s.pcs[t].EnqCount? }

  function Uncounting<T>(s: State<T>): set<Thread> { set t | t in s.pcs && s.pcs[t].DeqUncount? }

  ghost predicate SizeExact<T>(s: State<T>) {
    s.size == |s.linked| - |s.taken| - |Counting(s)| + |Uncounting(s)|
  }

  lemma GoSets<T>(s: State<T>, s': State<T>, t: Thread, pc: Pc<T>)
    requires s'.pcs == s.pcs[t := pc]
    ensures Counting(s') == if pc.EnqCount? then Counting(s) + {t} else Counting(s) - {t}
    ensures Uncounting(s') == if pc.DeqUncount? then Uncounting(s) + {t} else Uncounting(s) - {t}
  {
  }

  function Pending<T>(pc: Pc<T>): int { (if pc.EnqCount? then 1 else 0) - (if pc.DeqUncount? then 1 else 0) }

  /** A step changes `size`, the two histories and the pending count of its own thread by matching amounts. */
  lemma StepBalance<T>(s: State<T>, a: Action<T>)
    ensures var s' := Step(s, a);
            && s'.size + Pending(s'.Pc(a.t)) - (|s'.linked| - |s'.taken|) == s.size + Pending(s.Pc(a.t)) - (|s.linked| - |s.taken|)
            && (s' == s || s'.pcs == s.pcs[a.t := s'.Pc(a.t)])
  {
    match a
    case CallEnqueue(_, _) =>
    case CallDequeue(_) =>
    case Run(t, weakFails) =>
      if s.Pc(t).Enqueuing() { EnqueueBalance(s, t, weakFails); } else { DequeueBalance(s, t, weakFails); }
  }

  lemma EnqueueBalance<T>(s: State<T>, t: Thread, weakFails: bool)
    ensures var s' := StepEnqueue(s, t, weakFails);
            && s'.size + Pending(s'.Pc(t)) - |s'.linked| == s.size + Pending(s.Pc(t)) - |s.linked| && s'.taken == s.taken
            && (s' == s || s'.pcs == s.pcs[t := s'.Pc(t)])
  {
  }

  lemma DequeueBalance<T>(s: State<T>, t: Thread, weakFails: bool)
    ensures var s' := StepDequeue(s, t, weakFails);
            && s'.size + Pending(s'.Pc(t)) + |s'.taken| == s.size + Pending(s.Pc(t)) + |s.taken| && s'.linked == s.linked
            && (s' == s || s'.pcs == s.pcs[t := s'.Pc(t)])
  {
  }

  lemma StepSize<T>(s: State<T>, a: Action<T>)
    requires SizeExact(s)
    ensures SizeExact(Step(s, a))
  {
    var s' := Step(s, a);
    StepBalance(s, a);
    if s' != s { GoSets(s, s', a.t, s'.Pc(a.t)); }
  }

  /** `size` is the number of linked messages not yet dequeued, short of the enqueues between their link and their
      increment, and over by the dequeues between their head exchange and their decrement. */
  lemma {:induction false} SizeAccounting<T>(acts: seq<Action<T>>)
    ensures var s := RunAll(Init<T>(), acts);
            && s.size == |s.Contents()| - |Counting(s)| + |Uncounting(s)|
            && ((forall t | t in s.pcs :: s.pcs[t].Idle?) ==> s.size == |s.Contents()|)
    decreases |acts|
  {
    var s := RunAll(Init<T>(), acts);
    SizeReachable(acts);
    RunInv(acts);
    if forall t | t in s.pcs :: s.pcs[t].Idle? {
      assert Counting(s) == {} && Uncounting(s) == {};
    }
  }

  lemma {:induction false} SizeReachable<T>(acts: seq<Action<T>>)
    ensures SizeExact(RunAll(Init<T>(), acts))
    decreases |acts|
  {
    if acts == [] {
      assert Counting(Init<T>()) == {} && Uncounting(Init<T>()) == {};
    } else {
      var before := acts[..|acts| - 1];
      SizeReachable(before);
      StepSize(RunAll(Init<T>(), before), acts[|acts| - 1]);
    }
  }

  // ---------------------------------------------------------------------------------------------
  // Nothing is lost
  // ---------------------------------------------------------------------------------------------

  /** Every allocated node is linked or still owned by an enqueue in progress. */
  ghost predicate NoneLost<T>(s: State<T>) {
    forall n {:trigger s.nodes[n].rank} | 0 <= n < |s.nodes| && s.nodes[n].rank.None? :: Owner(s, n)
  }

  ghost predicate Owner<T>(s: State<T>, n: NodeId) {
    exists t {:trigger s.pcs[t]} :: t in s.pcs && s.pcs[t].Unlinked() && s.pcs[t].mine == n
  }

  lemma OwnerStays<T>(s: State<T>, a: Action<T>, n: NodeId)
    requires n < |s.nodes| && Owner(s, n) && Step(s, a).Rank(n) == -1
    ensures Owner(Step(s, a), n)
  {
    var t :| t in s.pcs && s.pcs[t].Unlinked() && s.pcs[t].mine == n;
    OwnNodeStays(s, a, t);
    assert t in Step(s, a).pcs;
  }

  lemma OwnNodeStays<T>(s: State<T>, a: Action<T>, t: Thread)
    requires t in s.pcs && s.pcs[t].Unlinked()
    ensures var s' := Step(s, a);
            t in s'.pcs && (s'.Rank(s.pcs[t].mine) == -1 ==> s'.pcs[t].Unlinked() && s'.pcs[t].mine == s.pcs[t].mine)
  {
    if a.t != t {
      StepBalance(s, a);
    } else if a.Run? {
      var s' := StepEnqueue(s, t, a.weakFails);
      assert s'.pcs[t].EnqCount? ==> s'.Rank(s.pcs[t].mine) == |s.order|;
    }
  }

  lemma StepGrowsNodes<T>(s: State<T>, a: Action<T>)
    ensures var s' := Step(s, a);
            && |s.nodes| <= |s'.nodes| <= |s.nodes| + 1
            && (forall n {:trigger s'.nodes[n].rank} | 0 <= n < |s.nodes|
                && s'.nodes[n].rank.None? :: s.nodes[n].rank.None?)
            && (|s'.nodes| > |s.nodes| ==> a.t in s'.pcs && s'.pcs[a.t] == EnqLoadTail(|s.nodes|))
  {
  }

  lemma StepLosesNone<T>(s: State<T>, a: Action<T>)
    requires NoneLost(s)
    ensures NoneLost(Step(s, a))
  {
    var s' := Step(s, a);
    StepGrowsNodes(s, a);
    forall n {:trigger s'.nodes[n].rank} | 0 <= n < |s'.nodes| && s'.nodes[n].rank.None? ensures Owner(s', n) {
      if n < |s.nodes| {
        assert s.nodes[n].rank.None?;
        OwnerStays(s, a, n);
      } else {
        assert s'.pcs[a.t].mine == n;
      }
    }
  }

  lemma {:induction false} NoneLostReachable<T>(acts: seq<Action<T>>)
    ensures NoneLost(RunAll(Init<T>(), acts))
    decreases |acts|
  {
    if acts != [] {
      NoneLostReachable(acts[..|acts| - 1]);
      StepLosesNone(RunAll(Init<T>(), acts[..|acts| - 1]), acts[|acts| - 1]);
    }
  }

  lemma {:induction false} ZeroIsDummy<T>(acts: seq<Action<T>>)
    ensures |RunAll(Init<T>(), acts).order| >= 1 && RunAll(Init<T>(), acts).order[0] == 0
    decreases |acts|
  {
    if acts != [] {
      ZeroIsDummy(acts[..|acts| - 1]);
      OrderGrows(RunAll(Init<T>(), acts[..|acts| - 1]), acts[|acts| - 1]);
    }
  }

  lemma OrderGrows<T>(s: State<T>, a: Action<T>)
    ensures s.order <= Step(s, a).order
  {
  }

  /** The message of every enqueue call is linked, in one place, unless that call is still before its link step. */
  lemma EveryMessageIsLinked<T>(acts: seq<Action<T>>, n: NodeId)
    requires var s := RunAll(Init<T>(), acts); 0 < n < |s.nodes| && !Owner(s, n)
    ensures var s := RunAll(Init<T>(), acts);
            0 < s.Rank(n) <= |s.linked| && s.nodes[n].data == Some(s.linked[s.Rank(n) - 1])
  {
    var s := RunAll(Init<T>(), acts);
    NoneLostReachable(acts);
    RunChain(acts);
    ZeroIsDummy(acts);
    assert s.nodes[n].rank.Some?;
    var r := s.Rank(n);
    assert s.order[r] == n;
    assert s.linked[r - 1] == s.linked[r - 1];
  }

  // ---------------------------------------------------------------------------------------------
  // A false answer
  // ---------------------------------------------------------------------------------------------

  /** `states` are the states a run passes through: one before each action and one after the last. */
  ghost predicate IsRun<T>(states: seq<State<T>>, acts: seq<Action<T>>) {
    && |states| == |acts| + 1
    && states[0] == Init<T>()
    && forall i {:trigger acts[i]} | 0 <= i < |acts| :: states[i + 1] == Step(states[i], acts[i])
  }

  lemma {:induction false} EveryStateInv<T>(states: seq<State<T>>, acts: seq<Action<T>>, k: nat)
    requires IsRun(states, acts) && k < |states|
    ensures Inv(states[k])
    decreases k
  {
    if k == 0 {
      InitInv<T>();
    } else {
      EveryStateInv(states, acts, k - 1);
      StepInv(states[k - 1], acts[k - 1]);
    }
  }

  /** Step `k` of the run makes the dequeue of thread `t` return false. */
  ghost predicate AnswersFalse<T>(states: seq<State<T>>, acts: seq<Action<T>>, k: nat, t: Thread)
    requires IsRun(states, acts) && k < |acts|
  {
    acts[k].Run? && acts[k].t == t && states[k].Pc(t).DeqRecheck? && states[k + 1].Pc(t).Idle?
  }

  /** From state `j` to state `k` thread `t` is inside one dequeue call. */
  ghost predicate InOneCall<T>(states: seq<State<T>>, j: nat, k: nat, t: Thread)
    requires j <= k < |states|
  {
    forall m | j <= m <= k :: states[m].Pc(t).Dequeuing()
  }

  /** The instant line 82 ran: an empty `next` was read behind the head that the call had loaded. */
  lemma {:induction false} EmptyRead<T>(states: seq<State<T>>, acts: seq<Action<T>>, k: nat, t: Thread) returns (j: nat)
    requires IsRun(states, acts) && k < |states|
    requires states[k].Pc(t).DeqRecheck? && states[k].Pc(t).next.None?
    ensures j < k && InOneCall(states, j, k, t) && states[j].Contents() == []
    decreases k
  {
    if k == 0 {
      assert false;
    } else {
      RecheckComesFromRead(states[k - 1], acts[k - 1], t);
      if states[k - 1].Pc(t) == states[k].Pc(t) {
        j := EmptyRead(states, acts, k - 1, t);
      } else {
        j := k - 1;
        EmptyWhenRead(states, acts, j, t);
      }
    }
  }

  lemma EmptyWhenRead<T>(states: seq<State<T>>, acts: seq<Action<T>>, k: nat, t: Thread)
    requires IsRun(states, acts) && k < |states|
    requires t in states[k].pcs && states[k].pcs[t].DeqLoadNext? && states[k].Next(states[k].pcs[t].oldHead).None?
    ensures states[k].Contents() == []
  {
    EveryStateInv(states, acts, k);
    LoadedEmpty(states[k], t);
  }

  lemma LoadedEmpty<T>(s: State<T>, t: Thread)
    requires Inv(s) && t in s.pcs && s.pcs[t].DeqLoadNext? && s.Next(s.pcs[t].oldHead).None?
    ensures s.Contents() == []
  {
    var n := s.pcs[t].oldHead;
    assert LocalInv(s, s.pcs[t]);
    assert s.nodes[n].next == Successor(s.nodes[n].rank, s.order);
  }

  lemma RecheckComesFromRead<T>(s: State<T>, a: Action<T>, t: Thread)
    requires var pc := Step(s, a).Pc(t); pc.DeqRecheck? && pc.next.None?
    ensures s.Pc(t) == Step(s, a).Pc(t) || (s.Pc(t).DeqLoadNext? && t in s.pcs && s.Next(s.Pc(t).oldHead).None?)
  {
  }

  /** A `false` answer means the queue was empty at an instant during that very call. */
  lemma FalseMeansEmptyDuringCall<T>(states: seq<State<T>>, acts: seq<Action<T>>, k: nat, t: Thread)
    requires IsRun(states, acts) && k < |acts| && AnswersFalse(states, acts, k, t)
    ensures exists j :: 0 <= j <= k && InOneCall(states, j, k, t) && states[j].Contents() == []
  {
    FalseReadNull(states[k], acts[k], t);
    var j := EmptyRead(states, acts, k, t);
  }

  lemma FalseReadNull<T>(s: State<T>, a: Action<T>, t: Thread)
    requires s.Pc(t).DeqRecheck? && Step(s, a).Pc(t).Idle?
    ensures s.Pc(t).next.None?
  {
  }
}
