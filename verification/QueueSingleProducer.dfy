/** The lock-free queue with one producer, which is how the receive queue is used: only the epoll thread enqueues.
    With two producers the plain tail store can move the tail behind the head. */
module QueueSingleProducer {
  import opened Common
  import opened LockFreeQueue

  /** Between the link step and the tail store of an enqueue. */
  predicate Window<T>(pc: Pc<T>) { pc.EnqCount? || pc.EnqStoreTail? }

  ghost predicate TailNearEnd<T>(s: State<T>, p: Thread) {
    if Window(s.Pc(p)) then s.Rank(s.Pc(p).mine) == |s.linked| && |s.linked| - 1 <= s.Rank(s.tail) <= |s.linked|
    else s.Rank(s.tail) == |s.linked|
  }

  ghost predicate OneLocal<T>(s: State<T>, t: Thread, p: Thread, pc: Pc<T>) {
    && !pc.Faulted? && !pc.EnqHelp?
    && (pc.Enqueuing() ==> t == p)
    && (pc.EnqLoadNext? || pc.EnqRecheck? || pc.EnqLink? ==> s.Rank(pc.oldTail) == |s.linked|)
    && (pc.EnqRecheck? ==> pc.next.None?)
    && (pc.DeqLoadNext? || pc.DeqRecheck? ==> s.Rank(pc.oldHead) <= s.Rank(pc.oldTail) <= s.Rank(s.tail))
    && (pc.DeqRecheck? && s.Rank(pc.oldHead) < s.Rank(pc.oldTail) ==> pc.next.Some?)
    && (pc.DeqSwing? ==> s.Rank(pc.oldHead) < s.Rank(s.tail))
  }

  ghost predicate OneLocals<T>(s: State<T>, p: Thread) {
    forall t {:trigger s.pcs[t]} | t in s.pcs :: OneLocal(s, t, p, s.pcs[t])
  }

  ghost predicate One<T>(s: State<T>, p: Thread) {
    TailNearEnd(s, p) && s.Rank(s.head) <= s.Rank(s.tail) && OneLocals(s, p)
  }

  lemma OneLocalStable<T>(s: State<T>, s': State<T>, t: Thread, p: Thread, pc: Pc<T>)
    requires LocalInv(s, pc) && OneLocal(s, t, p, pc) && Grows(s, s') && s.Rank(s.tail) <= s'.Rank(s'.tail)
    requires s'.linked == s.linked || t != p
    ensures OneLocal(s', t, p, pc)
  {
  }

  lemma OneMove<T>(s: State<T>, s': State<T>, t: Thread, p: Thread, pc: Pc<T>)
    requires Locals(s) && OneLocals(s, p) && Grows(s, s') && s.Rank(s.tail) <= s'.Rank(s'.tail)
    requires s'.pcs == s.pcs[t := pc] && OneLocal(s', t, p, pc)
    requires s'.linked == s.linked || t == p
    ensures OneLocals(s', p)
  {
    forall u {:trigger s'.pcs[u]} | u in s'.pcs ensures OneLocal(s', u, p, s'.pcs[u]) {
      if u != t {
        assert LocalInv(s, s.pcs[u]);
        OneLocalStable(s, s', u, p, s.pcs[u]);
      }
    }
  }

  lemma RankBound<T>(s: State<T>, n: NodeId)
    requires Chain(s)
    ensures s.Rank(n) <= |s.linked|
    ensures s.Rank(n) == |s.linked| ==> s.Next(n).None?
    ensures 0 <= s.Rank(n) < |s.linked| ==> s.Next(n).Some?
  {
    if s.Rank(n) >= 0 {
      assert s.nodes[n].rank.Some?;
      assert s.nodes[n].next == Successor(s.nodes[n].rank, s.order);
    }
  }

  /** The successful link step: the tail is now one before last. */
  lemma OneLink<T>(s: State<T>, p: Thread, weakFails: bool)
    requires Inv(s) && One(s, p) && LinkSucceeds(s, p, weakFails)
    ensures One(StepEnqueue(s, p, weakFails), p)
  {
    var pc := s.pcs[p];
    assert LocalInv(s, pc) && OneLocal(s, p, p, pc);
    LinkKeepsChain(s, pc.mine, pc.oldTail);
    LinkGrows(s, pc.mine, pc.oldTail);
    OneMove(s, StepEnqueue(s, p, weakFails), p, p, EnqCount(pc.mine));
  }

  lemma OneEnqueueLocal<T>(s: State<T>, p: Thread, weakFails: bool)
    requires p in s.pcs && s.pcs[p].Enqueuing() && !LinkSucceeds(s, p, weakFails)
    requires LocalInv(s, s.pcs[p]) && OneLocal(s, p, p, s.pcs[p]) && TailNearEnd(s, p)
    requires s.Next(s.tail).None? || s.Rank(s.tail) != |s.linked|
    requires s.pcs[p].EnqLoadNext? ==> s.Next(s.pcs[p].oldTail).None?
    ensures var s' := StepEnqueue(s, p, weakFails);
            && TailNearEnd(s', p) && s.Rank(s.tail) <= s'.Rank(s'.tail) && OneLocal(s', p, p, s'.Pc(p))
  {
  }

  lemma OneEnqueue<T>(s: State<T>, p: Thread, weakFails: bool)
    requires Inv(s) && One(s, p) && s.Pc(p).Enqueuing()
    ensures One(StepEnqueue(s, p, weakFails), p)
  {
    if LinkSucceeds(s, p, weakFails) {
      OneLink(s, p, weakFails);
    } else {
      var s' := StepEnqueue(s, p, weakFails);
      assert LocalInv(s, s.pcs[p]) && OneLocal(s, p, p, s.pcs[p]);
      EnqueueLocal(s, p, weakFails);
      RankBound(s, s.tail);
      if s.pcs[p].EnqLoadNext? { RankBound(s, s.pcs[p].oldTail); }
      OneEnqueueLocal(s, p, weakFails);
      OneMove(s, s', p, p, s'.Pc(p));
    }
  }

  /** What the chain says about the nodes a dequeuing thread holds. */
  ghost predicate Followed<T>(s: State<T>, pc: Pc<T>) {
    && (pc.DeqLoadNext? && s.Rank(pc.oldHead) < |s.linked| ==> s.Next(pc.oldHead).Some?)
    && (pc.DeqRecheck? && pc.next.Some? ==> pc.next.value < |s.nodes| && s.nodes[pc.next.value].data.Some?)
    && (pc.DeqRecheck? && s.Rank(pc.oldHead) == s.Rank(pc.oldTail) ==> pc.oldHead == pc.oldTail)
    && (pc.DeqHelp? ==> s.Rank(pc.succ) == s.Rank(pc.oldTail) + 1 <= |s.linked|)
  }

  lemma ChainFollowed<T>(s: State<T>, pc: Pc<T>)
    requires Chain(s) && LocalInv(s, pc)
    ensures Followed(s, pc)
  {
    if pc.DeqLoadNext? { RankBound(s, pc.oldHead); }
    if pc.DeqRecheck? {
      if pc.next.Some? { NextRank(s, pc.oldHead); }
      if s.Rank(pc.oldHead) == s.Rank(pc.oldTail) { SameRankSameNode(s, pc.oldHead, pc.oldTail); }
    }
    if pc.DeqHelp? { NextRank(s, pc.oldTail); }
  }

  /** The recheck of a dequeue, and its outcomes. */
  lemma OneDequeueRecheck<T>(s: State<T>, t: Thread, p: Thread, weakFails: bool)
    requires t in s.pcs && s.pcs[t].DeqRecheck?
    requires OneLocal(s, t, p, s.pcs[t]) && Followed(s, s.pcs[t])
    ensures var s' := StepDequeue(s, t, weakFails); s' == s.Go(t, s'.Pc(t)) && OneLocal(s', t, p, s'.Pc(t))
  {
  }

  /** The loads, a failed exchange, and the count. */
  lemma OneDequeuePlain<T>(s: State<T>, t: Thread, p: Thread, weakFails: bool)
    requires t in s.pcs && s.pcs[t].Dequeuing() && !TakeSucceeds(s, t, weakFails)
    requires !s.pcs[t].DeqHelp? && !s.pcs[t].DeqRecheck?
    requires LocalInv(s, s.pcs[t]) && OneLocal(s, t, p, s.pcs[t]) && Followed(s, s.pcs[t])
    requires s.Rank(s.head) == |s.taken| <= s.Rank(s.tail) <= |s.linked|
    ensures var s' := StepDequeue(s, t, weakFails);
            s' == s.(size := s'.size, pcs := s.pcs[t := s'.Pc(t)]) && OneLocal(s', t, p, s'.Pc(t))
  {
  }

  /** The helping step: the tail moves by one, inside the producer's window. */
  lemma OneDequeueHelp<T>(s: State<T>, t: Thread, p: Thread, weakFails: bool)
    requires t in s.pcs && s.pcs[t].DeqHelp? && TailNearEnd(s, p) && Followed(s, s.pcs[t])
    requires OneLocal(s, t, p, s.pcs[t])
    ensures var s' := StepDequeue(s, t, weakFails);
            TailNearEnd(s', p) && s.Rank(s.tail) <= s'.Rank(s'.tail) && OneLocal(s', t, p, s'.Pc(t))
  {
  }

  /** A dequeue step that does not move the head. The tail moves only forward. */
  lemma OneDequeueLocal<T>(s: State<T>, t: Thread, p: Thread, weakFails: bool)
    requires t in s.pcs && s.pcs[t].Dequeuing() && !TakeSucceeds(s, t, weakFails)
    requires LocalInv(s, s.pcs[t]) && OneLocal(s, t, p, s.pcs[t]) && TailNearEnd(s, p)
    requires s.Rank(s.head) == |s.taken| <= s.Rank(s.tail)
    requires Followed(s, s.pcs[t])
    ensures var s' := StepDequeue(s, t, weakFails);
            && TailNearEnd(s', p) && s.Rank(s.tail) <= s'.Rank(s'.tail) && OneLocal(s', t, p, s'.Pc(t))
  {
    var s' := StepDequeue(s, t, weakFails);
    if s.pcs[t].DeqHelp? {
      OneDequeueHelp(s, t, p, weakFails);
    } else if s.pcs[t].DeqRecheck? {
      OneDequeueRecheck(s, t, p, weakFails);
      TailStaysNearEnd(s, s', t, p);
    } else {
      OneDequeuePlain(s, t, p, weakFails);
      TailStaysNearEnd(s, s', t, p);
    }
  }

  lemma SameRankSameNode<T>(s: State<T>, m: NodeId, n: NodeId)
    requires Chain(s) && s.Rank(m) == s.Rank(n) >= 0
    ensures m == n
  {
    assert s.nodes[m].rank == s.nodes[n].rank;
  }

  lemma TakeStaysBehindTail<T>(s: State<T>, t: Thread, p: Thread)
    requires Chain(s) && t in s.pcs && s.pcs[t].DeqSwing? && s.head == s.pcs[t].oldHead
    requires LocalInv(s, s.pcs[t]) && OneLocal(s, t, p, s.pcs[t])
    ensures s.Rank(s.pcs[t].succ) <= s.Rank(s.tail)
  {
    NextRank(s, s.head);
  }

  lemma OneTakeMove<T>(s: State<T>, s': State<T>, t: Thread, p: Thread, msg: T)
    requires Locals(s) && One(s, p) && s.Pc(t).DeqSwing?
    requires s' == s.(head := s'.head, taken := s.taken + [msg], pcs := s.pcs[t := DeqUncount(msg)])
    requires s.Rank(s'.head) <= s.Rank(s.tail)
    ensures One(s', p)
  {
    OneMove(s, s', t, p, DeqUncount(msg));
    TailStaysNearEnd(s, s', t, p);
  }

  lemma OneTake<T>(s: State<T>, t: Thread, p: Thread, weakFails: bool)
    requires Inv(s) && One(s, p) && TakeSucceeds(s, t, weakFails)
    ensures One(StepDequeue(s, t, weakFails), p)
  {
    assert LocalInv(s, s.pcs[t]) && OneLocal(s, t, p, s.pcs[t]);
    TakeStaysBehindTail(s, t, p);
    OneTakeMove(s, StepDequeue(s, t, weakFails), t, p, s.pcs[t].msg);
  }

  /** The end and the tail do not move, and the step of `t` is none of an enqueue. */
  lemma TailStaysNearEnd<T>(s: State<T>, s': State<T>, t: Thread, p: Thread)
    requires TailNearEnd(s, p) && s'.nodes == s.nodes && s'.linked == s.linked && s'.tail == s.tail
    requires t != p ==> s'.Pc(p) == s.Pc(p)
    requires t == p ==> !Window(s.Pc(p)) && !Window(s'.Pc(p))
    ensures TailNearEnd(s', p)
  {
  }

  lemma OneDequeue<T>(s: State<T>, t: Thread, p: Thread, weakFails: bool)
    requires Inv(s) && One(s, p) && s.Pc(t).Dequeuing() && !TakeSucceeds(s, t, weakFails)
    ensures One(StepDequeue(s, t, weakFails), p)
  {
    var s' := StepDequeue(s, t, weakFails);
    assert LocalInv(s, s.pcs[t]) && OneLocal(s, t, p, s.pcs[t]);
    ChainFollowed(s, s.pcs[t]);
    OneDequeueLocal(s, t, p, weakFails);
    DequeueLocal(s, t, weakFails);
    OneMove(s, s', t, p, s'.Pc(t));
  }

  lemma OneStep<T>(s: State<T>, a: Action<T>, p: Thread)
    requires Inv(s) && One(s, p) && (a.CallEnqueue? ==> a.t == p)
    ensures One(Step(s, a), p)
  {
    var s' := Step(s, a);
    match a
    case CallEnqueue(t, msg) =>
      if s.Pc(t).Idle? { CallEnqueueInv(s, t, msg); OneMove(s, s', t, p, EnqLoadTail(|s.nodes|)); }
    case CallDequeue(t) =>
      if s.Pc(t).Idle? { OneMove(s, s', t, p, DeqLoadHead); }
    case Run(t, weakFails) =>
      if s.Pc(t).Enqueuing() {
        assert OneLocal(s, t, p, s.pcs[t]);
        OneEnqueue(s, p, weakFails);
      } else if s.Pc(t).Dequeuing() {
        if TakeSucceeds(s, t, weakFails) { OneTake(s, t, p, weakFails); } else { OneDequeue(s, t, p, weakFails); }
      }
  }

  /** Only threads of `producers` call `Enqueue`. */
  ghost predicate ProducersIn<T>(acts: seq<Action<T>>, producers: set<Thread>) {
    forall i {:trigger acts[i]} | 0 <= i < |acts| && acts[i].CallEnqueue? :: acts[i].t in producers
  }

  lemma {:induction false} OneReachable<T>(acts: seq<Action<T>>, p: Thread)
    requires ProducersIn(acts, {p})
    ensures One(RunAll(Init<T>(), acts), p)
    decreases |acts|
  {
    if acts != [] {
      var before := acts[..|acts| - 1];
      forall i {:trigger before[i]} | 0 <= i < |before| && before[i].CallEnqueue? ensures before[i].t in {p} {
        assert acts[i] == before[i];
      }
      OneReachable(before, p);
      RunInv(before);
      OneStep(RunAll(Init<T>(), before), acts[|acts| - 1], p);
    }
  }

  // ---------------------------------------------------------------------------------------------
  // Main results
  // ---------------------------------------------------------------------------------------------

  /** The head has not passed the tail, the tail is the last node or the one before it, and no thread has
      followed a null `next`. */
  ghost predicate TailSafe<T>(s: State<T>) {
    && s.Rank(s.head) <= s.Rank(s.tail)
    && |s.linked| - 1 <= s.Rank(s.tail) <= |s.linked|
    && forall t | t in s.pcs :: !s.pcs[t].Faulted?
  }

  /** With one producer and any number of consumers every reachable state is safe. */
  lemma OneProducerIsSafe<T>(acts: seq<Action<T>>, p: Thread)
    requires ProducersIn(acts, {p})
    ensures TailSafe(RunAll(Init<T>(), acts))
  {
    var s := RunAll(Init<T>(), acts);
    OneReachable(acts, p);
    forall t | t in s.pcs ensures !s.pcs[t].Faulted? { assert OneLocal(s, t, p, s.pcs[t]); }
  }

  /** State `s` ends some run in which only threads of `producers` call `Enqueue`. */
  ghost predicate Reaches<T(!new)>(producers: set<Thread>, s: State<T>) {
    exists acts: seq<Action<T>> :: ProducersIn(acts, producers) && RunAll(Init<T>(), acts) == s
  }

  lemma ReachesStep<T(!new)>(producers: set<Thread>, s: State<T>, a: Action<T>)
    requires Reaches(producers, s) && (a.CallEnqueue? ==> a.t in producers)
    ensures Reaches(producers, Step(s, a))
  {
    var acts: seq<Action<T>> :| ProducersIn(acts, producers) && RunAll(Init<T>(), acts) == s;
    var more := acts + [a];
    assert more[..|more| - 1] == acts;
    assert ProducersIn(more, producers);
    assert RunAll(Init<T>(), more) == Step(s, a);
  }

  lemma To<T(!new)>(producers: set<Thread>, s: State<T>, a: Action<T>, s': State<T>)
    requires Reaches(producers, s) && (a.CallEnqueue? ==> a.t in producers)
    requires Step(s, a).pcs == s'.pcs && Step(s, a).(pcs := s'.pcs) == s'
    ensures Reaches(producers, s')
  {
    ReachesStep(producers, s, a);
  }

  // The run with two producers: `p` links a node and pauses before its tail store, `q` enqueues behind it and
  // dequeues both messages, and then `p` stores a tail that lies behind the head.

  /** Node 1 is linked and node 2 allocated. */
  function SecondNode<T>(p: Thread, q: Thread, v: T, tail: NodeId, pcQ: Pc<T>): State<T> {
    State([Node(None, Some(1), Some(0)), Node(Some(v), None, Some(1)), Node(Some(v), None, None)], 0, tail, 0,
          map[p := EnqCount(1), q := pcQ], [0, 1], [v], [])
  }

  /** Both nodes are linked; `head` messages are taken. */
  function BothLinked<T>(p: Thread, q: Thread, v: T, head: NodeId, tail: NodeId, size: int, pcP: Pc<T>,
        pcQ: Pc<T>): State<T>
    requires head <= 2
  {
    State([Node(None, Some(1), Some(0)), Node(Some(v), Some(2), Some(1)), Node(Some(v), None, Some(2))], head, tail, size,
          map[p := pcP, q := pcQ], [0, 1, 2], [v, v], [v, v][..head])
  }

  lemma FirstLinks<T(!new)>(producers: set<Thread>, p: Thread, v: T)
    requires p in producers
    ensures Reaches(producers, PausedAfterLink(p, v))
  {
    assert RunAll(Init<T>(), []) == Init<T>() && ProducersIn<T>([], producers);
    ReachesStep(producers, Init<T>(), CallEnqueue(p, v));
    var s := Step(Init<T>(), CallEnqueue(p, v));
    To(producers, s, Run(p, false), s.(pcs := map[p := EnqLoadNext(1, 0)]));
    To(producers, s.(pcs := map[p := EnqLoadNext(1, 0)]), Run(p, false), s.(pcs := map[p := EnqRecheck(1, 0, None)]));
    To(producers, s.(pcs := map[p := EnqRecheck(1, 0, None)]), Run(p, false), s.(pcs := map[p := EnqLink(1, 0)]));
    To(producers, s.(pcs := map[p := EnqLink(1, 0)]), Run(p, false), PausedAfterLink(p, v));
  }

  function PausedAfterLink<T>(p: Thread, v: T): State<T> {
    State([Node(None, Some(1), Some(0)), Node(Some(v), None, Some(1))], 0, 0, 0, map[p := EnqCount(1)], [0, 1], [v], [])
  }

  lemma SecondCalls<T(!new)>(producers: set<Thread>, p: Thread, q: Thread, v: T)
    requires p != q && q in producers && Reaches(producers, PausedAfterLink(p, v))
    ensures Reaches(producers, SecondNode(p, q, v, 0, EnqLoadNext(2, 0)))
  {
    To(producers, PausedAfterLink(p, v), CallEnqueue(q, v), SecondNode(p, q, v, 0, EnqLoadTail(2)));
    To(producers, SecondNode(p, q, v, 0, EnqLoadTail(2)), Run(q, false), SecondNode(p, q, v, 0, EnqLoadNext(2, 0)));
  }

  lemma SecondHelps<T(!new)>(producers: set<Thread>, p: Thread, q: Thread, v: T)
    requires p != q && Reaches(producers, SecondNode(p, q, v, 0, EnqLoadNext(2, 0)))
    ensures Reaches(producers, SecondNode(p, q, v, 1, EnqLoadTail(2)))
  {
    To(producers, SecondNode(p, q, v, 0, EnqLoadNext(2, 0)), Run(q, false), SecondNode(p, q, v, 0, EnqRecheck(2, 0,
       Some(1))));
    To(producers, SecondNode(p, q, v, 0, EnqRecheck(2, 0, Some(1))), Run(q, false), SecondNode(p, q, v, 0, EnqHelp(2,
       0, 1)));
    To(producers, SecondNode(p, q, v, 0, EnqHelp(2, 0, 1)), Run(q, false), SecondNode(p, q, v, 1, EnqLoadTail(2)));
  }

  lemma SecondLinks<T(!new)>(producers: set<Thread>, p: Thread, q: Thread, v: T)
    requires p != q && Reaches(producers, SecondNode(p, q, v, 1, EnqLoadTail(2)))
    ensures Reaches(producers, BothLinked(p, q, v, 0, 1, 0, EnqCount(1), EnqCount(2)))
  {
    To(producers, SecondNode(p, q, v, 1, EnqLoadTail(2)), Run(q, false), SecondNode(p, q, v, 1, EnqLoadNext(2, 1)));
    To(producers, SecondNode(p, q, v, 1, EnqLoadNext(2, 1)), Run(q, false), SecondNode(p, q, v, 1, EnqRecheck(2, 1,
       None)));
    To(producers, SecondNode(p, q, v, 1, EnqRecheck(2, 1, None)), Run(q, false), SecondNode(p, q, v, 1, EnqLink(2, 1)));
    To(producers, SecondNode(p, q, v, 1, EnqLink(2, 1)), Run(q, false), BothLinked(p, q, v, 0, 1, 0, EnqCount(1),
       EnqCount(2)));
  }

  lemma SecondReturns<T(!new)>(producers: set<Thread>, p: Thread, q: Thread, v: T)
    requires p != q && Reaches(producers, BothLinked(p, q, v, 0, 1, 0, EnqCount(1), EnqCount(2)))
    ensures Reaches(producers, BothLinked(p, q, v, 0, 2, 1, EnqCount(1), Idle))
  {
    To(producers, BothLinked(p, q, v, 0, 1, 0, EnqCount(1), EnqCount(2)), Run(q, false), BothLinked(p, q, v, 0, 1, 1,
       EnqCount(1), EnqStoreTail(2)));
    To(producers, BothLinked(p, q, v, 0, 1, 1, EnqCount(1), EnqStoreTail(2)), Run(q, false), BothLinked(p, q, v, 0,
       2, 1, EnqCount(1), Idle));
  }

  lemma OneDequeued<T(!new)>(producers: set<Thread>, p: Thread, q: Thread, v: T, h: NodeId, size: int)
    requires p != q && h < 2 && Reaches(producers, BothLinked(p, q, v, h, 2, size, EnqCount(1), Idle))
    ensures Reaches(producers, BothLinked(p, q, v, h + 1, 2, size - 1, EnqCount(1), Idle))
  {
    var c: Pc<T> := EnqCount(1);
    To(producers, BothLinked(p, q, v, h, 2, size, c, Idle), CallDequeue(q), BothLinked(p, q, v, h, 2, size, c,
       DeqLoadHead));
    To(producers, BothLinked(p, q, v, h, 2, size, c, DeqLoadHead), Run(q, false), BothLinked(p, q, v, h, 2, size, c,
       DeqLoadTail(h)));
    ThenLoads(producers, p, q, v, h, size);
    ThenRechecks(producers, p, q, v, h, size);
    ThenSwings(producers, p, q, v, h, size);
    ThenUncounts(producers, p, q, v, h + 1, size);
  }

  lemma ThenLoads<T(!new)>(producers: set<Thread>, p: Thread, q: Thread, v: T, h: NodeId, size: int)
    requires p != q && h < 2 && Reaches(producers, BothLinked(p, q, v, h, 2, size, EnqCount(1), DeqLoadTail(h)))
    ensures Reaches(producers, BothLinked(p, q, v, h, 2, size, EnqCount(1), DeqRecheck(h, 2, Some(h + 1))))
  {
    var c: Pc<T> := EnqCount(1);
    To(producers, BothLinked(p, q, v, h, 2, size, c, DeqLoadTail(h)), Run(q, false), BothLinked(p, q, v, h, 2, size,
       c, DeqLoadNext(h, 2)));
    To(producers, BothLinked(p, q, v, h, 2, size, c, DeqLoadNext(h, 2)), Run(q, false), BothLinked(p, q, v, h, 2,
       size, c, DeqRecheck(h, 2, Some(h + 1))));
  }

  lemma ThenRechecks<T(!new)>(producers: set<Thread>, p: Thread, q: Thread, v: T, h: NodeId, size: int)
    requires p != q && h < 2
        && Reaches(producers, BothLinked(p, q, v, h, 2, size, EnqCount(1), DeqRecheck(h, 2, Some(h + 1))))
    ensures Reaches(producers, BothLinked(p, q, v, h, 2, size, EnqCount(1), DeqSwing(h, h + 1, v)))
  {
    To(producers, BothLinked(p, q, v, h, 2, size, EnqCount(1), DeqRecheck(h, 2, Some(h + 1))), Run(q, false),
       BothLinked(p, q, v, h, 2, size, EnqCount(1), DeqSwing(h, h + 1, v)));
  }

  lemma ThenSwings<T(!new)>(producers: set<Thread>, p: Thread, q: Thread, v: T, h: NodeId, size: int)
    requires p != q && h < 2 && Reaches(producers, BothLinked(p, q, v, h, 2, size, EnqCount(1), DeqSwing(h, h + 1, v)))
    ensures Reaches(producers, BothLinked(p, q, v, h + 1, 2, size, EnqCount(1), DeqUncount(v)))
  {
    assert [v, v][..h] + [v] == [v, v][..h + 1];
    To(producers, BothLinked(p, q, v, h, 2, size, EnqCount(1), DeqSwing(h, h + 1, v)), Run(q, false),
       BothLinked(p, q, v, h + 1, 2, size, EnqCount(1), DeqUncount(v)));
  }

  lemma ThenUncounts<T(!new)>(producers: set<Thread>, p: Thread, q: Thread, v: T, h: NodeId, size: int)
    requires p != q && h <= 2 && Reaches(producers, BothLinked(p, q, v, h, 2, size, EnqCount(1), DeqUncount(v)))
    ensures Reaches(producers, BothLinked(p, q, v, h, 2, size - 1, EnqCount(1), Idle))
  {
    To(producers, BothLinked(p, q, v, h, 2, size, EnqCount(1), DeqUncount(v)), Run(q, false),
       BothLinked(p, q, v, h, 2, size - 1, EnqCount(1), Idle));
  }

  /** The tail store of `p` moves the tail behind the head. */
  lemma TailBehindHead<T(!new)>(producers: set<Thread>, p: Thread, q: Thread, v: T)
    requires p != q && Reaches(producers, BothLinked(p, q, v, 2, 2, -1, EnqCount(1), Idle))
    ensures var behind := BothLinked(p, q, v, 2, 1, 0, Idle, Idle);
            Reaches(producers, behind) && behind.Rank(behind.tail) < behind.Rank(behind.head)
  {
    To(producers, BothLinked(p, q, v, 2, 2, -1, EnqCount(1), Idle), Run(p, false), BothLinked(p, q, v, 2, 2, 0,
       EnqStoreTail(1), Idle));
    To(producers, BothLinked(p, q, v, 2, 2, 0, EnqStoreTail(1), Idle), Run(p, false), BothLinked(p, q, v, 2, 1, 0,
       Idle, Idle));
  }

  lemma DequeueLoads<T(!new)>(producers: set<Thread>, p: Thread, q: Thread, v: T)
    requires p != q && Reaches(producers, BothLinked(p, q, v, 2, 1, 0, Idle, Idle))
    ensures Reaches(producers, BothLinked(p, q, v, 2, 1, 0, Idle, DeqLoadNext(2, 1)))
  {
    To(producers, BothLinked(p, q, v, 2, 1, 0, Idle, Idle), CallDequeue(q), BothLinked(p, q, v, 2, 1, 0, Idle,
       DeqLoadHead));
    To(producers, BothLinked(p, q, v, 2, 1, 0, Idle, DeqLoadHead), Run(q, false), BothLinked(p, q, v, 2, 1, 0, Idle,
       DeqLoadTail(2)));
    To(producers, BothLinked(p, q, v, 2, 1, 0, Idle, DeqLoadTail(2)), Run(q, false), BothLinked(p, q, v, 2, 1, 0,
       Idle, DeqLoadNext(2, 1)));
  }

  /** With the tail behind the head the next dequeue follows a null `next`. */
  lemma DequeueFaults<T(!new)>(producers: set<Thread>, p: Thread, q: Thread, v: T)
    requires p != q && Reaches(producers, BothLinked(p, q, v, 2, 1, 0, Idle, DeqLoadNext(2, 1)))
    ensures Reaches(producers, BothLinked(p, q, v, 2, 1, 0, Idle, Faulted))
  {
    To(producers, BothLinked(p, q, v, 2, 1, 0, Idle, DeqLoadNext(2, 1)), Run(q, false), BothLinked(p, q, v, 2, 1, 0,
       Idle, DeqRecheck(2, 1, None)));
    To(producers, BothLinked(p, q, v, 2, 1, 0, Idle, DeqRecheck(2, 1, None)), Run(q, false), BothLinked(p, q, v, 2,
       1, 0, Idle, Faulted));
  }

  lemma TwoProducersGoWrong<T(!new)>(producers: set<Thread>, p: Thread, q: Thread, v: T)
    requires p != q && p in producers && q in producers
    ensures Reaches(producers, BothLinked(p, q, v, 2, 1, 0, Idle, Idle))
    ensures Reaches(producers, BothLinked(p, q, v, 2, 1, 0, Idle, Faulted))
  {
    FirstLinks(producers, p, v);
    SecondCalls(producers, p, q, v);
    SecondHelps(producers, p, q, v);
    SecondLinks(producers, p, q, v);
    SecondReturns(producers, p, q, v);
    OneDequeued(producers, p, q, v, 0, 1);
    OneDequeued(producers, p, q, v, 1, 0);
    TailBehindHead(producers, p, q, v);
    DequeueLoads(producers, p, q, v);
    DequeueFaults(producers, p, q, v);
  }

  /** The queue is safe on every run exactly when at most one thread ever calls `Enqueue`. */
  lemma SafeIffOneProducer<T(!new)>(producers: set<Thread>, v: T)
    ensures (forall s: State<T> | Reaches(producers, s) :: TailSafe(s)) <==> |producers| <= 1
  {
    if |producers| <= 1 {
      forall s: State<T> | Reaches(producers, s) ensures TailSafe(s) {
        var acts: seq<Action<T>> :| ProducersIn(acts, producers) && RunAll(Init<T>(), acts) == s;
        var p: Thread :| producers != {} ==> p in producers;
        AtMostOne(producers, p);
        OneProducerIsSafe(acts, p);
      }
    } else {
      var p, q := TwoMembers(producers);
      TwoProducersGoWrong(producers, p, q, v);
      assert !TailSafe(BothLinked(p, q, v, 2, 1, 0, Idle, Idle));
    }
  }

  lemma AtMostOne(producers: set<Thread>, p: Thread)
    requires |producers| <= 1 && (producers != {} ==> p in producers)
    ensures producers <= {p}
  {
    if producers != {} {
      assert producers == producers - {p} + {p};
      assert |producers - {p}| == |producers| - 1;
    }
  }

  lemma TwoMembers(producers: set<Thread>) returns (p: Thread, q: Thread)
    requires |producers| > 1
    ensures p in producers && q in producers && p != q
  {
    p :| p in producers;
    assert |producers - {p}| > 0;
    q :| q in producers - {p};
  }
}
