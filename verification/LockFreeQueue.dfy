/** `LockFreeQueue` as a transition system: every atomic load, store and compare-and-exchange of
    `Enqueue` and `TryDequeue` is one step, interleaved over any number of threads.

    Memory is sequentially consistent, node ids are never reused, and freeing a node is a no-op.
    `rank`, `linked` and `taken` are history: nothing the algorithm does depends on them. */
module LockFreeQueue {
  import opened Common

  type Thread = nat
  type NodeId = nat

  /** A queue node. `rank` is the place of the node in link order, `None` until it is linked. */
  datatype Node<T> = Node(data: Option<T>, next: Option<NodeId>, rank: Option<nat>)

  /** Where a thread stands; each constructor names the atomic access it makes next. */
  datatype Pc<T> =
    | Idle
    | EnqLoadTail(mine: NodeId)
    | EnqLoadNext(mine: NodeId, oldTail: NodeId)
    | EnqRecheck(mine: NodeId, oldTail: NodeId, next: Option<NodeId>)
    | EnqLink(mine: NodeId, oldTail: NodeId)
    | EnqHelp(mine: NodeId, oldTail: NodeId, succ: NodeId)
    | EnqCount(mine: NodeId)
    | EnqStoreTail(mine: NodeId)
    | DeqLoadHead
    | DeqLoadTail(oldHead: NodeId)
    | DeqLoadNext(oldHead: NodeId, oldTail: NodeId)
    | DeqRecheck(oldHead: NodeId, oldTail: NodeId, next: Option<NodeId>)
    | DeqHelp(oldTail: NodeId, succ: NodeId)
    | DeqSwing(oldHead: NodeId, succ: NodeId, msg: T)
    | DeqUncount(msg: T)
    | Faulted
  {
    predicate Enqueuing() {
      EnqLoadTail? || EnqLoadNext? || EnqRecheck? || EnqLink? || EnqHelp? || EnqCount? || EnqStoreTail?
    }

    /** The thread owns a node that is not linked yet. */
    predicate Unlinked() {
      EnqLoadTail? || EnqLoadNext? || EnqRecheck? || EnqLink? || EnqHelp?
    }

    predicate Dequeuing() {
      DeqLoadHead? || DeqLoadTail? || DeqLoadNext? || DeqRecheck? || DeqHelp? || DeqSwing? || DeqUncount?
    }
  }

  datatype State<T> = State(
    nodes: seq<Node<T>>,
    head: NodeId,
    tail: NodeId,
    size: int,
    pcs: map<Thread, Pc<T>>,
    order: seq<NodeId>,
    linked: seq<T>,
    taken: seq<T>)
  {
    function Pc(t: Thread): Pc<T> { if t in pcs then pcs[t] else Idle }

    function Go(t: Thread, pc: Pc<T>): State<T> { this.(pcs := pcs[t := pc]) }

    function Next(n: NodeId): Option<NodeId> { if n < |nodes| then nodes[n].next else None }

    function Rank(n: NodeId): int { if n < |nodes| && nodes[n].rank.Some? then nodes[n].rank.value else -1 }

    /** The abstract queue: linked and not yet taken. */
    function Contents(): seq<T> { if |taken| <= |linked| then linked[|taken|..] else [] }
  }

  datatype Action<T> =
    | CallEnqueue(t: Thread, msg: T)
    | CallDequeue(t: Thread)
    | Run(t: Thread, weakFails: bool)  // weakFails: a weak compare-and-exchange fails spuriously

  function Init<T>(): State<T> {
    State([Node(None, None, Some(0))], 0, 0, 0, map[], [0], [], [])
  }

  // ---------------------------------------------------------------------------------------------
  // The steps
  // ---------------------------------------------------------------------------------------------

  /** `old_tail->next.compare_exchange_weak(nullptr, mine)` succeeds. */
  function Link<T>(s: State<T>, mine: NodeId, oldTail: NodeId): State<T>
    requires mine < |s.nodes| && oldTail < |s.nodes| && s.nodes[mine].data.Some?
  {
    var linkedNodes := s.nodes[oldTail := s.nodes[oldTail].(next := Some(mine))];
    s.(nodes := linkedNodes[mine := linkedNodes[mine].(rank := Some(|s.order|))],
       order := s.order + [mine],
       linked := s.linked + [s.nodes[mine].data.value])
  }

  function StepEnqueue<T>(s: State<T>, t: Thread, weakFails: bool): State<T> {
    match s.Pc(t)
    case EnqLoadTail(mine) => s.Go(t, EnqLoadNext(mine, s.tail))
    case EnqLoadNext(mine, oldTail) => s.Go(t, EnqRecheck(mine, oldTail, s.Next(oldTail)))
    case EnqRecheck(mine, oldTail, next) =>
      if oldTail != s.tail then s.Go(t, EnqLoadTail(mine))
      else if next.None? then s.Go(t, EnqLink(mine, oldTail))
      else s.Go(t, EnqHelp(mine, oldTail, next.value))
    case EnqLink(mine, oldTail) =>
      if !weakFails && mine < |s.nodes| && oldTail < |s.nodes| && s.nodes[mine].data.Some? && s.Next(oldTail).None?
      then Link(s, mine, oldTail).Go(t, EnqCount(mine))
      else s.Go(t, EnqLoadTail(mine))
    case EnqHelp(mine, oldTail, succ) =>
      if !weakFails && s.tail == oldTail then s.(tail := succ).Go(t, EnqLoadTail(mine))
      else s.Go(t, EnqLoadTail(mine))
    case EnqCount(mine) => s.(size := s.size + 1).Go(t, EnqStoreTail(mine))
    case EnqStoreTail(mine) => s.(tail := mine).Go(t, Idle)
    case _ => s
  }

  function StepDequeue<T>(s: State<T>, t: Thread, weakFails: bool): State<T> {
    match s.Pc(t)
    case DeqLoadHead => s.Go(t, DeqLoadTail(s.head))
    case DeqLoadTail(oldHead) => s.Go(t, DeqLoadNext(oldHead, s.tail))
    case DeqLoadNext(oldHead, oldTail) => s.Go(t, DeqRecheck(oldHead, oldTail, s.Next(oldHead)))
    case DeqRecheck(oldHead, oldTail, next) =>
      if oldHead != s.head then s.Go(t, DeqLoadHead)
      else if oldHead == oldTail then
        if next.None? then s.Go(t, Idle)  // returns false
        else s.Go(t, DeqHelp(oldTail, next.value))
      else if next.None? || next.value >= |s.nodes| || s.nodes[next.value].data.None? then s.Go(t, Faulted)
      else s.Go(t, DeqSwing(oldHead, next.value, s.nodes[next.value].data.value))
    case DeqHelp(oldTail, succ) =>
      if s.tail == oldTail then s.(tail := succ).Go(t, DeqLoadHead) else s.Go(t, DeqLoadHead)
    case DeqSwing(oldHead, succ, msg) =>
      if !weakFails && s.head == oldHead
      then s.(head := succ, taken := s.taken + [msg]).Go(t, DeqUncount(msg))
      else s.Go(t, DeqLoadHead)
    case DeqUncount(msg) => s.(size := s.size - 1).Go(t, Idle)  // returns true
    case _ => s
  }

  function Step<T>(s: State<T>, a: Action<T>): State<T> {
    match a
    case CallEnqueue(t, msg) =>
      if s.Pc(t).Idle?
      then s.(nodes := s.nodes + [Node(Some(msg), None, None)]).Go(t, EnqLoadTail(|s.nodes|))
      else s
    case CallDequeue(t) => if s.Pc(t).Idle? then s.Go(t, DeqLoadHead) else s
    case Run(t, weakFails) =>
      if s.Pc(t).Enqueuing() then StepEnqueue(s, t, weakFails) else StepDequeue(s, t, weakFails)
  }

  function RunAll<T>(s: State<T>, acts: seq<Action<T>>): State<T>
    decreases |acts|
  {
    if acts == [] then s else Step(RunAll(s, acts[..|acts| - 1]), acts[|acts| - 1])
  }

  // ---------------------------------------------------------------------------------------------
  // The invariant of every run, for any number of producers and consumers
  // ---------------------------------------------------------------------------------------------

  /** The nodes linked so far form one chain: rank, `next` and message agree with the link order. */
  ghost predicate Links<T>(nodes: seq<Node<T>>, order: seq<NodeId>, linked: seq<T>) {
    && |order| == |linked| + 1
    && (forall i {:trigger order[i]} | 0 <= i < |order| :: order[i] < |nodes| && nodes[order[i]].rank == Some(i))
    && (forall n {:trigger nodes[n].rank} | 0 <= n < |nodes| && nodes[n].rank.Some? ::
          nodes[n].rank.value < |order| && order[nodes[n].rank.value] == n)
    && (forall n {:trigger nodes[n].next} | 0 <= n < |nodes| :: nodes[n].next == Successor(nodes[n].rank, order))
    && (forall i {:trigger linked[i]} | 0 <= i < |linked| :: nodes[order[i + 1]].data == Some(linked[i]))
  }

  function Successor(rank: Option<nat>, order: seq<NodeId>): Option<NodeId> {
    if rank.Some? && rank.value + 1 < |order| then Some(order[rank.value + 1]) else None
  }

  ghost predicate Chain<T>(s: State<T>) {
    && Links(s.nodes, s.order, s.linked)
    && |s.taken| <= |s.linked| && s.taken == s.linked[..|s.taken|]
    && s.Rank(s.head) == |s.taken|
    && s.Rank(s.tail) >= 0
  }

  /** What a thread's local variables say about the shared state. */
  ghost predicate LocalInv<T>(s: State<T>, pc: Pc<T>) {
    && (pc.Enqueuing() ==> pc.mine < |s.nodes| && s.nodes[pc.mine].data.Some?)
    && (pc.Unlinked() ==> s.Rank(pc.mine) == -1)
    && (pc.EnqCount? || pc.EnqStoreTail? ==> s.Rank(pc.mine) >= 0)
    && (pc.EnqLoadNext? || pc.EnqRecheck? || pc.EnqLink? || pc.EnqHelp? ==> s.Rank(pc.oldTail) >= 0)
    && (pc.EnqRecheck? && pc.next.Some? ==> s.Next(pc.oldTail) == pc.next)
    && (pc.EnqHelp? ==> s.Next(pc.oldTail) == Some(pc.succ))
    && (pc.DeqLoadTail? || pc.DeqLoadNext? || pc.DeqRecheck? || pc.DeqSwing? ==> 0 <= s.Rank(pc.oldHead) <= |s.taken|)
    && (pc.DeqLoadNext? || pc.DeqRecheck? || pc.DeqHelp? ==> s.Rank(pc.oldTail) >= 0)
    && (pc.DeqRecheck? && pc.next.Some? ==> s.Next(pc.oldHead) == pc.next)
    && (pc.DeqHelp? ==> s.Next(pc.oldTail) == Some(pc.succ))
    && (pc.DeqSwing? ==> s.Next(pc.oldHead) == Some(pc.succ) && pc.succ < |s.nodes| && s.nodes[pc.succ].data == Some(pc.msg))
  }

  ghost predicate Locals<T>(s: State<T>) {
    && (forall t {:trigger s.pcs[t]} | t in s.pcs :: LocalInv(s, s.pcs[t]))
    && (forall t, u {:trigger s.pcs[t], s.pcs[u]} | t in s.pcs && u in s.pcs && t != u
          && s.pcs[t].Unlinked() && s.pcs[u].Unlinked() :: s.pcs[t].mine != s.pcs[u].mine)
  }

  ghost predicate Inv<T>(s: State<T>) {
    Chain(s) && Locals(s)
  }

  /** Shared state only grows: links, ranks and messages are never changed once set. */
  ghost predicate Grows<T>(s: State<T>, s': State<T>) {
    && |s.nodes| <= |s'.nodes| && |s.taken| <= |s'.taken|
    && (forall n | 0 <= n < |s.nodes| ::
          && s'.nodes[n].data == s.nodes[n].data
          && (s.nodes[n].next.Some? ==> s'.nodes[n].next == s.nodes[n].next)
          && (s.nodes[n].rank.Some? ==> s'.nodes[n].rank == s.nodes[n].rank))
  }

  lemma LocalInvStable<T>(s: State<T>, s': State<T>, pc: Pc<T>)
    requires Grows(s, s') && LocalInv(s, pc)
    requires pc.Unlinked() ==> s'.Rank(pc.mine) == -1
    ensures LocalInv(s', pc)
  {
  }

  lemma InitInv<T>()
    ensures Inv(Init<T>())
  {
  }

  /** Linking `mine` behind the last node extends the chain by one. */
  lemma LinkKeepsLinks<T>(nodes: seq<Node<T>>, order: seq<NodeId>, linked: seq<T>, mine: NodeId, last: NodeId)
    requires Links(nodes, order, linked)
    requires mine < |nodes| && nodes[mine].data.Some? && nodes[mine].rank.None?
    requires last < |nodes| && nodes[last].rank == Some(|order| - 1)
    ensures Links(nodes[last := nodes[last].(next := Some(mine))][mine := nodes[mine].(rank := Some(|order|))],
                  order + [mine], linked + [nodes[mine].data.value])
  {
    var nodes' := nodes[last := nodes[last].(next := Some(mine))][mine := nodes[mine].(rank := Some(|order|))];
    var order', linked' := order + [mine], linked + [nodes[mine].data.value];
    forall i {:trigger order'[i]} | 0 <= i < |order'|
      ensures order'[i] < |nodes'| && nodes'[order'[i]].rank == Some(i)
    {
      if i < |order| { assert order'[i] == order[i]; }
    }
    forall n {:trigger nodes'[n].rank} | 0 <= n < |nodes'| && nodes'[n].rank.Some?
      ensures nodes'[n].rank.value < |order'| && order'[nodes'[n].rank.value] == n
    {
      if n != mine { assert nodes'[n].rank == nodes[n].rank; }
    }
    forall n {:trigger nodes'[n].next} | 0 <= n < |nodes'|
      ensures nodes'[n].next == Successor(nodes'[n].rank, order')
    {
      if n == mine {
        assert nodes[n].next == None;
      } else {
        assert nodes[n].next == Successor(nodes[n].rank, order);
        assert nodes'[n].rank == nodes[n].rank;
      }
    }
    forall i {:trigger linked'[i]} | 0 <= i < |linked'| ensures nodes'[order'[i + 1]].data == Some(linked'[i]) {
      if i < |linked| {
        assert linked'[i] == linked[i];
        assert order'[i + 1] == order[i + 1];
      }
    }
  }

  lemma LinkGrows<T>(s: State<T>, mine: NodeId, oldTail: NodeId)
    requires mine < |s.nodes| && s.nodes[mine].data.Some? && s.Rank(mine) == -1
    requires oldTail < |s.nodes| && s.Next(oldTail).None? && mine != oldTail
    ensures Grows(s, Link(s, mine, oldTail))
    ensures forall n | n != mine :: Link(s, mine, oldTail).Rank(n) == s.Rank(n)
    ensures Link(s, mine, oldTail).Rank(mine) == |s.order|
  {
  }

  lemma OpenEndIsLast<T>(nodes: seq<Node<T>>, order: seq<NodeId>, linked: seq<T>, n: NodeId)
    requires Links(nodes, order, linked) && n < |nodes| && nodes[n].rank.Some? && nodes[n].next.None?
    ensures nodes[n].rank == Some(|order| - 1)
  {
    assert nodes[n].next == Successor(nodes[n].rank, order);
  }

  lemma LinkKeepsChain<T>(s: State<T>, mine: NodeId, oldTail: NodeId)
    requires Chain(s)
    requires mine < |s.nodes| && s.nodes[mine].data.Some? && s.Rank(mine) == -1
    requires oldTail < |s.nodes| && s.Rank(oldTail) >= 0 && s.Next(oldTail).None?
    ensures mine != oldTail && Chain(Link(s, mine, oldTail))
  {
    var s' := Link(s, mine, oldTail);
    OpenEndIsLast(s.nodes, s.order, s.linked, oldTail);
    assert mine != oldTail;
    LinkKeepsLinks(s.nodes, s.order, s.linked, mine, oldTail);
    assert s.nodes[oldTail := s.nodes[oldTail].(next := Some(mine))][mine] == s.nodes[mine];
    assert Links(s'.nodes, s'.order, s'.linked);
    LinkGrows(s, mine, oldTail);
    assert s'.linked[..|s.taken|] == s.linked[..|s.taken|];
  }

  /** When `t` alone moves and the other threads' nodes stay unlinked, only its new local state needs checking. */
  lemma OneThreadMoves<T>(s: State<T>, s': State<T>, t: Thread, pc: Pc<T>)
    requires Locals(s) && Grows(s, s') && s'.pcs == s.pcs[t := pc]
    requires forall u {:trigger s.pcs[u]} | u in s.pcs && u != t && s.pcs[u].Unlinked() ::
               s'.Rank(s.pcs[u].mine) == -1 && (pc.Unlinked() ==> pc.mine != s.pcs[u].mine)
    requires LocalInv(s', pc)
    ensures Locals(s')
  {
    forall u {:trigger s'.pcs[u]} | u in s'.pcs ensures LocalInv(s', s'.pcs[u]) {
      if u != t {
        assert LocalInv(s, s.pcs[u]);
        LocalInvStable(s, s', s.pcs[u]);
      }
    }
  }

  /** A step that links and allocates nothing: the same nodes, and at most the same unlinked node. */
  lemma QuietMove<T>(s: State<T>, s': State<T>, t: Thread, pc: Pc<T>)
    requires Locals(s) && s'.nodes == s.nodes && |s.taken| <= |s'.taken| && s'.pcs == s.pcs[t := pc]
    requires t in s.pcs && (pc.Unlinked() ==> s.pcs[t].Unlinked() && pc.mine == s.pcs[t].mine)
    requires LocalInv(s', pc)
    ensures Locals(s') && Grows(s, s')
  {
    forall u {:trigger s.pcs[u]} | u in s.pcs && u != t && s.pcs[u].Unlinked()
      ensures s'.Rank(s.pcs[u].mine) == -1
    {
      assert LocalInv(s, s.pcs[u]);
    }
    OneThreadMoves(s, s', t, pc);
  }

  predicate LinkSucceeds<T>(s: State<T>, t: Thread, weakFails: bool) {
    s.Pc(t).EnqLink? && StepEnqueue(s, t, weakFails).Pc(t).EnqCount?
  }

  /** A step that links the thread's own node. */
  lemma LinkMove<T>(s: State<T>, s': State<T>, t: Thread, mine: NodeId)
    requires Locals(s) && Grows(s, s') && s'.pcs == s.pcs[t := EnqCount(mine)]
    requires t in s.pcs && s.pcs[t].Unlinked() && s.pcs[t].mine == mine
    requires forall n | n != mine :: s'.Rank(n) == s.Rank(n)
    requires LocalInv(s', EnqCount(mine))
    ensures Locals(s')
  {
    forall u {:trigger s.pcs[u]} | u in s.pcs && u != t && s.pcs[u].Unlinked()
      ensures s'.Rank(s.pcs[u].mine) == -1
    {
      assert LocalInv(s, s.pcs[u]) && s.pcs[t].Unlinked();
    }
    OneThreadMoves(s, s', t, EnqCount(mine));
  }

  lemma LinkStepChain<T>(s: State<T>, t: Thread, weakFails: bool)
    requires Chain(s) && LinkSucceeds(s, t, weakFails) && LocalInv(s, s.Pc(t))
    ensures Chain(StepEnqueue(s, t, weakFails))
  {
    var pc := s.pcs[t];
    LinkKeepsChain(s, pc.mine, pc.oldTail);
    ChainOfShared(Link(s, pc.mine, pc.oldTail), StepEnqueue(s, t, weakFails));
  }

  lemma LinkStepLocals<T>(s: State<T>, t: Thread, weakFails: bool)
    requires Locals(s) && LinkSucceeds(s, t, weakFails)
    ensures Locals(StepEnqueue(s, t, weakFails)) && Grows(s, StepEnqueue(s, t, weakFails))
  {
    var pc := s.pcs[t];
    assert LocalInv(s, pc);
    LinkGrows(s, pc.mine, pc.oldTail);
    LinkMove(s, StepEnqueue(s, t, weakFails), t, pc.mine);
  }

  lemma LinkStepInv<T>(s: State<T>, t: Thread, weakFails: bool)
    requires Inv(s) && LinkSucceeds(s, t, weakFails)
    ensures Inv(StepEnqueue(s, t, weakFails)) && Grows(s, StepEnqueue(s, t, weakFails))
  {
    assert LocalInv(s, s.pcs[t]);
    LinkStepChain(s, t, weakFails);
    LinkStepLocals(s, t, weakFails);
  }

  /** The chain does not depend on where the threads stand. */
  lemma ChainOfShared<T>(s: State<T>, s': State<T>)
    requires Chain(s) && s' == s.(pcs := s'.pcs)
    ensures Chain(s')
  {
  }

  /** The node after a linked node is linked too, one place further. */
  lemma NextRank<T>(s: State<T>, n: NodeId)
    requires Chain(s) && s.Rank(n) >= 0 && s.Next(n).Some?
    ensures s.Rank(s.Next(n).value) == s.Rank(n) + 1 && s.Next(n).value < |s.nodes|
    ensures s.Rank(n) < |s.linked| && s.nodes[s.Next(n).value].data == Some(s.linked[s.Rank(n)])
  {
    assert s.nodes[n].next == Successor(s.nodes[n].rank, s.order);
    var r := s.nodes[n].rank.value;
    assert s.order[r + 1] == s.Next(n).value;
    assert s.linked[r] == s.linked[r];
  }

  lemma EnqueueLocal<T>(s: State<T>, t: Thread, weakFails: bool)
    requires s.Rank(s.tail) >= 0
    requires t in s.pcs && LocalInv(s, s.pcs[t]) && s.pcs[t].Enqueuing() && !LinkSucceeds(s, t, weakFails)
    ensures var s' := StepEnqueue(s, t, weakFails);
            && (s' == s.(tail := s'.tail, size := s'.size, pcs := s'.pcs)) && s'.pcs == s.pcs[t := s'.Pc(t)]
            && (s'.tail == s.tail
                || (s.pcs[t].EnqHelp? && s'.tail == s.pcs[t].succ)
                || (s.pcs[t].EnqStoreTail? && s'.tail == s.pcs[t].mine))
            && LocalInv(s', s'.Pc(t)) && (s'.Pc(t).Unlinked() ==> s.pcs[t].Unlinked() && s'.Pc(t).mine == s.pcs[t].mine)
  {
  }

  lemma EnqueueStepInv<T>(s: State<T>, t: Thread, weakFails: bool)
    requires Inv(s) && s.Pc(t).Enqueuing()
    ensures Inv(StepEnqueue(s, t, weakFails)) && Grows(s, StepEnqueue(s, t, weakFails))
  {
    if LinkSucceeds(s, t, weakFails) {
      LinkStepInv(s, t, weakFails);
    } else {
      assert LocalInv(s, s.pcs[t]);
      EnqueueLocal(s, t, weakFails);
      if s.pcs[t].EnqHelp? { NextRank(s, s.pcs[t].oldTail); }
      var s' := StepEnqueue(s, t, weakFails);
      QuietMove(s, s', t, s'.Pc(t));
    }
  }

  predicate TakeSucceeds<T>(s: State<T>, t: Thread, weakFails: bool) {
    s.Pc(t).DeqSwing? && !weakFails && s.head == s.Pc(t).oldHead
  }

  lemma RecheckLocal<T>(s: State<T>, t: Thread, weakFails: bool)
    requires t in s.pcs && LocalInv(s, s.pcs[t]) && s.pcs[t].DeqRecheck?
    ensures var s' := StepDequeue(s, t, weakFails);
            s' == s.(pcs := s.pcs[t := s'.Pc(t)]) && LocalInv(s', s'.Pc(t)) && !s'.Pc(t).Unlinked()
  {
  }

  lemma DequeueLocal<T>(s: State<T>, t: Thread, weakFails: bool)
    requires s.Rank(s.tail) >= 0 && s.Rank(s.head) == |s.taken|
    requires t in s.pcs && LocalInv(s, s.pcs[t]) && s.pcs[t].Dequeuing() && !TakeSucceeds(s, t, weakFails)
    ensures var s' := StepDequeue(s, t, weakFails);
            && (s' == s.(tail := s'.tail, size := s'.size, pcs := s'.pcs)) && s'.pcs == s.pcs[t := s'.Pc(t)]
            && (s'.tail == s.tail || (s.pcs[t].DeqHelp? && s'.tail == s.pcs[t].succ))
            && LocalInv(s', s'.Pc(t)) && !s'.Pc(t).Unlinked()
  {
    if s.pcs[t].DeqRecheck? {
      RecheckLocal(s, t, weakFails);
    }
  }

  /** The successful head exchange returns the oldest linked message. */
  lemma TakeKeepsChain<T>(s: State<T>, oldHead: NodeId, succ: NodeId, msg: T)
    requires Chain(s) && s.head == oldHead && s.Next(oldHead) == Some(succ) && succ < |s.nodes| && s.nodes[succ].data == Some(msg)
    ensures Chain(s.(head := succ, taken := s.taken + [msg]))
    ensures s.Contents() != [] && s.Contents()[0] == msg
  {
    NextRank(s, oldHead);
    var k := |s.taken|;
    assert s.linked[..k + 1] == s.linked[..k] + [s.linked[k]];
  }

  lemma DequeueStepInv<T>(s: State<T>, t: Thread, weakFails: bool)
    requires Inv(s) && s.Pc(t).Dequeuing()
    ensures Inv(StepDequeue(s, t, weakFails)) && Grows(s, StepDequeue(s, t, weakFails))
  {
    assert LocalInv(s, s.pcs[t]);
    var s' := StepDequeue(s, t, weakFails);
    if TakeSucceeds(s, t, weakFails) {
      TakeKeepsChain(s, s.pcs[t].oldHead, s.pcs[t].succ, s.pcs[t].msg);
      QuietMove(s, s', t, DeqUncount(s.pcs[t].msg));
    } else {
      DequeueLocal(s, t, weakFails);
      if s.pcs[t].DeqHelp? { NextRank(s, s.pcs[t].oldTail); }
      QuietMove(s, s', t, s'.Pc(t));
    }
  }

  lemma CallEnqueueInv<T>(s: State<T>, t: Thread, msg: T)
    requires Inv(s) && s.Pc(t).Idle?
    ensures Inv(Step(s, CallEnqueue(t, msg))) && Grows(s, Step(s, CallEnqueue(t, msg)))
  {
    var s' := Step(s, CallEnqueue(t, msg));
    forall u {:trigger s.pcs[u]} | u in s.pcs && u != t && s.pcs[u].Unlinked()
      ensures s'.Rank(s.pcs[u].mine) == -1 && s.pcs[u].mine < |s.nodes|
    {
      assert LocalInv(s, s.pcs[u]);
    }
    OneThreadMoves(s, s', t, EnqLoadTail(|s.nodes|));
  }

  /** Every step of any thread keeps the invariant and undoes nothing. */
  lemma StepInv<T>(s: State<T>, a: Action<T>)
    requires Inv(s)
    ensures Inv(Step(s, a)) && Grows(s, Step(s, a))
  {
    match a
    case CallEnqueue(t, msg) =>
      if s.Pc(t).Idle? { CallEnqueueInv(s, t, msg); }
    case CallDequeue(t) =>
      if s.Pc(t).Idle? { OneThreadMoves(s, Step(s, a), t, DeqLoadHead); }
    case Run(t, weakFails) =>
      if s.Pc(t).Enqueuing() {
        EnqueueStepInv(s, t, weakFails);
      } else if s.Pc(t).Dequeuing() {
        DequeueStepInv(s, t, weakFails);
      }
  }

  lemma {:induction false} RunInv<T>(acts: seq<Action<T>>)
    ensures Inv(RunAll(Init(), acts))
    decreases |acts|
  {
    if acts == [] {
      InitInv<T>();
    } else {
      RunInv(acts[..|acts| - 1]);
      StepInv(RunAll(Init(), acts[..|acts| - 1]), acts[|acts| - 1]);
    }
  }
}
