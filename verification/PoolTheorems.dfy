/** What every run of the connection pool keeps. */
module PoolTheorems {
  import opened Common
  import opened ConnectionPool

  datatype Event =
    | Take(fd: int)
    | Close(c: nat, at: int)
    | CloseNow(c: nat)
    | Recycle(at: int)                // a whole pass of the recycler
    | RecycleOne(k: nat, at: int)     // one entry of a pass, between which others take connections

  datatype Status = Free | Recycling | Used | Unknown

  /** An event names a connection that exists; a close does not name a free one. */
  predicate Legal(p: Pool, e: Event) {
    match e
    case Close(c, _) => c < |p.connections| && c !in p.free
    case CloseNow(c) => c < |p.connections| && c !in p.free && c !in p.recycle
    case _ => true
  }

  function Apply(p: Pool, e: Event, workers: nat, wait: int): Pool
    requires workers > 0
  {
    match e
    case Take(fd) => if p.free != [] && p.free[0] >= |p.connections| then p else Get(p, fd, workers).0
    case Close(c, at) => if c >= |p.connections| then p else Retire(p, c, at)
    case CloseNow(c) => if c >= |p.connections| then p else Discard(p, c)
    case Recycle(at) => Sweep(p, at, wait)
    case RecycleOne(k, at) => SweepOne(p, k, at, wait)
  }

  ghost predicate IsRun(states: seq<Pool>, events: seq<Event>, workers: nat, wait: int) {
    && workers > 0
    && |states| == |events| + 1
    && states[0] == Init(workers)
    && (forall i :: 0 <= i < |events| ==>
          Legal(states[i], events[i]) && states[i + 1] == Apply(states[i], events[i], workers, wait))
  }

  function StatusOf(p: Pool, c: nat): Status {
    if c >= |p.connections| then Unknown
    else if c in p.free then Free
    else if c in p.recycle then Recycling
    else Used
  }

  lemma StepKeepsInv(p: Pool, e: Event, workers: nat, wait: int)
    requires Inv(p) && Legal(p, e) && workers > 0
    ensures Inv(Apply(p, e, workers, wait))
  {
    match e
    case Take(fd) => GetKeepsInv(p, fd, workers);
    case Close(c, at) => RetireKeepsInvIff(p, c, at);
    case CloseNow(c) => DiscardKeepsInvIff(p, c);
    case Recycle(at) => SweepKeepsInv(p, at, wait);
    case RecycleOne(k, at) => SweepOneKeepsInv(p, k, at, wait);
  }

  lemma InitHolds(workers: nat)
    ensures Inv(Init(workers))
  {
    GrowKeepsInv(Pool([], [], [], 0, 0, 0), workers);
  }

  lemma {:induction false} RunKeepsInv(states: seq<Pool>, events: seq<Event>, workers: nat, wait: int, i: nat)
    requires IsRun(states, events, workers, wait) && i < |states|
    ensures Inv(states[i])
  {
    if i == 0 {
      InitHolds(workers);
    } else {
      RunKeepsInv(states, events, workers, wait, i - 1);
      StepKeepsInv(states[i - 1], events[i - 1], workers, wait);
    }
  }

  // ---- Counting ----

  function UsedCount(p: Pool): int {
    |p.connections| - |p.free| - |p.recycle|
  }

  function Elements(s: seq<nat>): (r: set<nat>)
    ensures forall c :: c in r <==> c in s
  {
    if s == [] then {} else Elements(s[1..]) + {s[0]}
  }

  function Below(n: nat): (r: set<nat>)
    ensures forall c: nat :: c in r <==> c < n
    ensures |r| == n
  {
    if n == 0 then {} else Below(n - 1) + {n - 1}
  }

  lemma {:induction false} DistinctSize(s: seq<nat>, n: nat)
    requires Distinct(s, n)
    ensures |Elements(s)| == |s|
  {
    if s != [] {
      DistinctSize(s[1..], n);
      assert s[0] !in Elements(s[1..]);
    }
  }

  /** The connections handed out and not given back. */
  function HandedOut(p: Pool): set<nat> {
    Below(|p.connections|) - Elements(p.free) - Elements(p.recycle)
  }

  lemma ElementsBelow(s: seq<nat>, n: nat)
    requires Distinct(s, n)
    ensures Elements(s) <= Below(n)
  {
  }

  lemma ElementsDisjoint(a: seq<nat>, b: seq<nat>)
    requires Disjoint(a, b)
    ensures Elements(a) !! Elements(b)
  {
  }

  lemma HandedOutSize(p: Pool)
    requires Inv(p)
    ensures |HandedOut(p)| == UsedCount(p)
  {
    var n := |p.connections|;
    DistinctSize(p.free, n);
    DistinctSize(p.recycle, n);
    ElementsBelow(p.free, n);
    ElementsBelow(p.recycle, n);
    ElementsDisjoint(p.free, p.recycle);
    RemoveTwo(Below(n), Elements(p.free), Elements(p.recycle));
  }

  lemma HandedOutIs(p: Pool, c: nat)
    ensures c in HandedOut(p) <==> StatusOf(p, c) == Used
  {
  }

  lemma RemoveTwo(all: set<nat>, a: set<nat>, b: set<nat>)
    requires a <= all && b <= all && a !! b
    ensures |all - a - b| == |all| - |a| - |b|
  {
    assert all == (all - a - b) + a + b;
  }

  function Discards(events: seq<Event>): nat {
    if events == [] then 0
    else Discards(events[..|events| - 1]) + (if events[|events| - 1].CloseNow? then 1 else 0)
  }

  lemma StepOnline(p: Pool, e: Event, workers: nat, wait: int)
    requires Inv(p) && Legal(p, e) && workers > 0
    ensures var q := Apply(p, e, workers, wait);
            q.online - UsedCount(q) == p.online - UsedCount(p) + (if e.CloseNow? then 1 else 0)
  {
    if e.Recycle? {
      SelectCounts(p, p.recycle, e.at, wait);
    }
  }

  lemma {:induction false} RunOnline(states: seq<Pool>, events: seq<Event>, workers: nat, wait: int, i: nat)
    requires IsRun(states, events, workers, wait) && i < |states|
    ensures states[i].online == UsedCount(states[i]) + Discards(events[..i])
  {
    if i > 0 {
      RunOnline(states, events, workers, wait, i - 1);
      RunKeepsInv(states, events, workers, wait, i - 1);
      StepOnline(states[i - 1], events[i - 1], workers, wait);
      assert events[..i][..i - 1] == events[..i - 1];
    }
  }

  /** The partition, the counters, and by how much the online count is too large:
      every immediate close leaves it one higher for good. */
  lemma RunKeepsThePool(states: seq<Pool>, events: seq<Event>, workers: nat, wait: int, i: nat)
    requires IsRun(states, events, workers, wait) && i < |states|
    ensures Inv(states[i])
    ensures |HandedOut(states[i])| == states[i].total - states[i].freeCount - |states[i].recycle|
    ensures states[i].online == |HandedOut(states[i])| + Discards(events[..i])
  {
    RunKeepsInv(states, events, workers, wait, i);
    HandedOutSize(states[i]);
    RunOnline(states, events, workers, wait, i);
  }

  // ---- Generations ----

  lemma SweepOneStatus(p: Pool, k: nat, at: int, wait: int, c: nat)
    requires Inv(p)
    ensures var q := SweepOne(p, k, at, wait);
            StatusOf(q, c) == if k < |p.recycle| && c == p.recycle[k] && Ripe(p, c, at, wait) then Free else StatusOf(p, c)
  {
    if k < |p.recycle| {
      OneOut(p.recycle, |p.connections|, k);
    }
  }

  /** A connection's generation moves on exactly when its status changes. */
  lemma StepMovesGeneration(p: Pool, e: Event, workers: nat, wait: int, c: nat)
    requires Inv(p) && Legal(p, e) && workers > 0 && c < |p.connections|
    ensures var q := Apply(p, e, workers, wait);
            && c < |q.connections|
            && q.connections[c].gen ==
               p.connections[c].gen + (if StatusOf(q, c) == StatusOf(p, c) then 0 else 1)
  {
    match e
    case Take(fd) =>
      GetKeepsInv(p, fd, workers);
      var q, got := Get(p, fd, workers).0, Get(p, fd, workers).1;
      if p.free != [] && c != p.free[0] {
        assert p.free == [p.free[0]] + q.free;
        assert c in p.free <==> c in q.free;
      }
    case Close(_, _) =>
    case CloseNow(_) =>
    case Recycle(at) =>
      SelectIs(p, p.recycle, at, wait, true);
      SelectIs(p, p.recycle, at, wait, false);
    case RecycleOne(k, at) =>
      SweepOneStatus(p, k, at, wait, c);
  }

  /** How often the status of `c` changed between two states of a run. */
  ghost function Changes(states: seq<Pool>, c: nat, i: nat, j: nat): nat
    requires i <= j < |states|
    decreases j - i
  {
    if i == j then 0
    else Changes(states, c, i, j - 1) + (if StatusOf(states[j - 1], c) == StatusOf(states[j], c) then 0 else 1)
  }

  lemma {:induction false} NoChangeMeansSame(states: seq<Pool>, c: nat, i: nat, j: nat)
    requires i <= j < |states|
    ensures Changes(states, c, i, j) == 0 <==> (forall k :: i <= k <= j ==> StatusOf(states[k], c) == StatusOf(states[i], c))
    decreases j - i
  {
    if i < j {
      NoChangeMeansSame(states, c, i, j - 1);
    }
  }

  /** From `p` to `q`, `c` stays known and counts its change of status. */
  ghost predicate CountsChange(p: Pool, q: Pool, c: nat) {
    c < |p.connections| ==>
      && c < |q.connections|
      && q.connections[c].gen == p.connections[c].gen + (if StatusOf(p, c) == StatusOf(q, c) then 0 else 1)
  }

  ghost predicate CountsChanges(states: seq<Pool>, c: nat) {
    forall i {:trigger states[i]} :: 0 <= i && i + 1 < |states| ==> CountsChange(states[i], states[i + 1], c)
  }

  lemma RunCountsChanges(states: seq<Pool>, events: seq<Event>, workers: nat, wait: int, c: nat)
    requires IsRun(states, events, workers, wait)
    ensures CountsChanges(states, c)
  {
    forall i | 0 <= i && i + 1 < |states| ensures CountsChange(states[i], states[i + 1], c) {
      RunKeepsInv(states, events, workers, wait, i);
      if c < |states[i].connections| {
        StepMovesGeneration(states[i], events[i], workers, wait, c);
      }
    }
  }

  lemma {:induction false} GenerationCountsChanges(states: seq<Pool>, c: nat, i: nat, j: nat)
    requires CountsChanges(states, c) && i <= j < |states| && c < |states[i].connections|
    ensures c < |states[j].connections|
    ensures states[j].connections[c].gen == states[i].connections[c].gen + Changes(states, c, i, j)
    ensures Changes(states, c, i, j) <= j - i
    decreases j - i
  {
    if i < j {
      GenerationCountsChanges(states, c, i, j - 1);
      assert CountsChange(states[j - 1], states[j - 1 + 1], c);
    }
  }

  /** The stamp check, exactly: it passes when the 64-bit counter has come round. */
  lemma StampPassesIff(states: seq<Pool>, events: seq<Event>, workers: nat, wait: int, c: nat, i: nat, j: nat)
    requires IsRun(states, events, workers, wait) && i <= j < |states| && c < |states[i].connections|
    ensures c < |states[j].connections|
    ensures Stamp(states[j], c) == Stamp(states[i], c) <==> Changes(states, c, i, j) % 0x1_0000_0000_0000_0000 == 0
  {
    RunCountsChanges(states, events, workers, wait, c);
    GenerationCountsChanges(states, c, i, j);
    StampShift(states[i], states[j], c, Changes(states, c, i, j));
  }

  lemma StampShift(p: Pool, q: Pool, c: nat, d: nat)
    requires c < |p.connections| && c < |q.connections|
    requires q.connections[c].gen == p.connections[c].gen + d
    ensures Stamp(q, c) == Stamp(p, c) <==> d % STAMPS == 0
  {
    ModuloShift(p.connections[c].gen, d, STAMPS);
  }

  lemma SumOfParts(q: nat, e: nat, r: nat, f: nat, m: nat)
    ensures (q * m + r) + (e * m + f) == (q + e) * m + (r + f)
    ensures (q + e + 1) * m == (q + e) * m + m
  {
  }

  lemma ModuloShift(a: nat, d: nat, m: nat)
    requires m > 0
    ensures (a + d) % m == a % m <==> d % m == 0
  {
    var q, r := a / m, a % m;
    var e, f := d / m, d % m;
    SumOfParts(q, e, r, f, m);
    if r + f < m {
      QuotientIs(a + d, q + e, r + f, m);
    } else {
      QuotientIs(a + d, q + e + 1, r + f - m, m);
    }
  }

  /** A message stamped while its connection was in use passes a check at most
      2^64 - 1 events later only while the connection has stayed in use since. */
  lemma StampedTenancy(states: seq<Pool>, events: seq<Event>, workers: nat, wait: int, c: nat, i: nat, j: nat)
    requires IsRun(states, events, workers, wait) && i <= j < |states| && j - i < 0x1_0000_0000_0000_0000
    requires StatusOf(states[i], c) == Used
    ensures c < |states[j].connections|
    ensures Stamp(states[j], c) == Stamp(states[i], c) <==>
            (forall k :: i <= k <= j ==> StatusOf(states[k], c) == Used)
  {
    RunCountsChanges(states, events, workers, wait, c);
    GenerationCountsChanges(states, c, i, j);
    StampPassesIff(states, events, workers, wait, c, i, j);
    NoChangeMeansSame(states, c, i, j);
    SmallRemainder(Changes(states, c, i, j), STAMPS);
  }

  lemma SmallRemainder(d: nat, m: nat)
    requires d < m
    ensures d % m == 0 <==> d == 0
  {
  }

  // ---- What each event does to its connection ----

  /** All connections but `c` are as before. */
  ghost predicate OnlyChanged(p: Pool, q: Pool, c: nat) {
    |p.connections| <= |q.connections|
    && forall d :: 0 <= d < |p.connections| && d != c ==> q.connections[d] == p.connections[d] && StatusOf(q, d) == StatusOf(p, d)
  }

  /** A taken connection has the socket, and no closing time any more; no other connection changes. */
  lemma TakeGivesSocket(p: Pool, fd: int, workers: nat)
    requires Inv(p) && workers > 0
    ensures var (q, c) := Get(p, fd, workers);
      && c < |q.connections| && StatusOf(q, c) == Used && q.connections[c].fd == fd && q.connections[c].since == 0
      && OnlyChanged(p, q, c)
  {
    GetKeepsInv(p, fd, workers);
    var (q, c) := Get(p, fd, workers);
    forall d | 0 <= d < |p.connections| && d != c ensures StatusOf(q, d) == StatusOf(p, d) {
      if p.free != [] {
        assert p.free == [p.free[0]] + q.free;
      } else {
        assert d !in q.free;
      }
    }
  }

  /** An immediate close leaves the connection free, last in the free list, with its socket closed; no other changes. */
  lemma CloseNowFrees(p: Pool, c: nat)
    requires Inv(p) && StatusOf(p, c) == Used
    ensures var q := Discard(p, c);
      && StatusOf(q, c) == Free && q.connections[c].fd == -1 && q.free == p.free + [c] && OnlyChanged(p, q, c)
  {
  }

  /** A pass of the recycler frees exactly the connections that have waited long enough, behind the free ones; the
      others wait on. */
  lemma RecyclerFreesTheRipe(p: Pool, at: int, wait: int, c: nat)
    requires Inv(p) && c < |p.connections|
    ensures var q := Sweep(p, at, wait);
      && StatusOf(q, c) == (if StatusOf(p, c) == Recycling && p.connections[c].since + wait <= at then Free else StatusOf(p, c))
      && p.free <= q.free && q.connections[c].fd == p.connections[c].fd && q.connections[c].since == p.connections[c].since
  {
    SelectIs(p, p.recycle, at, wait, true);
    SelectIs(p, p.recycle, at, wait, false);
  }

  /** So is a closed connection free after the first pass that comes late enough. */
  lemma ClosedIsFreed(states: seq<Pool>, events: seq<Event>, workers: nat, wait: int, c: nat, since: int, i: nat)
    requires IsRun(states, events, workers, wait) && i < |events| && WaitsSince(states[i], c, since)
    requires events[i].Recycle? && since + wait <= events[i].at
    ensures StatusOf(states[i + 1], c) == Free
  {
    RunKeepsInv(states, events, workers, wait, i);
    RecyclerFreesTheRipe(states[i], events[i].at, wait, c);
  }

  // ---- Waiting ----

  ghost predicate RecycledAfter(events: seq<Event>, i: nat, j: nat, time: int)
    requires j <= |events|
  {
    exists k :: i <= k < j && (events[k].Recycle? || events[k].RecycleOne?) && time <= events[k].at
  }

  /** `c` still waits for the recycler, since `since`. */
  predicate WaitsSince(p: Pool, c: nat, since: int) {
    StatusOf(p, c) == Recycling && p.connections[c].since == since
  }

  lemma {:induction false} LeavesRecycleRipe(states: seq<Pool>, events: seq<Event>, workers: nat, wait: int, c: nat,
        since: int, i: nat, j: nat)
    requires IsRun(states, events, workers, wait) && i <= j < |states|
    requires WaitsSince(states[i], c, since)
    ensures RecycledAfter(events, i, j, since + wait) || WaitsSince(states[j], c, since)
    decreases j - i
  {
    if i < j {
      LeavesRecycleRipe(states, events, workers, wait, c, since, i, j - 1);
      if RecycledAfter(events, i, j - 1, since + wait) {
        RecycledEarlier(events, i, j - 1, j, since + wait);
      } else {
        RunKeepsInv(states, events, workers, wait, j - 1);
        StaysRecycling(states[j - 1], events[j - 1], workers, wait, c);
      }
    }
  }

  lemma RecycledEarlier(events: seq<Event>, i: nat, j: nat, k: nat, time: int)
    requires j <= k <= |events| && RecycledAfter(events, i, j, time)
    ensures RecycledAfter(events, i, k, time)
  {
  }

  lemma StaysRecycling(p: Pool, e: Event, workers: nat, wait: int, c: nat)
    requires Inv(p) && Legal(p, e) && workers > 0 && StatusOf(p, c) == Recycling
    ensures var q := Apply(p, e, workers, wait);
            || ((e.Recycle? || e.RecycleOne?) && p.connections[c].since + wait <= e.at)
            || (StatusOf(q, c) == Recycling && q.connections[c].since == p.connections[c].since)
  {
    match e
    case Take(fd) => GetKeepsInv(p, fd, workers);
    case Close(_, _) =>
    case CloseNow(_) =>
    case Recycle(at) =>
      SelectIs(p, p.recycle, at, wait, true);
      SelectIs(p, p.recycle, at, wait, false);
    case RecycleOne(k, at) =>
      SweepOneStatus(p, k, at, wait, c);
  }

  /** A closed connection is taken again only after a recycler pass, or a step of
      one, at least `wait` later than the time of its close. */
  lemma ReuseWaits(states: seq<Pool>, events: seq<Event>, workers: nat, wait: int, i: nat, j: nat)
    requires IsRun(states, events, workers, wait) && i < j < |events|
    requires events[i].Close? && StatusOf(states[i], events[i].c) == Used
    requires events[j].Take? && StatusOf(states[j], events[i].c) != Used && StatusOf(states[j + 1], events[i].c) == Used
    ensures RecycledAfter(events, i + 1, j, events[i].at + wait)
  {
    RunKeepsInv(states, events, workers, wait, i);
    RunKeepsInv(states, events, workers, wait, j);
    LeavesRecycleRipe(states, events, workers, wait, events[i].c, events[i].at, i + 1, j);
    GetKeepsInv(states[j], events[j].fd, workers);
  }
}
