/** The connection pool with delayed recycling and generation stamps
    (my_socket_conn.cpp). A connection is named by its place in the list of all
    connections. Each event is one locked region of the source. */
module ConnectionPool {

  /** `iCurrsequence` is a 64-bit counter; `gen` counts without a bound. */
  const STAMPS: nat := 0x1_0000_0000_0000_0000

  datatype Connection = Connection(id: int, gen: nat, fd: int, since: int)

  datatype Pool = Pool(
    connections: seq<Connection>, free: seq<nat>, recycle: seq<nat>,
    total: int, freeCount: int, online: int)

  function InUse(conn: Connection, fd: int): Connection {
    conn.(since := 0, gen := conn.gen + 1, fd := fd)
  }

  /** What a message carries, and what the check at its use compares. */
  function Stamp(p: Pool, c: nat): nat
    requires c < |p.connections|
  {
    p.connections[c].gen % STAMPS
  }

  function Fresh(first: int, workers: nat): seq<Connection> {
    seq(workers, i => Connection(i + first, 1, -1, 0))
  }

  function Grow(p: Pool, workers: nat): Pool {
    var n := |p.connections|;
    p.(connections := p.connections + Fresh(p.total, workers),
       free := p.free + seq(workers, i => n + i),
       total := n + workers,
       freeCount := p.freeCount + workers)
  }

  function Init(workers: nat): Pool {
    Grow(Pool([], [], [], 0, 0, 0), workers)
  }

  /** `ngx_get_connection`; without workers its loop never ends. */
  function Get(p: Pool, fd: int, workers: nat): (Pool, nat)
    requires workers > 0
    requires p.free != [] ==> p.free[0] < |p.connections|
  {
    var q := if p.free == [] then Grow(p, workers) else p;
    var c := q.free[0];
    (q.(connections := q.connections[c := InUse(q.connections[c], fd)],
        free := q.free[1..],
        freeCount := q.freeCount - 1,
        online := q.online + 1), c)
  }

  /** `inRecyConnectQueue`, which looks for a duplicate by id. */
  function Retire(p: Pool, c: nat, now: int): Pool
    requires c < |p.connections|
  {
    var conn := p.connections[c];
    if exists r :: r in p.recycle && r < |p.connections| && p.connections[r].id == conn.id then p
    else
      p.(connections := p.connections[c := conn.(since := now, gen := conn.gen + 1)],
         recycle := p.recycle + [c],
         online := p.online - 1)
  }

  /** `ngx_close_connection`: at once to the free list, the online count kept. */
  function Discard(p: Pool, c: nat): Pool
    requires c < |p.connections|
  {
    var conn := p.connections[c];
    p.(connections := p.connections[c := conn.(fd := -1, gen := conn.gen + 1)],
       free := p.free + [c],
       freeCount := p.freeCount + 1)
  }

  predicate Ripe(p: Pool, c: nat, now: int, wait: int) {
    c < |p.connections| && p.connections[c].since + wait <= now
  }

  /** The entries of `list` that are ripe, or the ones that are not, in order. */
  function Select(p: Pool, list: seq<nat>, now: int, wait: int, ripe: bool): seq<nat> {
    if list == [] then []
    else
      (if Ripe(p, list[0], now, wait) == ripe then [list[0]] else [])
      + Select(p, list[1..], now, wait, ripe)
  }

  /** The generations after the connections in `ripe` are put to free. */
  function Bumped(p: Pool, ripe: seq<nat>): seq<Connection> {
    seq(|p.connections|, i requires 0 <= i < |p.connections| =>
      if i in ripe then p.connections[i].(gen := p.connections[i].gen + 1) else p.connections[i])
  }

  /** One pass of the recycler over its list. */
  function Sweep(p: Pool, now: int, wait: int): Pool {
    var ripe := Select(p, p.recycle, now, wait, true);
    p.(connections := Bumped(p, ripe),
       free := p.free + ripe,
       recycle := Select(p, p.recycle, now, wait, false),
       freeCount := p.freeCount + |ripe|)
  }

  /** The waiting entry at `k` freed and erased. */
  function MovedToFree(p: Pool, k: nat): Pool
    requires k < |p.recycle| && p.recycle[k] < |p.connections|
  {
    var c := p.recycle[k];
    p.(connections := p.connections[c := p.connections[c].(gen := p.connections[c].gen + 1)],
       free := p.free + [c],
       freeCount := p.freeCount + 1,
       recycle := p.recycle[..k] + p.recycle[k + 1..])
  }

  /** What the recycler does with one entry of its list; others may take connections before it goes on to the next. */
  function SweepOne(p: Pool, k: nat, now: int, wait: int): Pool {
    if k < |p.recycle| && Ripe(p, p.recycle[k], now, wait) then MovedToFree(p, k) else p
  }

  lemma GrowOne(p: Pool, workers: nat)
    requires p.total == |p.connections|
    ensures var q := Grow(p, workers);
      Grow(p, workers + 1).(total := p.total) == q.(
        total := p.total,
        connections := q.connections + [Connection(p.total + workers, 1, -1, 0)],
        free := q.free + [p.total + workers],
        freeCount := q.freeCount + 1)
  {
    assert Fresh(p.total, workers + 1) == Fresh(p.total, workers) + [Connection(p.total + workers, 1, -1, 0)];
    var n := |p.connections|;
    assert seq(workers + 1, i => n + i) == seq(workers, i => n + i) + [n + workers];
  }

  /** The pass after it has looked at the entries `done`. */
  function SweptSoFar(p: Pool, done: seq<nat>, now: int, wait: int): Pool
    requires |done| <= |p.recycle|
  {
    var ripe := Select(p, done, now, wait, true);
    p.(connections := Bumped(p, ripe),
       free := p.free + ripe,
       recycle := Select(p, done, now, wait, false) + p.recycle[|done|..],
       freeCount := p.freeCount + |ripe|)
  }

  // ---- The invariant ----

  ghost predicate Distinct(s: seq<nat>, n: nat) {
    && (forall i :: 0 <= i < |s| ==> s[i] < n)
    && (forall i, j :: 0 <= i < j < |s| ==> s[i] != s[j])
  }

  ghost predicate Disjoint(a: seq<nat>, b: seq<nat>) {
    forall c :: c in a ==> c !in b
  }

  ghost predicate Inv(p: Pool) {
    && (forall i :: 0 <= i < |p.connections| ==> p.connections[i].id == i)
    && Distinct(p.free, |p.connections|)
    && Distinct(p.recycle, |p.connections|)
    && Disjoint(p.free, p.recycle)
    && p.total == |p.connections|
    && p.freeCount == |p.free|
  }

  lemma {:induction false} SelectIs(p: Pool, list: seq<nat>, now: int, wait: int, ripe: bool)
    requires Distinct(list, |p.connections|)
    ensures var s := Select(p, list, now, wait, ripe);
            && Distinct(s, |p.connections|)
            && (forall c :: c in s <==> c in list && Ripe(p, c, now, wait) == ripe)
  {
    if list != [] {
      assert Distinct(list[1..], |p.connections|);
      SelectIs(p, list[1..], now, wait, ripe);
    }
  }

  lemma {:induction false} SelectCounts(p: Pool, list: seq<nat>, now: int, wait: int)
    ensures |Select(p, list, now, wait, true)| + |Select(p, list, now, wait, false)| == |list|
  {
    if list != [] {
      SelectCounts(p, list[1..], now, wait);
    }
  }

  lemma DistinctConcat(a: seq<nat>, b: seq<nat>, n: nat)
    requires Distinct(a, n) && Distinct(b, n) && Disjoint(a, b)
    ensures Distinct(a + b, n)
  {
    var s := a + b;
    forall i, j | 0 <= i < j < |s| ensures s[i] != s[j] {
      if i < |a| <= j {
        assert s[i] in a && s[j] in b;
      }
    }
  }

  lemma GrowKeepsInv(p: Pool, workers: nat)
    requires Inv(p)
    ensures Inv(Grow(p, workers))
  {
    var n := |p.connections|;
    var new_ := seq(workers, i => n + i);
    assert Distinct(p.free, n + workers) && Distinct(new_, n + workers);
    DistinctConcat(p.free, new_, n + workers);
  }

  lemma GetKeepsInv(p: Pool, fd: int, workers: nat)
    requires Inv(p) && workers > 0
    ensures var (q, c) := Get(p, fd, workers);
            && Inv(q)
            && c < |q.connections| && c !in q.free && c !in q.recycle
            && (if p.free == [] then c >= |p.connections| else c == p.free[0])
  {
    GrowKeepsInv(p, workers);
  }

  /** The duplicate check by id finds exactly the connections already waiting. */
  lemma DuplicateCheckIsExact(p: Pool, c: nat, now: int)
    requires Inv(p) && c < |p.connections|
    ensures Retire(p, c, now) == p <==> c in p.recycle
  {
  }

  /** Closing keeps the pool sound exactly when the connection is not free. */
  lemma RetireKeepsInvIff(p: Pool, c: nat, now: int)
    requires Inv(p) && c < |p.connections|
    ensures Inv(Retire(p, c, now)) <==> c !in p.free
  {
    if c !in p.recycle {
      var q := Retire(p, c, now);
      assert q.recycle == p.recycle + [c];
      DistinctConcat(p.recycle, [c], |p.connections|);
      assert c in q.recycle;
    }
  }

  lemma DiscardKeepsInvIff(p: Pool, c: nat)
    requires Inv(p) && c < |p.connections|
    ensures Inv(Discard(p, c)) <==> c !in p.free && c !in p.recycle
  {
    var q := Discard(p, c);
    if c !in p.free {
      DistinctConcat(p.free, [c], |p.connections|);
      assert c in q.free;
    } else {
      var i :| 0 <= i < |p.free| && p.free[i] == c;
      assert q.free[i] == c && q.free[|p.free|] == c;
    }
  }

  lemma SweepKeepsInv(p: Pool, now: int, wait: int)
    requires Inv(p)
    ensures Inv(Sweep(p, now, wait))
  {
    var ripe := Select(p, p.recycle, now, wait, true);
    SelectIs(p, p.recycle, now, wait, true);
    SelectIs(p, p.recycle, now, wait, false);
    DistinctConcat(p.free, ripe, |p.connections|);
  }

  /** The list without its entry at `k`. */
  lemma OneOut(s: seq<nat>, n: nat, k: nat)
    requires Distinct(s, n) && k < |s|
    ensures var t := s[..k] + s[k + 1..]; Distinct(t, n) && forall c :: c in t <==> c in s && c != s[k]
  {
    var t := s[..k] + s[k + 1..];
    forall c ensures c in t <==> c in s && c != s[k] {
      if c in s && c != s[k] {
        var i :| 0 <= i < |s| && s[i] == c;
        assert t[if i < k then i else i - 1] == c;
      }
    }
  }

  lemma SweepOneKeepsInv(p: Pool, k: nat, now: int, wait: int)
    requires Inv(p)
    ensures Inv(SweepOne(p, k, now, wait))
  {
    if k < |p.recycle| {
      OneOut(p.recycle, |p.connections|, k);
      DistinctConcat(p.free, [p.recycle[k]], |p.connections|);
    }
  }

  // ---- The recycler's pass, one entry at a time ----

  lemma {:induction false} SelectAppend(p: Pool, list: seq<nat>, c: nat, now: int, wait: int, ripe: bool)
    ensures Select(p, list + [c], now, wait, ripe)
         == Select(p, list, now, wait, ripe) + (if Ripe(p, c, now, wait) == ripe then [c] else [])
  {
    if list == [] {
      assert [] + [c] == [c];
    } else {
      SelectAppend(p, list[1..], c, now, wait, ripe);
      assert (list + [c])[1..] == list[1..] + [c];
    }
  }

  /** The pass over `p` has come to `q`: it has looked at `done` and kept `k` of them. */
  ghost predicate Sweeping(p: Pool, q: Pool, done: seq<nat>, k: nat, now: int, wait: int) {
    && |done| <= |p.recycle| && done == p.recycle[..|done|]
    && q == SweptSoFar(p, done, now, wait)
    && k == |Select(p, done, now, wait, false)|
  }

  lemma SweepStarts(p: Pool, now: int, wait: int)
    ensures Sweeping(p, p, [], 0, now, wait)
  {
  }

  function Sweeps(q: Pool, ks: seq<nat>, now: int, wait: int): Pool
    decreases |ks|
  {
    if ks == [] then q else Sweeps(SweepOne(q, ks[0], now, wait), ks[1..], now, wait)
  }

  lemma {:induction false} PassIsSteps(p: Pool, q: Pool, done: seq<nat>, k: nat, now: int, wait: int) returns (ks: seq<nat>)
    requires Distinct(p.recycle, |p.connections|) && Sweeping(p, q, done, k, now, wait)
    ensures Sweeps(q, ks, now, wait) == Sweep(p, now, wait)
    decreases |p.recycle| - |done|
  {
    if k >= |q.recycle| {
      SweepEnds(p, q, done, k, now, wait);
      ks := [];
    } else {
      NextSwept(p, q, done, k, now, wait);
      var c := p.recycle[|done|];
      if Ripe(p, c, now, wait) {
        MoveSwept(p, q, done, k, now, wait);
        var rest := PassIsSteps(p, MovedToFree(q, k), done + [c], k, now, wait);
        ks := [k] + rest;
        assert ks[1..] == rest;
      } else {
        KeepSwept(p, q, done, k, now, wait);
        ks := PassIsSteps(p, q, done + [c], k + 1, now, wait);
      }
    }
  }

  /** A pass that nobody interrupts is made of such steps. */
  lemma SweepIsSteps(p: Pool, now: int, wait: int) returns (ks: seq<nat>)
    requires Distinct(p.recycle, |p.connections|)
    ensures Sweeps(p, ks, now, wait) == Sweep(p, now, wait)
  {
    SweepStarts(p, now, wait);
    ks := PassIsSteps(p, p, [], 0, now, wait);
  }

  lemma SweepEnds(p: Pool, q: Pool, done: seq<nat>, k: nat, now: int, wait: int)
    requires Sweeping(p, q, done, k, now, wait) && k >= |q.recycle|
    ensures q == Sweep(p, now, wait)
  {
    assert done == p.recycle;
    var young := Select(p, p.recycle, now, wait, false);
    assert young + [] == young;
  }

  lemma NextSwept(p: Pool, q: Pool, done: seq<nat>, k: nat, now: int, wait: int)
    requires Distinct(p.recycle, |p.connections|)
    requires Sweeping(p, q, done, k, now, wait) && k < |q.recycle|
    ensures |done| < |p.recycle| && q.recycle[k] == p.recycle[|done|]
    ensures |q.connections| == |p.connections| && q.recycle[k] < |q.connections|
    ensures q.connections[q.recycle[k]] == p.connections[q.recycle[k]]
  {
    assert Distinct(done, |p.connections|);
    SelectIs(p, done, now, wait, true);
    assert p.recycle[|done|] !in done;
  }

  lemma KeepSwept(p: Pool, q: Pool, done: seq<nat>, k: nat, now: int, wait: int)
    requires Sweeping(p, q, done, k, now, wait) && |done| < |p.recycle|
    requires !Ripe(p, p.recycle[|done|], now, wait)
    ensures Sweeping(p, q, done + [p.recycle[|done|]], k + 1, now, wait)
  {
    var c := p.recycle[|done|];
    var kept := Select(p, done, now, wait, false);
    SelectAppend(p, done, c, now, wait, true);
    SelectAppend(p, done, c, now, wait, false);
    var ripe := Select(p, done, now, wait, true);
    assert ripe + [] == ripe;
    assert kept + p.recycle[|done|..] == (kept + [c]) + p.recycle[|done| + 1..];
  }

  lemma BumpOneMore(p: Pool, ripe: seq<nat>, c: nat)
    requires c < |p.connections| && c !in ripe
    ensures var was := Bumped(p, ripe);
            was[c := was[c].(gen := was[c].gen + 1)] == Bumped(p, ripe + [c])
  {
  }

  lemma MoveSwept(p: Pool, q: Pool, done: seq<nat>, k: nat, now: int, wait: int)
    requires Distinct(p.recycle, |p.connections|)
    requires Sweeping(p, q, done, k, now, wait) && k < |q.recycle| && |done| < |p.recycle|
    requires q.recycle[k] == p.recycle[|done|] && q.recycle[k] < |q.connections|
    requires Ripe(p, p.recycle[|done|], now, wait)
    ensures Sweeping(p, MovedToFree(q, k), done + [p.recycle[|done|]], k, now, wait)
  {
    var c := p.recycle[|done|];
    var kept := Select(p, done, now, wait, false);
    var ripe := Select(p, done, now, wait, true);
    SelectAppend(p, done, c, now, wait, true);
    SelectAppend(p, done, c, now, wait, false);
    assert kept + [] == kept;
    assert c !in ripe by {
      assert Distinct(done, |p.connections|);
      SelectIs(p, done, now, wait, true);
    }
    assert q.recycle[..k] == kept && q.recycle[k + 1..] == p.recycle[|done| + 1..];
    assert (p.free + ripe) + [c] == p.free + (ripe + [c]);
    BumpOneMore(p, ripe, c);
  }
}
