/** The timer multimap that kicks idle connections (my_socket_time.cpp). */
module TimerQueue {
  import opened Common

  /** A multimap node: the expiry time, the connection and its stamp. */
  datatype Entry = Entry(key: int, conn: nat, stamp: nat)

  /** `m_timeQueuemap` in iteration order, `m_cur_size_`, `m_timer_value_`. */
  datatype Timers = Timers(entries: seq<Entry>, size: int, head: int)

  ghost predicate Sorted(s: seq<Entry>) {
    forall i, j :: 0 <= i < j < |s| ==> s[i].key <= s[j].key
  }

  ghost predicate Consistent(t: Timers) {
    && Sorted(t.entries)
    && t.size == |t.entries|
    && (t.entries != [] ==> t.head == t.entries[0].key)
  }

  function Earliest(s: seq<Entry>): int {
    if s == [] then 0 else s[0].key
  }

  /** How many entries at the front are due at `now`: the upper bound of `now`. */
  function Due(s: seq<Entry>, now: int): (n: nat)
    ensures n <= |s|
  {
    if s == [] || s[0].key > now then 0 else 1 + Due(s[1..], now)
  }

  /** `emplace` puts a node behind every node whose key is not larger. */
  function Insert(s: seq<Entry>, e: Entry): seq<Entry> {
    s[..Due(s, e.key)] + [e] + s[Due(s, e.key)..]
  }

  function Without(s: seq<Entry>, conn: nat): seq<Entry> {
    if s == [] then []
    else (if s[0].conn == conn then [] else [s[0]]) + Without(s[1..], conn)
  }

  function Add(t: Timers, e: Entry): Timers {
    var s := Insert(t.entries, e);
    Timers(s, t.size + 1, Earliest(s))
  }

  function Delete(t: Timers, conn: nat): Timers {
    var s := Without(t.entries, conn);
    Timers(s, t.size - (|t.entries| - |s|), Earliest(s))
  }

  /** One expired entry, put back `wait` seconds after `now` unless users are kicked. */
  function TakeExpired(t: Timers, now: int, wait: int, kick: bool): (Option<Entry>, Timers) {
    if t.entries == [] || Earliest(t.entries) > now then (None, t)
    else
      var e := t.entries[0];
      var s := if kick then t.entries[1..] else Insert(t.entries[1..], e.(key := now + wait));
      (Some(e), Timers(s, if kick then t.size - 1 else t.size, Earliest(s)))
  }

  lemma InsertAdds(s: seq<Entry>, e: Entry)
    ensures multiset(Insert(s, e)) == multiset(s) + multiset{e}
  {
    assert s == s[..Due(s, e.key)] + s[Due(s, e.key)..];
  }

  /** One expiry without kicking, as a change of the bag of entries: the first is taken when its key is not later than now,
      and put back to run out `wait` from now. */
  lemma ExpiryPostpones(t: Timers, now: int, wait: int)
    ensures var next := TakeExpired(t, now, wait, false).1;
      if t.entries == [] || t.entries[0].key > now then next == t
      else multiset(next.entries) == multiset(t.entries) - multiset{t.entries[0]} + multiset{t.entries[0].(key := now + wait)}
  {
    if t.entries != [] {
      var e, rest := t.entries[0], t.entries[1..];
      assert t.entries == [e] + rest;
      InsertAdds(rest, e.(key := now + wait));
    }
  }

  lemma {:induction false} DueSplits(s: seq<Entry>, now: int)
    requires Sorted(s)
    ensures forall i :: 0 <= i < Due(s, now) ==> s[i].key <= now
    ensures forall i :: Due(s, now) <= i < |s| ==> now < s[i].key
  {
    if s != [] && s[0].key <= now {
      DueSplits(s[1..], now);
      forall i | 0 < i < |s|
        ensures i < Due(s, now) ==> s[i].key <= now
        ensures Due(s, now) <= i ==> now < s[i].key
      {
        assert s[i] == s[1..][i - 1];
      }
    }
  }

  lemma {:induction false} DueIs(s: seq<Entry>, now: int, n: nat)
    requires n <= |s|
    requires forall i :: 0 <= i < n ==> s[i].key <= now
    requires n < |s| ==> now < s[n].key
    ensures Due(s, now) == n
  {
    if n > 0 {
      DueIs(s[1..], now, n - 1);
    }
  }

  lemma InsertKeeps(s: seq<Entry>, e: Entry)
    requires Sorted(s)
    ensures Sorted(Insert(s, e))
  {
    DueSplits(s, e.key);
  }

  ghost predicate AtLeast(s: seq<Entry>, key: int) {
    forall i :: 0 <= i < |s| ==> key <= s[i].key
  }

  lemma {:induction false} WithoutAtLeast(s: seq<Entry>, conn: nat, key: int)
    requires AtLeast(s, key)
    ensures AtLeast(Without(s, conn), key)
  {
    if s != [] {
      WithoutAtLeast(s[1..], conn, key);
    }
  }

  lemma {:induction false} WithoutSorted(s: seq<Entry>, conn: nat)
    requires Sorted(s)
    ensures Sorted(Without(s, conn)) && |Without(s, conn)| <= |s|
  {
    if s != [] {
      WithoutSorted(s[1..], conn);
      WithoutAtLeast(s[1..], conn, s[0].key);
    }
  }

  /** Every change leaves the map sorted, its size counted and its earliest key cached. */
  lemma ChangesStayConsistent(t: Timers, e: Entry, conn: nat, now: int, wait: int, kick: bool)
    requires Consistent(t)
    ensures Consistent(Add(t, e))
    ensures Consistent(Delete(t, conn))
    ensures Consistent(TakeExpired(t, now, wait, kick).1)
  {
    InsertKeeps(t.entries, e);
    WithoutSorted(t.entries, conn);
    if t.entries != [] {
      InsertKeeps(t.entries[1..], t.entries[0].(key := now + wait));
    }
  }

  function Rekey(s: seq<Entry>, key: int): seq<Entry> {
    seq(|s|, i requires 0 <= i < |s| => s[i].(key := key))
  }

  lemma TakingLeavesFewerDue(t: Timers, now: int, wait: int, kick: bool)
    requires Consistent(t) && wait > 0
    requires t.entries != [] && t.entries[0].key <= now
    ensures Due(TakeExpired(t, now, wait, kick).1.entries, now) == Due(t.entries, now) - 1
  {
    var rest := t.entries[1..];
    var n := Due(rest, now);
    DueSplits(rest, now);
    if !kick {
      var e := t.entries[0].(key := now + wait);
      DueSplits(rest, now + wait);
      DueIs(Insert(rest, e), now, n);
    }
  }

  /** The monitor's inner loop: take expired entries until there is none. */
  function Drain(t: Timers, now: int, wait: int, kick: bool): (seq<Entry>, Timers)
    requires Consistent(t) && wait > 0
    decreases Due(t.entries, now)
  {
    ChangesStayConsistent(t, Entry(0, 0, 0), 0, now, wait, kick);
    var (taken, next) := TakeExpired(t, now, wait, kick);
    if taken.None? then ([], t)
    else
      TakingLeavesFewerDue(t, now, wait, kick);
      var (more, last) := Drain(next, now, wait, kick);
      ([taken.value] + more, last)
  }

  /** The entries left by a drain: the ones not due, with the due ones behind
      every key up to `now + wait` when users are not kicked. */
  function Drained(s: seq<Entry>, now: int, wait: int, kick: bool): seq<Entry> {
    var rest := s[Due(s, now)..];
    var d := Due(rest, now + wait);
    if kick then rest else rest[..d] + Rekey(s[..Due(s, now)], now + wait) + rest[d..]
  }

  ghost predicate Between(s: seq<Entry>, low: int, high: int) {
    forall e :: e in s ==> low < e.key <= high
  }

  ghost predicate Above(s: seq<Entry>, low: int) {
    forall e :: e in s ==> low < e.key
  }

  ghost predicate UpTo(s: seq<Entry>, high: int) {
    forall e :: e in s ==> e.key <= high
  }

  lemma SplitAt(s: seq<Entry>, now: int) returns (a: seq<Entry>, r: seq<Entry>)
    requires Sorted(s)
    ensures s == a + r && |a| == Due(s, now) && UpTo(a, now) && Above(r, now)
    ensures Sorted(a) && Sorted(r) && a == s[..|a|] && r == s[|a|..]
  {
    DueSplits(s, now);
    a, r := s[..Due(s, now)], s[Due(s, now)..];
  }

  lemma SplitTwice(s: seq<Entry>, now: int, wait: int) returns (a: seq<Entry>, p: seq<Entry>, q: seq<Entry>)
    requires Sorted(s) && wait > 0
    ensures s == a + (p + q)
    ensures UpTo(a, now) && Between(p, now, now + wait) && Above(q, now + wait) && Above(p + q, now)
  {
    var r: seq<Entry>;
    a, r := SplitAt(s, now);
    p, q := SplitAt(r, now + wait);
    assert forall e :: e in p ==> e in r;
  }

  lemma DueOfParts(a: seq<Entry>, r: seq<Entry>, now: int)
    requires UpTo(a, now) && Above(r, now)
    ensures Due(a + r, now) == |a| && (a + r)[..|a|] == a && (a + r)[|a|..] == r
  {
    var s := a + r;
    assert forall i :: 0 <= i < |a| ==> s[i] == a[i];
    assert r != [] ==> s[|a|] == r[0];
    DueIs(s, now, |a|);
  }

  /** `a` due, `p` not due but before the new key, `q` behind it. */
  lemma DrainedParts(a: seq<Entry>, p: seq<Entry>, q: seq<Entry>, now: int, wait: int)
    requires UpTo(a, now) && Between(p, now, now + wait) && Above(q, now + wait) && wait > 0
    ensures Drained(a + (p + q), now, wait, false) == p + Rekey(a, now + wait) + q
  {
    DueOfParts(a, p + q, now);
    DueOfParts(p, q, now + wait);
  }

  lemma Regroup(x: Entry, a: seq<Entry>, p: seq<Entry>, q: seq<Entry>)
    ensures [x] + (a + (p + q)) == ([x] + a) + (p + q)
    ensures a + (p + q) == (a + p) + q
    ensures (a + p) + [x] + q == a + ((p + [x]) + q)
    ensures (p + [x]) + a + q == p + ([x] + a) + q
  {
  }

  lemma RekeyFirst(x: Entry, a: seq<Entry>, key: int)
    ensures Rekey([x] + a, key) == [x.(key := key)] + Rekey(a, key)
  {
  }

  /** Where the first entry of a drained map goes. */
  lemma FirstInserted(e: Entry, a: seq<Entry>, p: seq<Entry>, q: seq<Entry>)
    requires UpTo(a, e.key) && UpTo(p, e.key) && Above(q, e.key)
    ensures Insert(a + (p + q), e) == a + ((p + [e]) + q)
  {
    Regroup(e, a, p, q);
    DueOfParts(a + p, q, e.key);
  }

  /** The rest of the drain ends in the same map. */
  lemma FirstDrained(x: Entry, a: seq<Entry>, p: seq<Entry>, q: seq<Entry>, now: int, wait: int)
    requires x.key <= now && UpTo(a, now) && Between(p, now, now + wait) && Above(q, now + wait) && wait > 0
    ensures Drained(a + ((p + [x.(key := now + wait)]) + q), now, wait, false)
         == Drained([x] + (a + (p + q)), now, wait, false)
  {
    var e := x.(key := now + wait);
    Regroup(x, a, p, q);
    DrainedParts(a, p + [e], q, now, wait);
    DrainedParts([x] + a, p, q, now, wait);
    RekeyFirst(x, a, now + wait);
    Regroup(e, Rekey(a, now + wait), p, q);
  }

  lemma FirstTaken(x: Entry, a: seq<Entry>, r: seq<Entry>, next: seq<Entry>, now: int)
    requires x.key <= now && UpTo(a, now) && Above(r, now) && Above(next, now)
    ensures ([x] + (a + r))[..Due([x] + (a + r), now)] == [x] + (a + next)[..Due(a + next, now)]
  {
    DueOfParts(a, next, now);
    DueOfParts([x] + a, r, now);
    assert [x] + (a + r) == ([x] + a) + r;
  }

  lemma InsertedThenDrained(x: Entry, rest: seq<Entry>, now: int, wait: int)
    requires Sorted(rest) && wait > 0 && x.key <= now
    ensures var next := Insert(rest, x.(key := now + wait));
            && Drained(next, now, wait, false) == Drained([x] + rest, now, wait, false)
            && ([x] + rest)[..Due([x] + rest, now)] == [x] + next[..Due(next, now)]
  {
    var a, p, q := SplitTwice(rest, now, wait);
    FirstInserted(x.(key := now + wait), a, p, q);
    FirstDrained(x, a, p, q, now, wait);
    FirstTaken(x, a, p + q, (p + [x.(key := now + wait)]) + q, now);
  }

  lemma NothingDue(s: seq<Entry>, now: int, wait: int, kick: bool)
    requires Due(s, now) == 0
    ensures Drained(s, now, wait, kick) == s
  {
    var d := Due(s, now + wait);
    assert s[0..] == s;
    assert Rekey(s[..0], now + wait) == [];
    assert s[..d] + s[d..] == s;
  }

  lemma KickedDrain(s: seq<Entry>, now: int, wait: int)
    requires Due(s, now) > 0
    ensures Drained(s, now, wait, true) == Drained(s[1..], now, wait, true)
    ensures s[..Due(s, now)] == [s[0]] + s[1..][..Due(s[1..], now)]
  {
  }

  lemma DrainStep(t: Timers, now: int, wait: int, kick: bool)
    requires Consistent(t) && wait > 0
    ensures var (taken, next) := TakeExpired(t, now, wait, kick);
            && Consistent(next)
            && (taken.None? <==> Due(t.entries, now) == 0)
            && (taken.None? ==> Drain(t, now, wait, kick) == ([], t))
            && (taken.Some? ==>
                  && Due(next.entries, now) == Due(t.entries, now) - 1
                  && Drain(t, now, wait, kick) ==
                     ([taken.value] + Drain(next, now, wait, kick).0, Drain(next, now, wait, kick).1))
  {
    ChangesStayConsistent(t, Entry(0, 0, 0), 0, now, wait, kick);
    if Due(t.entries, now) > 0 {
      TakingLeavesFewerDue(t, now, wait, kick);
    }
  }

  lemma {:induction false} DrainIs(t: Timers, now: int, wait: int, kick: bool)
    requires Consistent(t) && wait > 0
    ensures Drain(t, now, wait, kick).0 == t.entries[..Due(t.entries, now)]
    ensures Drain(t, now, wait, kick).1.entries == Drained(t.entries, now, wait, kick)
    ensures Consistent(Drain(t, now, wait, kick).1)
    decreases Due(t.entries, now)
  {
    DrainStep(t, now, wait, kick);
    if Due(t.entries, now) == 0 {
      NothingDue(t.entries, now, wait, kick);
    } else {
      DrainIs(TakeExpired(t, now, wait, kick).1, now, wait, kick);
      if kick {
        KickedDrain(t.entries, now, wait);
      } else {
        assert [t.entries[0]] + t.entries[1..] == t.entries;
        InsertedThenDrained(t.entries[0], t.entries[1..], now, wait);
      }
    }
  }

  function Conns(s: seq<Entry>): seq<(nat, nat)> {
    seq(|s|, i requires 0 <= i < |s| => (s[i].conn, s[i].stamp))
  }

  /** Which connection, in which tenancy, each entry watches. */
  function Watched(s: seq<Entry>): multiset<(nat, nat)> {
    multiset(Conns(s))
  }

  lemma WatchedConcat(a: seq<Entry>, b: seq<Entry>)
    ensures Watched(a + b) == Watched(a) + Watched(b)
  {
    assert Conns(a + b) == Conns(a) + Conns(b);
  }

  lemma WatchedInsert(s: seq<Entry>, e: Entry)
    ensures Watched(Insert(s, e)) == Watched(s) + multiset{(e.conn, e.stamp)}
  {
    var a, b := s[..Due(s, e.key)], s[Due(s, e.key)..];
    assert s == a + b;
    assert Conns([e]) == [(e.conn, e.stamp)];
    WatchedConcat(a, b);
    WatchedConcat(a + [e], b);
    WatchedConcat(a, [e]);
  }

  lemma WatchedFirst(e: Entry, s: seq<Entry>)
    ensures Watched([e] + s) == multiset{(e.conn, e.stamp)} + Watched(s)
  {
    WatchedConcat([e], s);
    assert Conns([e]) == [(e.conn, e.stamp)];
  }

  lemma {:induction false} WatchedWithout(s: seq<Entry>, conn: nat, w: (nat, nat))
    ensures Watched(Without(s, conn))[w] == if w.0 == conn then 0 else Watched(s)[w]
  {
    if s != [] {
      WatchedWithout(s[1..], conn, w);
      WatchedFirst(s[0], s[1..]);
      WatchedFirst(s[0], Without(s[1..], conn));
      assert s == [s[0]] + s[1..];
      assert s[0].conn == conn ==> Without(s, conn) == Without(s[1..], conn);
    }
  }

  lemma WatchedParts(a: seq<Entry>, p: seq<Entry>, q: seq<Entry>, key: int)
    ensures Watched(p + Rekey(a, key) + q) == Watched(a + (p + q))
  {
    var b := Rekey(a, key);
    assert Conns(b) == Conns(a);
    WatchedConcat(p + b, q);
    WatchedConcat(p, b);
    WatchedConcat(a, p + q);
    WatchedConcat(p, q);
  }

  lemma WatchedDrained(s: seq<Entry>, now: int, wait: int)
    requires Sorted(s) && wait > 0
    ensures Watched(Drained(s, now, wait, false)) == Watched(s)
  {
    var a, p, q := SplitTwice(s, now, wait);
    DrainedParts(a, p, q, now, wait);
    WatchedParts(a, p, q, now + wait);
  }

  lemma DrainedAreLater(s: seq<Entry>, now: int, wait: int, kick: bool)
    requires Sorted(s) && wait > 0
    ensures Above(Drained(s, now, wait, kick), now)
  {
    DueSplits(s, now);
  }

  /** A drain returns each due entry once, in key order, and leaves none that
      is due; with kicking off every connection keeps the entries it had. */
  lemma DrainTakesExactlyTheDue(t: Timers, now: int, wait: int, kick: bool)
    requires Consistent(t) && wait > 0
    ensures var (taken, left) := Drain(t, now, wait, kick);
            && taken <= t.entries && Sorted(taken)
            && UpTo(taken, now) && Above(t.entries[|taken|..], now)
            && Above(left.entries, now)
            && (kick ==> left.entries == t.entries[|taken|..])
            && (!kick ==> Watched(left.entries) == Watched(t.entries))
  {
    DrainIs(t, now, wait, kick);
    DueSplits(t.entries, now);
    DrainedAreLater(t.entries, now, wait, kick);
    WatchedDrained(t.entries, now, wait);
  }

  lemma {:induction false} WithoutConcat(a: seq<Entry>, b: seq<Entry>, conn: nat)
    ensures Without(a + b, conn) == Without(a, conn) + Without(b, conn)
  {
    if a == [] {
      assert a + b == b;
    } else {
      WithoutConcat(a[1..], b, conn);
      WithoutFirst([], a[0], a[1..] + b, conn);
      assert a + b == [a[0]] + (a[1..] + b);
      Assoc(if a[0].conn == conn then [] else [a[0]], Without(a[1..], conn), Without(b, conn));
    }
  }

  ghost predicate Absent(s: seq<Entry>, conn: nat) {
    forall e :: e in s ==> e.conn != conn
  }

  lemma {:induction false} WithoutAbsent(s: seq<Entry>, conn: nat)
    ensures Absent(Without(s, conn), conn)
    ensures Absent(s, conn) ==> Without(s, conn) == s
  {
    if s != [] {
      WithoutAbsent(s[1..], conn);
      assert s[0] in s && forall e :: e in s[1..] ==> e in s;
    }
  }

  lemma OnlyOne(a: seq<Entry>, e: Entry, b: seq<Entry>)
    requires Absent(a, e.conn) && Absent(b, e.conn)
    ensures Without((a + [e]) + b, e.conn) == a + b
  {
    WithoutConcat(a + [e], b, e.conn);
    WithoutConcat(a, [e], e.conn);
    WithoutAbsent(a, e.conn);
    WithoutAbsent(b, e.conn);
    assert [e][1..] == [] && Without([e], e.conn) == [];
    assert a + [] == a;
  }

  /** Deleting a connection takes back the entry just added for it. */
  lemma AddedThenDeleted(t: Timers, e: Entry)
    requires Absent(t.entries, e.conn)
    ensures Delete(Add(t, e), e.conn).entries == t.entries && Delete(Add(t, e), e.conn).size == t.size
    ensures e in Add(t, e).entries
  {
    var s := t.entries;
    var a, b := s[..Due(s, e.key)], s[Due(s, e.key)..];
    assert a + b == s;
    assert Insert(s, e) == (a + [e]) + b;
    OnlyOne(a, e, b);
    assert Insert(s, e)[|a|] == e;
  }

  /** A drain with the outcome `whole` has returned `taken` and goes on from `t`. */
  ghost predicate StillToDrain(whole: (seq<Entry>, Timers), taken: seq<Entry>, t: Timers, now: int, wait: int, kick: bool)
    requires Consistent(t) && wait > 0
  {
    whole == (taken + Drain(t, now, wait, kick).0, Drain(t, now, wait, kick).1)
  }

  lemma WithoutFirst(kept: seq<Entry>, e: Entry, rest: seq<Entry>, conn: nat)
    ensures kept + Without([e] + rest, conn)
         == (if e.conn == conn then kept else kept + [e]) + Without(rest, conn)
  {
    assert ([e] + rest)[1..] == rest;
    if e.conn == conn {
      assert [] + Without(rest, conn) == Without(rest, conn);
    }
  }

  lemma DrainStarts(t: Timers, now: int, wait: int, kick: bool)
    requires Consistent(t) && wait > 0
    ensures StillToDrain(Drain(t, now, wait, kick), [], t, now, wait, kick)
  {
    assert [] + Drain(t, now, wait, kick).0 == Drain(t, now, wait, kick).0;
  }

  lemma DrainGoesOn(whole: (seq<Entry>, Timers), taken: seq<Entry>, t: Timers, now: int, wait: int, kick: bool)
    requires Consistent(t) && wait > 0
    requires StillToDrain(whole, taken, t, now, wait, kick)
    ensures var (one, next) := TakeExpired(t, now, wait, kick);
            && Consistent(next)
            && (one.None? ==> whole == (taken, next))
            && (one.Some? ==> Due(next.entries, now) < Due(t.entries, now)
                              && StillToDrain(whole, taken + [one.value], next, now, wait, kick))
  {
    DrainStep(t, now, wait, kick);
    var (one, next) := TakeExpired(t, now, wait, kick);
    if one.None? {
      assert taken + [] == taken;
    } else {
      assert taken + ([one.value] + Drain(next, now, wait, kick).0) == taken + [one.value] + Drain(next, now, wait,
         kick).0;
    }
  }

  class Queue {
    var timers: seq<Entry>
    var size: int
    var head: int
    const wait: int
    const kick: bool

    ghost function Value(): Timers
      reads this
    {
      Timers(timers, size, head)
    }

    /** `ReadConf` raises a waiting time below five seconds to five. */
    constructor (configuredWait: int, kick: bool)
      ensures Value() == Timers([], 0, 0) && this.kick == kick
      ensures wait == if configuredWait > 5 then configuredWait else 5
    {
      timers, size, head := [], 0, 0;
      wait := if configuredWait > 5 then configuredWait else 5;
      this.kick := kick;
    }

    method AddToTimerQueue(conn: nat, stamp: nat, now: int)
      modifies this
      ensures Value() == Add(old(Value()), Entry(now + wait, conn, stamp))
    {
      timers := Insert(timers, Entry(now + wait, conn, stamp));
      size := size + 1;
      head := Earliest(timers);
    }

    method RemoveFirstTimer() returns (first: Option<Entry>)
      requires Consistent(Value())
      modifies this
      ensures old(timers) == [] ==> first == None && Value() == old(Value())
      ensures old(timers) != [] ==> first == Some(old(timers[0]))
      ensures old(timers) != [] ==> Value() == Timers(old(timers[1..]), old(size) - 1, old(head))
    {
      if size <= 0 {
        return None;
      }
      first := Some(timers[0]);
      timers := timers[1..];
      size := size - 1;
    }

    method GetOverTimeTimer(now: int) returns (expired: Option<Entry>)
      requires Consistent(Value())
      modifies this
      ensures (expired, Value()) == TakeExpired(old(Value()), now, wait, kick)
      ensures Consistent(Value())
    {
      ChangesStayConsistent(Value(), Entry(0, 0, 0), 0, now, wait, kick);
      if timers == [] || Earliest(timers) > now {
        return None;
      }
      expired := RemoveFirstTimer();
      if !kick {
        timers := Insert(timers, expired.value.(key := now + wait));
        size := size + 1;
      }
      head := if timers == [] then 0 else Earliest(timers);
    }

    method DeleteFromTimerQueue(conn: nat)
      modifies this
      ensures Value() == Delete(old(Value()), conn)
    {
      ghost var was := timers;
      var i := 0;
      while i < |timers|
        invariant 0 <= i <= |timers| <= |was|
        invariant timers[..i] + Without(timers[i..], conn) == Without(was, conn)
        invariant size - |timers| == old(size) - |was|
        decreases |timers| - i
      {
        WithoutFirst(timers[..i], timers[i], timers[i + 1..], conn);
        assert timers[i..] == [timers[i]] + timers[i + 1..];
        if timers[i].conn == conn {
          ghost var kept, rest := timers[..i], timers[i + 1..];
          timers := timers[..i] + timers[i + 1..];
          assert timers[..i] == kept && timers[i..] == rest;
          size := size - 1;
        } else {
          assert timers[..i + 1] == timers[..i] + [timers[i]];
          i := i + 1;
        }
      }
      assert timers[..i] == timers;
      head := Earliest(timers);
    }

    /** Leaves the cached earliest time as it was. */
    method ClearAll()
      modifies this
      ensures Value() == Timers([], 0, old(head))
    {
      timers, size := [], 0;
    }

    /** The monitor thread's inner loop, with no other thread at the queue. */
    method DrainExpired(now: int) returns (expired: seq<Entry>)
      requires Consistent(Value()) && wait > 0
      modifies this
      ensures (expired, Value()) == Drain(old(Value()), now, wait, kick)
    {
      expired := [];
      ghost var whole := Drain(Value(), now, wait, kick);
      DrainStarts(Value(), now, wait, kick);
      DrainGoesOn(whole, [], Value(), now, wait, kick);
      var one := GetOverTimeTimer(now);
      while one.Some?
        invariant Consistent(Value())
        invariant one.Some? ==> StillToDrain(whole, expired + [one.value], Value(), now, wait, kick)
        invariant one.None? ==> whole == (expired, Value())
        decreases one.Some?, Due(timers, now)
      {
        expired := expired + [one.value];
        DrainGoesOn(whole, expired, Value(), now, wait, kick);
        one := GetOverTimeTimer(now);
      }
    }
  }
}
