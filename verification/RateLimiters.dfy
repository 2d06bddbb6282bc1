/** The two rate limiters over exact reals (TokenBucket.cpp, LeakyBucketLimiter.h).
    The clock is a parameter and never goes back. The proofs are for any flow that does
    not fall; the limiters use a constant rate. */
module RateLimiters {

  datatype Call = Call(at: real, amount: nat)

  /** How much has flowed by a time. */
  type Flow = real -> real

  function AtRate(rate: real): Flow {
    t => t * rate
  }

  ghost predicate Rising(flow: Flow) {
    forall s, t {:trigger flow(s), flow(t)} :: s <= t ==> flow(s) <= flow(t)
  }

  /** The calls come at `from` or later, in order of time. */
  ghost predicate InOrder(from: real, calls: seq<Call>)
    decreases |calls|
  {
    calls != [] ==> from <= calls[0].at && InOrder(calls[0].at, calls[1..])
  }

  function LastTime(from: real, calls: seq<Call>): real
    decreases |calls|
  {
    if calls == [] then from else LastTime(calls[0].at, calls[1..])
  }

  /** The time from the first call of a window to its last. */
  function Span(window: seq<Call>): real
    requires window != []
  {
    LastTime(window[0].at, window[1..]) - window[0].at
  }

  lemma RateRises(rate: real)
    requires rate >= 0.0
    ensures Rising(AtRate(rate))
  {
    forall s, t | s <= t ensures AtRate(rate)(s) <= AtRate(rate)(t) {
      RateOf(rate, s, t);
      NotNegative(t - s, rate);
    }
  }

  lemma NotNegative(a: real, b: real)
    requires a >= 0.0 && b >= 0.0
    ensures a * b >= 0.0
  {
  }

  lemma SpanFlow(window: seq<Call>, rate: real)
    requires window != []
    ensures AtRate(rate)(LastTime(window[0].at, window[1..])) - AtRate(rate)(window[0].at) == rate * Span(window)
  {
    RateOf(rate, window[0].at, LastTime(window[0].at, window[1..]));
  }

  lemma OneCall(from: real, c: Call)
    requires from <= c.at
    ensures InOrder(from, [c]) && LastTime(from, [c]) == c.at && Span([c]) == 0.0
  {
    assert [c][1..] == [];
  }

  lemma TwoCalls(from: real, first: Call, second: Call)
    requires from <= first.at <= second.at
    ensures InOrder(from, [first, second]) && Span([first, second]) == second.at - first.at
  {
    assert [first, second][1..] == [second];
    OneCall(first.at, second);
  }

  lemma RateOf(rate: real, s: real, t: real)
    ensures AtRate(rate)(t) - AtRate(rate)(s) == (t - s) * rate == rate * (t - s)
  {
  }

  function Min(a: real, b: real): real {
    if a < b then a else b
  }

  // ---- The token bucket ----

  datatype Bucket = Bucket(tokens: real, last: real)

  function Refilled(b: Bucket, now: real, capacity: nat, flow: Flow): Bucket {
    Bucket(Min(capacity as real, b.tokens + (flow(now) - flow(b.last))), now)
  }

  predicate Grants(b: Bucket, c: Call, capacity: nat, flow: Flow) {
    Refilled(b, c.at, capacity, flow).tokens >= c.amount as real
  }

  function Consumed(b: Bucket, c: Call, capacity: nat, flow: Flow): Bucket {
    var r := Refilled(b, c.at, capacity, flow);
    if r.tokens >= c.amount as real then r.(tokens := r.tokens - c.amount as real) else r
  }

  function After(b: Bucket, calls: seq<Call>, capacity: nat, flow: Flow): Bucket
    decreases |calls|
  {
    if calls == [] then b else After(Consumed(b, calls[0], capacity, flow), calls[1..], capacity, flow)
  }

  /** The tokens handed out by the calls. */
  function Granted(b: Bucket, calls: seq<Call>, capacity: nat, flow: Flow): nat
    decreases |calls|
  {
    if calls == [] then 0
    else
      (if Grants(b, calls[0], capacity, flow) then calls[0].amount else 0)
      + Granted(Consumed(b, calls[0], capacity, flow), calls[1..], capacity, flow)
  }

  predicate Filled(b: Bucket, capacity: nat) {
    0.0 <= b.tokens <= capacity as real
  }

  lemma ConsumedStaysFilled(b: Bucket, c: Call, capacity: nat, flow: Flow)
    requires Filled(b, capacity) && Rising(flow) && b.last <= c.at
    ensures Filled(Refilled(b, c.at, capacity, flow), capacity) && Filled(Consumed(b, c, capacity, flow), capacity)
  {
    assert flow(b.last) <= flow(c.at);
  }

  lemma {:induction false} AfterStaysFilled(b: Bucket, calls: seq<Call>, capacity: nat, flow: Flow)
    requires Filled(b, capacity) && Rising(flow) && InOrder(b.last, calls)
    ensures Filled(After(b, calls, capacity, flow), capacity)
    ensures After(b, calls, capacity, flow).last == LastTime(b.last, calls)
    decreases |calls|
  {
    if calls != [] {
      ConsumedStaysFilled(b, calls[0], capacity, flow);
      AfterStaysFilled(Consumed(b, calls[0], capacity, flow), calls[1..], capacity, flow);
    }
  }

  /** The calls hand out what is there and what flows in before the last of them. */
  lemma {:induction false} GrantedWithin(b: Bucket, calls: seq<Call>, capacity: nat, flow: Flow)
    requires Filled(b, capacity) && Rising(flow) && InOrder(b.last, calls)
    ensures Granted(b, calls, capacity, flow) as real <= b.tokens + flow(LastTime(b.last, calls)) - flow(b.last)
    decreases |calls|
  {
    if calls != [] {
      ConsumedStaysFilled(b, calls[0], capacity, flow);
      GrantedWithin(Consumed(b, calls[0], capacity, flow), calls[1..], capacity, flow);
    }
  }

  lemma WindowGranted(b: Bucket, window: seq<Call>, capacity: nat, flow: Flow)
    requires Filled(b, capacity) && Rising(flow) && InOrder(b.last, window) && window != []
    ensures Granted(b, window, capacity, flow) as real
         <= capacity as real + (flow(LastTime(window[0].at, window[1..])) - flow(window[0].at))
  {
    ConsumedStaysFilled(b, window[0], capacity, flow);
    GrantedWithin(Consumed(b, window[0], capacity, flow), window[1..], capacity, flow);
  }

  /** One window in one run keeps to the bound. */
  ghost predicate TokensBounded(capacity: nat, rate: real, start: real, history: seq<Call>, window: seq<Call>) {
    InOrder(start, history) && window != [] && InOrder(LastTime(start, history), window) ==>
      Granted(After(Bucket(capacity as real, start), history, capacity, AtRate(rate)), window, capacity, AtRate(rate)) as real
      <= capacity as real + rate * Span(window)
  }

  ghost predicate TokenBound(capacity: nat, rate: real) {
    forall start: real, history: seq<Call>, window: seq<Call> :: TokensBounded(capacity, rate, start, history, window)
  }

  lemma NegativeRateBreaks(capacity: nat, rate: real)
    requires rate < 0.0
    ensures !TokensBounded(capacity, rate, 0.0, [], [Call(0.0, capacity), Call(1.0, capacity + 1)])
  {
    var first, second := Call(0.0, capacity), Call(1.0, capacity + 1);
    var b := Bucket(capacity as real, 0.0);
    TwoCalls(0.0, first, second);
    assert Grants(b, first, capacity, AtRate(rate));
    assert Granted(b, [first, second], capacity, AtRate(rate)) >= capacity;
  }

  /** In every run and every window of calls the token bucket hands out at most its
      capacity and what flows in meanwhile: exactly when the rate is not negative. */
  lemma TokenBoundIff(capacity: nat, rate: real)
    ensures TokenBound(capacity, rate) <==> rate >= 0.0
  {
    if rate >= 0.0 {
      forall start: real, history: seq<Call>, window: seq<Call>
        ensures TokensBounded(capacity, rate, start, history, window)
      {
        if InOrder(start, history) && window != [] && InOrder(LastTime(start, history), window) {
          RateRises(rate);
          AfterStaysFilled(Bucket(capacity as real, start), history, capacity, AtRate(rate));
          WindowGranted(After(Bucket(capacity as real, start), history, capacity, AtRate(rate)), window, capacity,
             AtRate(rate));
          SpanFlow(window, rate);
        }
      }
    } else {
      NegativeRateBreaks(capacity, rate);
    }
  }

  // ---- What the token bucket does not refuse ----

  /** A full bucket at the `k`th call, what flows in after it, less what is handed out from that call on. */
  function LeftSince(b: Bucket, calls: seq<Call>, k: nat, now: real, capacity: nat, flow: Flow): real
    requires k < |calls|
  {
    capacity as real + (flow(now) - flow(calls[k].at)) - Granted(After(b, calls[..k], capacity, flow), calls[k..], capacity, flow) as real
  }

  /** What a call finds. */
  function Available(b: Bucket, calls: seq<Call>, now: real, capacity: nat, flow: Flow): real {
    Refilled(After(b, calls, capacity, flow), now, capacity, flow).tokens
  }

  /** What was there at the start and flowed in since, less what was handed out. */
  function LeftOver(b: Bucket, calls: seq<Call>, now: real, capacity: nat, flow: Flow): real {
    b.tokens + (flow(now) - flow(b.last)) - Granted(b, calls, capacity, flow) as real
  }

  lemma LeftSinceLater(b: Bucket, calls: seq<Call>, k: nat, now: real, capacity: nat, flow: Flow)
    requires 0 < k < |calls|
    ensures LeftSince(b, calls, k, now, capacity, flow)
         == LeftSince(Consumed(b, calls[0], capacity, flow), calls[1..], k - 1, now, capacity, flow)
  {
    assert calls[..k][0] == calls[0] && calls[..k][1..] == calls[1..][..k - 1];
  }

  lemma OneMoreCall(b: Bucket, calls: seq<Call>, now: real, capacity: nat, flow: Flow)
    requires calls != []
    ensures var next, rest := Consumed(b, calls[0], capacity, flow), calls[1..];
      && Available(b, calls, now, capacity, flow) == Available(next, rest, now, capacity, flow)
      && LeftOver(next, rest, now, capacity, flow)
         == Min(LeftSince(b, calls, 0, now, capacity, flow), LeftOver(b, calls, now, capacity, flow))
  {
    assert calls[..0] == [] && calls[0..] == calls;
  }

  /** Nothing is lost but what runs over: a call finds exactly the least of a full bucket, what the start leaves, and what a
      full bucket at one of the calls leaves. */
  lemma {:induction false} AvailableIsLeast(b: Bucket, calls: seq<Call>, now: real, capacity: nat, flow: Flow)
    ensures var found := Available(b, calls, now, capacity, flow);
      && found <= capacity as real && found <= LeftOver(b, calls, now, capacity, flow)
      && (forall k :: 0 <= k < |calls| ==> found <= LeftSince(b, calls, k, now, capacity, flow))
      && (found == capacity as real || found == LeftOver(b, calls, now, capacity, flow)
          || exists k :: 0 <= k < |calls| && found == LeftSince(b, calls, k, now, capacity, flow))
    decreases |calls|
  {
    if calls != [] {
      var next, rest := Consumed(b, calls[0], capacity, flow), calls[1..];
      OneMoreCall(b, calls, now, capacity, flow);
      AvailableIsLeast(next, rest, now, capacity, flow);
      forall k | 0 <= k < |calls|
        ensures Available(b, calls, now, capacity, flow) <= LeftSince(b, calls, k, now, capacity, flow)
      {
        if k > 0 { LeftSinceLater(b, calls, k, now, capacity, flow); }
      }
      if k :| 0 <= k < |rest| && Available(next, rest, now, capacity, flow) == LeftSince(next, rest, k, now, capacity, flow) {
        LeftSinceLater(b, calls, k + 1, now, capacity, flow);
      }
    }
  }

  /** The tokens handed out by the calls of a history, from its `k`th call on. */
  function GrantedFrom(capacity: nat, rate: real, start: real, history: seq<Call>, k: nat): nat
    requires k <= |history|
  {
    Granted(After(Bucket(capacity as real, start), history[..k], capacity, AtRate(rate)), history[k..], capacity, AtRate(rate))
  }

  /** A call asks for more than a full bucket at `from` and the rate since then leave, with `taken` handed out since. */
  predicate Outruns(capacity: nat, rate: real, from: real, taken: nat, c: Call) {
    c.amount as real > capacity as real + rate * (c.at - from) - taken as real
  }

  lemma OutrunsStart(capacity: nat, rate: real, start: real, history: seq<Call>, c: Call)
    ensures Outruns(capacity, rate, start, GrantedFrom(capacity, rate, start, history, 0), c) <==>
            c.amount as real > LeftOver(Bucket(capacity as real, start), history, c.at, capacity, AtRate(rate))
  {
    RateOf(rate, start, c.at);
    assert history[..0] == [] && history[0..] == history;
  }

  lemma OutrunsCall(capacity: nat, rate: real, start: real, history: seq<Call>, k: nat, c: Call)
    requires k < |history|
    ensures Outruns(capacity, rate, history[k].at, GrantedFrom(capacity, rate, start, history, k), c) <==>
            c.amount as real > LeftSince(Bucket(capacity as real, start), history, k, c.at, capacity, AtRate(rate))
  {
    RateOf(rate, history[k].at, c.at);
  }

  lemma RefusedByLeast(b: Bucket, history: seq<Call>, c: Call, capacity: nat, flow: Flow)
    ensures !Grants(After(b, history, capacity, flow), c, capacity, flow) <==>
      || c.amount > capacity || c.amount as real > LeftOver(b, history, c.at, capacity, flow)
      || exists k :: 0 <= k < |history| && c.amount as real > LeftSince(b, history, k, c.at, capacity, flow)
  {
    AvailableIsLeast(b, history, c.at, capacity, flow);
  }

  /** A call is refused exactly when it asks for more than the capacity, or outruns the bucket that was full at the start or
      at some call of the history. */
  lemma RefusedIff(capacity: nat, rate: real, start: real, history: seq<Call>, c: Call)
    ensures !Grants(After(Bucket(capacity as real, start), history, capacity, AtRate(rate)), c, capacity, AtRate(rate)) <==>
      || c.amount > capacity
      || Outruns(capacity, rate, start, GrantedFrom(capacity, rate, start, history, 0), c)
      || exists k :: 0 <= k < |history| &&
           Outruns(capacity, rate, history[k].at, GrantedFrom(capacity, rate, start, history, k), c)
  {
    RefusedByLeast(Bucket(capacity as real, start), history, c, capacity, AtRate(rate));
    OutrunsStart(capacity, rate, start, history, c);
    forall k | 0 <= k < |history|
      ensures Outruns(capacity, rate, history[k].at, GrantedFrom(capacity, rate, start, history, k), c) <==>
              c.amount as real > LeftSince(Bucket(capacity as real, start), history, k, c.at, capacity, AtRate(rate))
    {
      OutrunsCall(capacity, rate, start, history, k, c);
    }
  }

  lemma EnoughIsGranted(b: Bucket, c: Call, capacity: nat, flow: Flow)
    requires Filled(b, capacity) && c.amount <= capacity && flow(c.at) - flow(b.last) >= c.amount as real
    ensures Grants(b, c, capacity, flow) && Granted(b, [c], capacity, flow) == c.amount
  {
    assert [c][1..] == [];
  }

  /** A call for no more than the capacity that comes late enough after the one before it, for the rate to have brought what
      it asks for, is granted. */
  lemma WaitedCallGranted(capacity: nat, rate: real, start: real, history: seq<Call>, c: Call)
    requires rate >= 0.0 && InOrder(start, history) && c.amount <= capacity
    requires rate * (c.at - LastTime(start, history)) >= c.amount as real
    ensures var b := After(Bucket(capacity as real, start), history, capacity, AtRate(rate));
            Grants(b, c, capacity, AtRate(rate)) && Granted(b, [c], capacity, AtRate(rate)) == c.amount
  {
    var flow := AtRate(rate);
    RateRises(rate);
    AfterStaysFilled(Bucket(capacity as real, start), history, capacity, flow);
    RateOf(rate, LastTime(start, history), c.at);
    EnoughIsGranted(After(Bucket(capacity as real, start), history, capacity, flow), c, capacity, flow);
  }

  class TokenBucket {
    var tokens: real
    var last: real
    const capacity: nat
    const rate: real

    ghost function Value(): Bucket
      reads this
    {
      Bucket(tokens, last)
    }

    constructor (capacity: nat, rate: real, now: real)
      ensures Value() == Bucket(capacity as real, now) && this.capacity == capacity && this.rate == rate
    {
      this.capacity, this.rate := capacity, rate;
      tokens, last := capacity as real, now;
    }

    method RefillTokens(now: real)
      modifies this
      ensures Value() == Refilled(old(Value()), now, capacity, AtRate(rate))
    {
      RateOf(rate, last, now);
      var elapsed := now - last;
      last := now;
      var newTokens := elapsed * rate;
      tokens := Min(capacity as real, tokens + newTokens);
    }

    method TryConsume(amount: nat, now: real) returns (ok: bool)
      modifies this
      ensures ok == Grants(old(Value()), Call(now, amount), capacity, AtRate(rate))
      ensures Value() == Consumed(old(Value()), Call(now, amount), capacity, AtRate(rate))
    {
      RefillTokens(now);
      if tokens >= amount as real {
        tokens := tokens - amount as real;
        return true;
      }
      return false;
    }
  }

  // ---- The leaky bucket ----

  datatype Leaky = Leaky(water: int, last: real)

  /** The conversion to `int` cuts towards zero. */
  function Truncate(x: real): int {
    if x >= 0.0 then x.Floor else -((-x).Floor)
  }

  function Drop(b: Leaky, leaked: int, now: real): Leaky {
    if leaked > 0 then Leaky(if b.water > leaked then b.water - leaked else 0, now) else b
  }

  function Leaked(b: Leaky, now: real, flow: Flow): Leaky {
    Drop(b, Truncate(flow(now) - flow(b.last)), now)
  }

  predicate Admits(b: Leaky, c: Call, capacity: int, flow: Flow) {
    Leaked(b, c.at, flow).water + c.amount <= capacity
  }

  function Poured(b: Leaky, c: Call, capacity: int, flow: Flow): Leaky {
    var l := Leaked(b, c.at, flow);
    if l.water + c.amount <= capacity then l.(water := l.water + c.amount) else l
  }

  function LeakyAfter(b: Leaky, calls: seq<Call>, capacity: int, flow: Flow): Leaky
    decreases |calls|
  {
    if calls == [] then b else LeakyAfter(Poured(b, calls[0], capacity, flow), calls[1..], capacity, flow)
  }

  /** The units let through by the calls. */
  function Admitted(b: Leaky, calls: seq<Call>, capacity: int, flow: Flow): nat
    decreases |calls|
  {
    if calls == [] then 0
    else
      (if Admits(b, calls[0], capacity, flow) then calls[0].amount else 0)
      + Admitted(Poured(b, calls[0], capacity, flow), calls[1..], capacity, flow)
  }

  predicate Within(b: Leaky, now: real, capacity: int) {
    0 <= b.water <= capacity && b.last <= now
  }

  /** After a call less than one unit has leaked unseen, and no more was taken off the
      level than had flowed out. */
  lemma PouredWithin(b: Leaky, c: Call, capacity: int, flow: Flow)
    requires Within(b, c.at, capacity) && Rising(flow)
    ensures var l := Leaked(b, c.at, flow);
            && Within(l, c.at, capacity) && Within(Poured(b, c, capacity, flow), c.at, capacity)
            && Poured(b, c, capacity, flow).last == l.last
            && flow(c.at) - flow(l.last) < 1.0
            && b.water as real - l.water as real <= flow(l.last) - flow(b.last)
  {
    assert flow(b.last) <= flow(c.at);
  }

  lemma {:induction false} LeakyStaysWithin(b: Leaky, calls: seq<Call>, from: real, capacity: int, flow: Flow)
    requires Within(b, from, capacity) && Rising(flow) && InOrder(from, calls)
    ensures Within(LeakyAfter(b, calls, capacity, flow), LastTime(from, calls), capacity)
    decreases |calls|
  {
    if calls != [] {
      PouredWithin(b, calls[0], capacity, flow);
      LeakyStaysWithin(Poured(b, calls[0], capacity, flow), calls[1..], calls[0].at, capacity, flow);
    }
  }

  /** What is let through has to fit beside the level or leak away before the end. */
  lemma {:induction false} AdmittedWithin(b: Leaky, calls: seq<Call>, from: real, capacity: int, flow: Flow)
    requires Within(b, from, capacity) && Rising(flow) && InOrder(from, calls)
    ensures b.water as real + Admitted(b, calls, capacity, flow) as real
         <= capacity as real + flow(LastTime(from, calls)) - flow(b.last)
    decreases |calls|
  {
    if calls == [] {
      assert flow(b.last) <= flow(from);
    } else {
      PouredWithin(b, calls[0], capacity, flow);
      AdmittedWithin(Poured(b, calls[0], capacity, flow), calls[1..], calls[0].at, capacity, flow);
    }
  }

  lemma WindowAdmitted(b: Leaky, window: seq<Call>, from: real, capacity: int, flow: Flow)
    requires Within(b, from, capacity) && Rising(flow) && InOrder(from, window) && window != []
    ensures Admitted(b, window, capacity, flow) as real
         < capacity as real + (flow(LastTime(window[0].at, window[1..])) - flow(window[0].at)) + 1.0
  {
    PouredWithin(b, window[0], capacity, flow);
    AdmittedWithin(Poured(b, window[0], capacity, flow), window[1..], window[0].at, capacity, flow);
  }

  ghost predicate LeakBounded(capacity: int, rate: real, slack: real, start: real, history: seq<Call>,
        window: seq<Call>) {
    InOrder(start, history) && window != [] && InOrder(LastTime(start, history), window) ==>
      Admitted(LeakyAfter(Leaky(0, start), history, capacity, AtRate(rate)), window, capacity, AtRate(rate)) as real
      < capacity as real + rate * Span(window) + slack
  }

  ghost predicate LeakyBound(capacity: int, rate: real, slack: real) {
    forall start: real, history: seq<Call>, window: seq<Call> ::
      LeakBounded(capacity, rate, slack, start, history, window)
  }

  lemma NegativeCapacityBreaks(capacity: int, rate: real)
    requires capacity < 0
    ensures !LeakBounded(capacity, rate, 1.0, 0.0, [], [Call(0.0, 0)])
  {
    OneCall(0.0, Call(0.0, 0));
  }

  lemma FirstFills(capacity: nat, second: Call, flow: Flow)
    ensures Admitted(Leaky(0, 0.0), [Call(0.0, capacity), second], capacity, flow) >= capacity
  {
    assert Truncate(0.0) == 0;
    assert Admits(Leaky(0, 0.0), Call(0.0, capacity), capacity, flow);
  }

  lemma SameProduct(a: real, b: real, c: real)
    requires b == c
    ensures a * b == a * c
  {
  }

  lemma LateWindow(capacity: nat, rate: real, late: real)
    requires late > 0.0 && rate * late == -2.0
    ensures var window := [Call(0.0, capacity), Call(late, 1)];
      InOrder(0.0, window) && rate * Span(window) == -2.0
  {
    TwoCalls(0.0, Call(0.0, capacity), Call(late, 1));
    SameProduct(rate, Span([Call(0.0, capacity), Call(late, 1)]), late);
  }

  lemma LateCallBreaks(capacity: nat, rate: real, window: seq<Call>)
    requires |window| == 2 && window[0] == Call(0.0, capacity)
    requires InOrder(0.0, window) && rate * Span(window) == -2.0
    ensures !LeakBounded(capacity, rate, 1.0, 0.0, [], window)
  {
    assert window == [Call(0.0, capacity), window[1]];
    FirstFills(capacity, window[1], AtRate(rate));
  }

  lemma Quotient(x: real)
    requires x < 0.0
    ensures -2.0 / x > 0.0 && x * (-2.0 / x) == -2.0
  {
  }

  lemma NegativeLeakBreaks(capacity: int, rate: real)
    requires capacity >= 0 && rate < 0.0
    ensures !LeakyBound(capacity, rate, 1.0)
  {
    Quotient(rate);
    LateWindow(capacity, rate, -2.0 / rate);
    LateCallBreaks(capacity, rate, [Call(0.0, capacity), Call(-2.0 / rate, 1)]);
  }

  /** In every run and every window the leaky bucket admits less than its capacity,
      what leaks meanwhile and one unit more: exactly when neither the capacity nor
      the rate is negative. */
  lemma LeakyBoundIff(capacity: int, rate: real)
    ensures LeakyBound(capacity, rate, 1.0) <==> capacity >= 0 && rate >= 0.0
  {
    if capacity >= 0 && rate >= 0.0 {
      forall start: real, history: seq<Call>, window: seq<Call>
        ensures LeakBounded(capacity, rate, 1.0, start, history, window)
      {
        if InOrder(start, history) && window != [] && InOrder(LastTime(start, history), window) {
          var flow := AtRate(rate);
          RateRises(rate);
          LeakyStaysWithin(Leaky(0, start), history, start, capacity, flow);
          WindowAdmitted(LeakyAfter(Leaky(0, start), history, capacity, flow), window, LastTime(start, history),
             capacity, flow);
          SpanFlow(window, rate);
        }
      }
    } else if capacity < 0 {
      NegativeCapacityBreaks(capacity, rate);
    } else {
      NegativeLeakBreaks(capacity, rate);
    }
  }

  lemma LateUnit(e: real, slack: real)
    requires 0.0 < e <= 0.5 && slack + 2.0 * e <= 1.0
    ensures !LeakBounded(1, 1.0, slack, 0.0, [], [Call(1.0 - e, 1), Call(1.0, 1)])
  {
    var flow := AtRate(1.0);
    var first, second := Call(1.0 - e, 1), Call(1.0, 1);
    var b := Leaky(0, 0.0);
    TwoCalls(0.0, first, second);
    assert flow(0.0) == 0.0 && flow(1.0 - e) == 1.0 - e && flow(1.0) == 1.0;
    assert Poured(b, first, 1, flow) == Leaky(1, 0.0);
    assert Poured(Leaky(1, 0.0), second, 1, flow) == Leaky(1, 1.0);
    assert [first, second][1..] == [second];
    assert Admitted(Leaky(1, 0.0), [second], 1, flow) == 1;
    assert Admitted(b, [first, second], 1, flow) == 2;
  }

  /** The unit more is needed: no smaller allowance holds, because a unit that has
      almost leaked when the window opens leaves the bucket inside it. */
  lemma LeakyNeedsTheUnit(slack: real)
    requires slack < 1.0
    ensures !LeakyBound(1, 1.0, slack)
  {
    LateUnit(if slack < 0.0 then 0.5 else (1.0 - slack) / 2.0, slack);
  }

  // ---- What the leaky bucket does not refuse ----

  /** The level a call finds. */
  function LevelAt(b: Leaky, calls: seq<Call>, now: real, capacity: int, flow: Flow): int {
    Leaked(LeakyAfter(b, calls, capacity, flow), now, flow).water
  }

  /** The level there was, what has been poured in, less what flowed out since, and one unit for each call. */
  function LevelSince(b: Leaky, calls: seq<Call>, now: real, capacity: int, flow: Flow): real {
    b.water as real + Admitted(b, calls, capacity, flow) as real - (flow(now) - flow(b.last)) + (|calls| + 1) as real
  }

  /** The same with an empty bucket at the `k`th call. */
  function EmptySince(b: Leaky, calls: seq<Call>, k: nat, now: real, capacity: int, flow: Flow): real
    requires k < |calls|
  {
    Admitted(LeakyAfter(b, calls[..k], capacity, flow), calls[k..], capacity, flow) as real
    - (flow(now) - flow(calls[k].at)) + (|calls| - k) as real
  }

  lemma LeakedLevel(b: Leaky, now: real, flow: Flow)
    requires b.water >= 0
    ensures var l := Leaked(b, now, flow);
      && l.water >= 0
      && (l == Leaky(0, now) || l.water as real + flow(l.last) <= b.water as real + flow(b.last) + 1.0)
      && (l.last == b.last || l.last == now)
      && (l.water == 0 || l.water as real <= b.water as real - (flow(now) - flow(b.last)) + 1.0)
  {
  }

  lemma EmptySinceLater(b: Leaky, calls: seq<Call>, k: nat, now: real, capacity: int, flow: Flow)
    requires 0 < k < |calls|
    ensures EmptySince(b, calls, k, now, capacity, flow)
         == EmptySince(Poured(b, calls[0], capacity, flow), calls[1..], k - 1, now, capacity, flow)
  {
    assert calls[..k][0] == calls[0] && calls[..k][1..] == calls[1..][..k - 1];
  }

  /** A call's unit pays for what its leak rounds off. */
  lemma FirstLevel(b: Leaky, calls: seq<Call>, now: real, capacity: int, flow: Flow)
    requires calls != [] && b.water >= 0
    ensures var next, rest := Poured(b, calls[0], capacity, flow), calls[1..];
      && next.water >= 0 && LevelAt(b, calls, now, capacity, flow) == LevelAt(next, rest, now, capacity, flow)
      && (LevelSince(next, rest, now, capacity, flow) <= LevelSince(b, calls, now, capacity, flow)
          || LevelSince(next, rest, now, capacity, flow) == EmptySince(b, calls, 0, now, capacity, flow))
  {
    LeakedLevel(b, calls[0].at, flow);
    assert calls[..0] == [] && calls[0..] == calls;
  }

  lemma {:induction false} LevelIsCaused(b: Leaky, calls: seq<Call>, now: real, capacity: int, flow: Flow)
    requires b.water >= 0
    ensures var level := LevelAt(b, calls, now, capacity, flow);
      || level == 0 || level as real <= LevelSince(b, calls, now, capacity, flow)
      || exists k :: 0 <= k < |calls| && level as real <= EmptySince(b, calls, k, now, capacity, flow)
    decreases |calls|
  {
    if calls == [] {
      LeakedLevel(b, now, flow);
    } else {
      var next, rest := Poured(b, calls[0], capacity, flow), calls[1..];
      FirstLevel(b, calls, now, capacity, flow);
      LevelIsCaused(next, rest, now, capacity, flow);
      if k :| 0 <= k < |rest| && LevelAt(next, rest, now, capacity, flow) as real <= EmptySince(next, rest, k, now, capacity, flow) {
        EmptySinceLater(b, calls, k + 1, now, capacity, flow);
      }
    }
  }

  /** The units let through by the calls of a history, from its `k`th call on. */
  function AdmittedFrom(capacity: int, rate: real, start: real, history: seq<Call>, k: nat): nat
    requires k <= |history|
  {
    Admitted(LeakyAfter(Leaky(0, start), history[..k], capacity, AtRate(rate)), history[k..], capacity, AtRate(rate))
  }

  /** A call overflows a bucket that was empty at `from`, with `poured` let through since; each of the `calls`, and the
      call itself, may have rounded off a unit. */
  predicate Overflows(capacity: int, rate: real, from: real, poured: nat, calls: nat, c: Call) {
    c.amount as real + poured as real + (calls + 1) as real > capacity as real + rate * (c.at - from)
  }

  lemma OverflowsStart(capacity: int, rate: real, start: real, history: seq<Call>, c: Call)
    ensures Overflows(capacity, rate, start, AdmittedFrom(capacity, rate, start, history, 0), |history|, c) <==>
            c.amount as real + LevelSince(Leaky(0, start), history, c.at, capacity, AtRate(rate)) > capacity as real
  {
    RateOf(rate, start, c.at);
    assert history[..0] == [] && history[0..] == history;
  }

  lemma OverflowsCall(capacity: int, rate: real, start: real, history: seq<Call>, k: nat, c: Call)
    requires k < |history|
    ensures Overflows(capacity, rate, history[k].at, AdmittedFrom(capacity, rate, start, history, k), |history| - k - 1, c) <==>
            c.amount as real + EmptySince(Leaky(0, start), history, k, c.at, capacity, AtRate(rate)) > capacity as real
  {
    RateOf(rate, history[k].at, c.at);
  }

  lemma RefusedByLevel(b: Leaky, history: seq<Call>, c: Call, capacity: int, flow: Flow)
    requires b.water >= 0 && !Admits(LeakyAfter(b, history, capacity, flow), c, capacity, flow)
    ensures || c.amount > capacity || c.amount as real + LevelSince(b, history, c.at, capacity, flow) > capacity as real
      || exists k :: 0 <= k < |history| && c.amount as real + EmptySince(b, history, k, c.at, capacity, flow) > capacity as real
  {
    LevelIsCaused(b, history, c.at, capacity, flow);
  }

  /** A call is refused only if it asks for more than the capacity, or overflows the bucket that was empty at the start or at
      some call of the history: refused calls take no room. */
  lemma LeakyRefusedOnlyIf(capacity: int, rate: real, start: real, history: seq<Call>, c: Call)
    requires !Admits(LeakyAfter(Leaky(0, start), history, capacity, AtRate(rate)), c, capacity, AtRate(rate))
    ensures || c.amount > capacity
      || Overflows(capacity, rate, start, AdmittedFrom(capacity, rate, start, history, 0), |history|, c)
      || exists k :: 0 <= k < |history| &&
           Overflows(capacity, rate, history[k].at, AdmittedFrom(capacity, rate, start, history, k), |history| - k - 1, c)
  {
    RefusedByLevel(Leaky(0, start), history, c, capacity, AtRate(rate));
    OverflowsStart(capacity, rate, start, history, c);
    forall k | 0 <= k < |history|
      ensures Overflows(capacity, rate, history[k].at, AdmittedFrom(capacity, rate, start, history, k), |history| - k - 1, c) <==>
              c.amount as real + EmptySince(Leaky(0, start), history, k, c.at, capacity, AtRate(rate)) > capacity as real
    {
      OverflowsCall(capacity, rate, start, history, k, c);
    }
  }

  lemma EnoughIsAdmitted(b: Leaky, from: real, c: Call, capacity: nat, flow: Flow)
    requires Within(b, from, capacity) && Rising(flow) && c.amount <= capacity
    requires flow(c.at) - flow(from) >= c.amount as real
    ensures Admits(b, c, capacity, flow) && Admitted(b, [c], capacity, flow) == c.amount
  {
    assert flow(b.last) <= flow(from);
    assert [c][1..] == [];
  }

  /** After waiting for as much to leak as it asks for, a call for no more than the capacity is admitted. */
  lemma WaitedCallAdmitted(capacity: nat, rate: real, start: real, history: seq<Call>, c: Call)
    requires rate >= 0.0 && InOrder(start, history) && c.amount <= capacity
    requires rate * (c.at - LastTime(start, history)) >= c.amount as real
    ensures var b := LeakyAfter(Leaky(0, start), history, capacity, AtRate(rate));
            Admits(b, c, capacity, AtRate(rate)) && Admitted(b, [c], capacity, AtRate(rate)) == c.amount
  {
    var flow := AtRate(rate);
    RateRises(rate);
    LeakyStaysWithin(Leaky(0, start), history, start, capacity, flow);
    RateOf(rate, LastTime(start, history), c.at);
    EnoughIsAdmitted(LeakyAfter(Leaky(0, start), history, capacity, flow), LastTime(start, history), c, capacity, flow);
  }

  class LeakyBucketLimiter {
    var water: int
    var last: real
    const capacity: int
    const rate: real

    ghost function Value(): Leaky
      reads this
    {
      Leaky(water, last)
    }

    constructor (rate: real, capacity: int, now: real)
      ensures Value() == Leaky(0, now) && this.capacity == capacity && this.rate == rate
    {
      this.capacity, this.rate := capacity, rate;
      water, last := 0, now;
    }

    method Leak(now: real)
      modifies this
      ensures Value() == Leaked(old(Value()), now, AtRate(rate))
    {
      RateOf(rate, last, now);
      var elapsed := now - last;
      var leaked := Truncate(elapsed * rate);
      if leaked > 0 {
        water := if water - leaked > 0 then water - leaked else 0;
        last := now;
      }
    }

    method TryConsume(amount: nat, now: real) returns (ok: bool)
      modifies this
      ensures ok == Admits(old(Value()), Call(now, amount), capacity, AtRate(rate))
      ensures Value() == Poured(old(Value()), Call(now, amount), capacity, AtRate(rate))
    {
      Leak(now);
      if water + amount <= capacity {
        water := water + amount;
        return true;
      } else {
        return false;
      }
    }
  }
}
