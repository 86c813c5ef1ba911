/**
 The fixed-window request limiter of `OastService.allowRequest`.
 */
module RateLimiter {

  const WINDOW_MS: int := 1000

  datatype Limiter = Limiter(windowStartedAt: int, requestsInWindow: nat)

  function Opened(l: Limiter, now: int): Limiter {
    if now - l.windowStartedAt >= WINDOW_MS then Limiter(now, 0) else l
  }

  function Counted(l: Limiter, now: int): Limiter {
    var o := Opened(l, now);
    o.(requestsInWindow := o.requestsInWindow + 1)
  }

  /** One call: when it was made, the window it fell into, and whether it was allowed. */
  datatype Call = Call(at: int, window: int, allowed: bool)

  function CallAt(l: Limiter, now: int, max: nat): Call {
    Call(now, Counted(l, now).windowStartedAt, Counted(l, now).requestsInWindow <= max)
  }

  /** All calls made at the given times. */
  function Trace(l: Limiter, times: seq<int>, max: nat): seq<Call>
    decreases |times|
  {
    if times == [] then [] else [CallAt(l, times[0], max)] + Trace(Counted(l, times[0]), times[1..], max)
  }

  ghost predicate Nondecreasing(times: seq<int>) {
    forall j, k | 0 <= j <= k < |times| :: times[j] <= times[k]
  }

  /** Allowed calls in the half-open interval. */
  function AllowedIn(cs: seq<Call>, low: int, high: int): nat
    decreases |cs|
  {
    if cs == [] then 0 else (if cs[0].allowed && low <= cs[0].at < high then 1 else 0) + AllowedIn(cs[1..], low, high)
  }

  /** Allowed calls of one window. */
  function AllowedInWindow(cs: seq<Call>, window: int): nat
    decreases |cs|
  {
    if cs == [] then 0 else (if cs[0].allowed && cs[0].window == window then 1 else 0) + AllowedInWindow(cs[1..], window)
  }

  function Min(a: nat, b: nat): nat { if a < b then a else b }

  // ---------------------------------------------------------------- windows

  ghost predicate Apart(a: int, b: int) {
    a == b || a + WINDOW_MS <= b
  }

  /** Every call falls into its window; windows start at least 1000 ms apart. */
  lemma {:induction false} TraceWindows(l: Limiter, times: seq<int>, max: nat)
    requires Nondecreasing(times) && (times != [] ==> l.windowStartedAt <= times[0])
    ensures var cs := Trace(l, times, max);
            && |cs| == |times|
            && (forall k | 0 <= k < |cs| ::
                  && cs[k].at == times[k] && cs[k].window <= cs[k].at < cs[k].window + WINDOW_MS
                  && Apart(l.windowStartedAt, cs[k].window))
            && (forall j, k | 0 <= j <= k < |cs| :: Apart(cs[j].window, cs[k].window))
    decreases |times|
  {
    if times != [] {
      var n := Counted(l, times[0]);
      assert forall k | 0 <= k < |times[1..]| :: times[1..][k] == times[k + 1];
      TraceWindows(n, times[1..], max);
    }
  }

  /** No window allows more than the maximum. */
  lemma {:induction false} WindowIsBounded(l: Limiter, times: seq<int>, max: nat, window: int)
    requires Nondecreasing(times) && (times != [] ==> l.windowStartedAt <= times[0])
    ensures AllowedInWindow(Trace(l, times, max), window) <= max
    ensures AllowedInWindow(Trace(l, times, max), l.windowStartedAt) + Min(l.requestsInWindow, max) <= max
    decreases |times|
  {
    if times != [] {
      var n := Counted(l, times[0]);
      assert forall k | 0 <= k < |times[1..]| :: times[1..][k] == times[k + 1];
      WindowIsBounded(n, times[1..], max, window);
      if n.windowStartedAt != l.windowStartedAt {
        TraceWindows(n, times[1..], max);
        NoCallsInWindow(Trace(n, times[1..], max), l.windowStartedAt);
      }
      if window == n.windowStartedAt && window != l.windowStartedAt {
        WindowIsBounded(n, times[1..], max, n.windowStartedAt);
      }
    }
  }

  lemma {:induction false} NoCallsInWindow(cs: seq<Call>, window: int)
    requires forall k | 0 <= k < |cs| :: cs[k].window != window
    ensures AllowedInWindow(cs, window) == 0
    decreases |cs|
  {
    if cs != [] {
      NoCallsInWindow(cs[1..], window);
    }
  }

  // ---------------------------------------------------------------- intervals

  /** The allowed calls of the interval all belong to window `a` or `b`. */
  ghost predicate InTwoWindows(cs: seq<Call>, low: int, high: int, a: int, b: int) {
    forall k | 0 <= k < |cs| && cs[k].allowed && low <= cs[k].at < high :: cs[k].window == a || cs[k].window == b
  }

  lemma {:induction false} CountByWindow(cs: seq<Call>, low: int, high: int, a: int, b: int)
    requires InTwoWindows(cs, low, high, a, b)
    ensures AllowedIn(cs, low, high) <= AllowedInWindow(cs, a) + (if a == b then 0 else AllowedInWindow(cs, b))
    decreases |cs|
  {
    if cs != [] {
      CountByWindow(cs[1..], low, high, a, b);
    }
  }

  /** One allowed call of window `a` outside the interval lowers the bound. */
  lemma {:induction false} CountByWindowLess(cs: seq<Call>, low: int, high: int, a: int, b: int, k: nat)
    requires InTwoWindows(cs, low, high, a, b) && a != b
    requires k < |cs| && cs[k].allowed && cs[k].window == a && !(low <= cs[k].at < high)
    ensures AllowedIn(cs, low, high) + 1 <= AllowedInWindow(cs, a) + AllowedInWindow(cs, b)
    decreases |cs|
  {
    if k == 0 {
      CountByWindow(cs[1..], low, high, a, b);
    } else {
      CountByWindowLess(cs[1..], low, high, a, b, k - 1);
    }
  }

  /** The earliest window that has an allowed call in the interval, if any. */
  lemma {:induction false} TwoWindowsSuffice(cs: seq<Call>, low: int) returns (a: int, b: int)
    requires forall k | 0 <= k < |cs| :: cs[k].window <= cs[k].at < cs[k].window + WINDOW_MS
    requires forall j, k | 0 <= j <= k < |cs| :: Apart(cs[j].window, cs[k].window)
    ensures InTwoWindows(cs, low, low + WINDOW_MS, a, b)
    ensures a == b || (a < low && a + WINDOW_MS <= b)
    ensures a != b ==> exists k :: 0 <= k < |cs| && cs[k].window == a
  {
    if j :| 0 <= j < |cs| && low <= cs[j].at < low + WINDOW_MS {
      a := cs[j].window;
      if k :| 0 <= k < |cs| && low <= cs[k].at < low + WINDOW_MS && cs[k].window != a {
        b := cs[k].window;
        if b < a { a, b := b, a; }
      } else {
        b := a;
      }
    } else {
      a, b := 0, 0;
    }
  }

  /**
   For every nondecreasing sequence of call times, any half-open interval of 1000 ms contains at
   most twice the configured number of allowed calls, and each window at most once that number.
   */
  lemma AnySecondIsBounded(times: seq<int>, max: nat, low: int, window: int)
    requires Nondecreasing(times) && (times != [] ==> 0 <= times[0])
    ensures var cs := Trace(Limiter(0, 0), times, max);
            AllowedIn(cs, low, low + WINDOW_MS) <= 2 * max && AllowedInWindow(cs, window) <= max
  {
    var l := Limiter(0, 0);
    var cs := Trace(l, times, max);
    TraceWindows(l, times, max);
    var a, b := TwoWindowsSuffice(cs, low);
    CountByWindow(cs, low, low + WINDOW_MS, a, b);
    WindowIsBounded(l, times, max, a);
    WindowIsBounded(l, times, max, b);
    WindowIsBounded(l, times, max, window);
  }

  /** Past the initial window, every window was opened by an allowed call at its start. */
  lemma {:induction false} WindowHasOpener(l: Limiter, times: seq<int>, max: nat, k: nat) returns (opener: nat)
    requires Nondecreasing(times) && (times != [] ==> l.windowStartedAt <= times[0]) && max >= 1
    requires k < |Trace(l, times, max)| && Trace(l, times, max)[k].window != l.windowStartedAt
    ensures var cs := Trace(l, times, max);
            opener < |cs| && cs[opener] == Call(cs[k].window, cs[k].window, true)
    decreases |times|
  {
    var n := Counted(l, times[0]);
    var rest := Trace(n, times[1..], max);
    assert Trace(l, times, max) == [CallAt(l, times[0], max)] + rest;
    assert forall i | 0 <= i < |times[1..]| :: times[1..][i] == times[i + 1];
    if Trace(l, times, max)[k].window == n.windowStartedAt {
      opener := 0;
    } else {
      var later := WindowHasOpener(n, times[1..], max, k - 1);
      opener := later + 1;
    }
  }

  lemma TwoRealWindows(times: seq<int>, max: nat, low: int, a: int, b: int, k: nat)
    requires Nondecreasing(times) && times != [] && WINDOW_MS <= times[0] && max >= 1
    requires var cs := Trace(Limiter(0, 0), times, max);
             InTwoWindows(cs, low, low + WINDOW_MS, a, b) && a != b && a < low && k < |cs| && cs[k].window == a
    ensures AllowedIn(Trace(Limiter(0, 0), times, max), low, low + WINDOW_MS) <= 2 * max - 1
  {
    var l := Limiter(0, 0);
    var cs := Trace(l, times, max);
    TraceWindows(l, times, max);
    assert a != 0 by {
      assert times[0] <= times[k] == cs[k].at < cs[k].window + WINDOW_MS;
    }
    var opener := WindowHasOpener(l, times, max, k);
    CountByWindowLess(cs, low, low + WINDOW_MS, a, b, opener);
    WindowIsBounded(l, times, max, a);
    WindowIsBounded(l, times, max, b);
  }

  /**
   Once the clock reads at least 1000 ms, as a real one does, the initial window is never used
   and the bound is one lower: the call that opens a window is spent before the interval.
   */
  lemma AnyRealSecondIsBounded(times: seq<int>, max: nat, low: int)
    requires Nondecreasing(times) && (times != [] ==> WINDOW_MS <= times[0]) && max >= 1
    ensures AllowedIn(Trace(Limiter(0, 0), times, max), low, low + WINDOW_MS) <= 2 * max - 1
  {
    var l := Limiter(0, 0);
    TraceWindows(l, times, max);
    var a, b := TwoWindowsSuffice(Trace(l, times, max), low);
    if a == b {
      CountByWindow(Trace(l, times, max), low, low + WINDOW_MS, a, b);
      WindowIsBounded(l, times, max, a);
    } else {
      var k :| 0 <= k < |Trace(l, times, max)| && Trace(l, times, max)[k].window == a;
      TwoRealWindows(times, max, low, a, b, k);
    }
  }

  // ---------------------------------------------------------------- the bound is reached

  function Repeat(t: int, n: nat): seq<int> {
    seq(n, _ => t)
  }

  /** Calls at one moment of an open window are allowed up to the maximum. */
  lemma {:induction false} RepeatedCalls(l: Limiter, t: int, n: nat, more: seq<int>, max: nat, low: int)
    requires t < l.windowStartedAt + WINDOW_MS && l.requestsInWindow + n <= max && low <= t < low + WINDOW_MS
    ensures AllowedIn(Trace(l, Repeat(t, n) + more, max), low, low + WINDOW_MS) ==
            n + AllowedIn(Trace(l.(requestsInWindow := l.requestsInWindow + n), more, max), low, low + WINDOW_MS)
    decreases n
  {
    var times := Repeat(t, n) + more;
    if n == 0 {
      assert times == more;
    } else {
      assert times[1..] == Repeat(t, n - 1) + more;
      RepeatedCalls(Counted(l, t), t, n - 1, more, max, low);
      assert Trace(l, times, max)[1..] == Trace(Counted(l, t), times[1..], max);
    }
  }

  /** Calls at the moment a window has lapsed: the first opens the next window, the others follow in it. */
  lemma LapsedCalls(l: Limiter, t: int, max: nat, low: int)
    requires t == l.windowStartedAt + WINDOW_MS && max >= 1 && low <= t < low + WINDOW_MS
    ensures AllowedIn(Trace(l, Repeat(t, max), max), low, low + WINDOW_MS) == max
  {
    var times := Repeat(t, max);
    assert times[1..] == Repeat(t, max - 1) + [];
    assert Trace(l, times, max)[1..] == Trace(Limiter(t, 1), times[1..], max);
    RepeatedCalls(Limiter(t, 1), t, max - 1, [], max, low);
  }

  /** For every maximum some real sequence of calls reaches the bound. */
  lemma BoundIsReached(max: nat, start: int)
    requires max >= 1 && start >= WINDOW_MS
    ensures var times := [start] + (Repeat(start + 999, max - 1) + Repeat(start + 1000, max));
            && Nondecreasing(times)
            && AllowedIn(Trace(Limiter(0, 0), times, max), start + 999, start + 999 + WINDOW_MS) == 2 * max - 1
  {
    var low := start + 999;
    var rest := Repeat(low, max - 1) + Repeat(start + 1000, max);
    var times := [start] + rest;
    assert times[1..] == rest;
    assert Trace(Limiter(0, 0), times, max)[1..] == Trace(Limiter(start, 1), rest, max);
    RepeatedCalls(Limiter(start, 1), low, max - 1, Repeat(start + 1000, max), max, low);
    LapsedCalls(Limiter(start, max), start + 1000, max, low);
  }

  /** Calls of one window, allowed or not. */
  function CallsIn(cs: seq<Call>, window: int): nat
    decreases |cs|
  {
    if cs == [] then 0 else (if cs[0].window == window then 1 else 0) + CallsIn(cs[1..], window)
  }

  lemma {:induction false} TraceIsExact(l: Limiter, times: seq<int>, max: nat, k: nat)
    requires Nondecreasing(times) && k < |times| && l.windowStartedAt <= times[0]
    ensures var cs := Trace(l, times, max);
            && |cs| == |times|
            && (var previous := if k == 0 then l.windowStartedAt else cs[k - 1].window;
                cs[k].window == if times[k] - previous >= 1000 then times[k] else previous)
            && (cs[k].allowed <==>
                  CallsIn(cs[..k], cs[k].window) + (if cs[k].window == l.windowStartedAt then l.requestsInWindow else 0) < max)
    decreases k
  {
    var cs := Trace(l, times, max);
    TraceWindows(l, times, max);
    if k == 0 {
      assert cs[..0] == [];
    } else {
      var n := Counted(l, times[0]);
      var rest := Trace(n, times[1..], max);
      assert forall j | 0 <= j < |times[1..]| :: times[1..][j] == times[j + 1];
      TraceWindows(n, times[1..], max);
      TraceIsExact(n, times[1..], max, k - 1);
      assert cs[..k][0] == cs[0] && cs[..k][1..] == rest[..k - 1];
    }
  }

  /**
   A call is allowed if and only if fewer than the maximum fell into its window before it, and a
   call opens a new window if and only if the current one started at least a second before.
   */
  lemma AllowedIffWindowHasRoom(times: seq<int>, max: nat, k: nat)
    requires Nondecreasing(times) && k < |times| && 0 <= times[0]
    ensures var cs := Trace(Limiter(0, 0), times, max);
            && |cs| == |times|
            && (cs[k].allowed <==> CallsIn(cs[..k], cs[k].window) < max)
            && (var previous := if k == 0 then 0 else cs[k - 1].window;
                cs[k].window == if times[k] - previous >= 1000 then times[k] else previous)
  {
    TraceIsExact(Limiter(0, 0), times, max, k);
  }

  /** The service's two counters. */
  class RequestLimiter {
    const maxRequestsPerSecond: nat
    var windowStartedAt: int
    var requestsInWindow: nat

    function View(): Limiter
      reads this
    {
      Limiter(windowStartedAt, requestsInWindow)
    }

    constructor (maxRequestsPerSecond: nat)
      ensures this.maxRequestsPerSecond == maxRequestsPerSecond && View() == Limiter(0, 0)
    {
      this.maxRequestsPerSecond, windowStartedAt, requestsInWindow := maxRequestsPerSecond, 0, 0;
    }

    method AllowRequest(now: int) returns (allowed: bool)
      modifies this
      ensures View() == Counted(old(View()), now)
      ensures allowed == CallAt(old(View()), now, maxRequestsPerSecond).allowed
    {
      if now - windowStartedAt >= WINDOW_MS {
        windowStartedAt := now;
        requestsInWindow := 0;
      }
      requestsInWindow := requestsInWindow + 1;
      allowed := requestsInWindow <= maxRequestsPerSecond;
    }
  }
}
