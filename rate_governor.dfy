/** The fixed-window call-rate governor (`rate_limit_check`): a call counter and
    the start of the current window. Time is an integer number of seconds that
    the caller passes in; the governor returns how long it sleeps instead of
    sleeping, and a sleep of `w` seconds is taken to advance the clock by
    exactly `w`. */
module RateGovernor {

  /** MAX_CALLS_PER_MINUTE */
  const MaxCallsPerMinute: nat := 180

  /** Length of a window, in seconds. */
  const WindowSeconds: nat := 60

  /** The module globals `call_count` and `start_time`. */
  datatype Window = Window(count: nat, start: int)

  predicate ValidWindow(w: Window)
  {
    w.count < MaxCallsPerMinute
  }

  function Max(a: int, b: int): int
  {
    if a < b then b else a
  }

  /** One call of `rate_limit_check` at time `now`: the new window and the wait. */
  function Step(w: Window, now: int): (r: (Window, int))
    // the counter never reaches the ceiling after a call
    ensures ValidWindow(r.0)
    // below the ceiling: count one more call, keep the window, do not wait
    ensures w.count + 1 < MaxCallsPerMinute ==> r == (Window(w.count + 1, w.start), 0)
    // at the ceiling: wait out the rest of the minute, then open a new window
    ensures w.count + 1 >= MaxCallsPerMinute ==>
      && r.0.count == 0
      && r.1 == (if now - w.start < WindowSeconds then WindowSeconds - (now - w.start) else 0)
      && r.0.start == now + r.1
      && r.0.start == Max(now, w.start + WindowSeconds)
    // on a clock that has not gone back, no wait is negative or longer than a window
    ensures now >= w.start ==> 0 <= r.1 <= WindowSeconds
  {
    var count := w.count + 1;
    var elapsed := now - w.start;
    if count >= MaxCallsPerMinute then
      var wait := if elapsed < WindowSeconds then WindowSeconds - elapsed else 0;
      (Window(0, now + wait), wait)
    else
      (Window(count, w.start), 0)
  }

  // -----------------------------------------------------------------------
  // Sequences of calls

  /** The state after a sequence of governed calls: the window, the wait of
      each call and the clock when the last call returned. */
  datatype Trace = Trace(window: Window, waits: seq<int>, clock: int)

  /** Calls made `gaps[k]` seconds after the previous call returned (the first
      `gaps[0]` seconds after `clock`). */
  function Run(w: Window, clock: int, gaps: seq<nat>): (r: Trace)
    ensures |r.waits| == |gaps|
    decreases |gaps|
  {
    if gaps == [] then Trace(w, [], clock)
    else
      var before := Run(w, clock, gaps[..|gaps| - 1]);
      var now := before.clock + gaps[|gaps| - 1];
      var (w', wait) := Step(before.window, now);
      Trace(w', before.waits + [wait], now + wait)
  }

  function Sum(gaps: seq<nat>): nat
  {
    if gaps == [] then 0 else Sum(gaps[..|gaps| - 1]) + gaps[|gaps| - 1]
  }

  /** From a valid window whose start is not in the future, every call keeps
      the counter below the ceiling and waits between 0 and 60 seconds, and
      the window never starts after the clock. */
  lemma {:induction false} RunBounded(w: Window, clock: int, gaps: seq<nat>)
    requires ValidWindow(w) && w.start <= clock
    ensures ValidWindow(Run(w, clock, gaps).window)
    ensures Run(w, clock, gaps).window.start <= Run(w, clock, gaps).clock
    ensures forall k :: 0 <= k < |gaps| ==> 0 <= Run(w, clock, gaps).waits[k] <= WindowSeconds
  {
    if gaps != [] {
      var prefix := gaps[..|gaps| - 1];
      RunBounded(w, clock, prefix);
    }
  }

  /** While the ceiling is not reached, calls only count: nothing waits and the
      window keeps its start. */
  lemma {:induction false} RunBelowCeiling(w: Window, clock: int, gaps: seq<nat>)
    requires w.count + |gaps| < MaxCallsPerMinute
    ensures Run(w, clock, gaps).window == Window(w.count + |gaps|, w.start)
    ensures Run(w, clock, gaps).clock == clock + Sum(gaps)
    ensures forall k :: 0 <= k < |gaps| ==> Run(w, clock, gaps).waits[k] == 0
  {
    if gaps != [] {
      RunBelowCeiling(w, clock, gaps[..|gaps| - 1]);
    }
  }

  /** A fresh window that receives 180 calls within `Sum(gaps)` seconds: the
      first 179 calls do not wait, the 180th waits for the rest of the minute
      (60 - Sum(gaps) seconds, or not at all once a minute has passed), and a
      new, empty window starts when it returns. */
  lemma CeilingReached(start: int, gaps: seq<nat>)
    requires |gaps| == MaxCallsPerMinute
    ensures var r := Run(Window(0, start), start, gaps);
      && (forall k :: 0 <= k < MaxCallsPerMinute - 1 ==> r.waits[k] == 0)
      && r.waits[MaxCallsPerMinute - 1] == (if Sum(gaps) < WindowSeconds then WindowSeconds - Sum(gaps) else 0)
      && r.window == Window(0, start + Max(Sum(gaps), WindowSeconds))
  {
    var prefix := gaps[..|gaps| - 1];
    RunBelowCeiling(Window(0, start), start, prefix);
  }

  /** 180 calls in the first 10 seconds of a window: the last one waits 50 seconds. */
  lemma TenSecondBurst(start: int, gaps: seq<nat>)
    requires |gaps| == MaxCallsPerMinute && Sum(gaps) == 10
    ensures Run(Window(0, start), start, gaps).waits[MaxCallsPerMinute - 1] == 50
  {
    CeilingReached(start, gaps);
  }

  /** A clock that has gone back (naive local time at a daylight-saving
      fall-back, or a clock step): at the ceiling the wait is longer than a
      window by exactly the step back. */
  lemma ClockBackWait(w: Window, now: int)
    requires w.count + 1 >= MaxCallsPerMinute && now < w.start
    ensures Step(w, now).1 == WindowSeconds + (w.start - now)
    ensures Step(w, now).1 > WindowSeconds
  {
  }

  /** A run split in two: the second part continues from where the first one
      left the window and the clock. */
  lemma {:induction false} RunAppend(w: Window, clock: int, a: seq<nat>, b: seq<nat>)
    ensures var ra := Run(w, clock, a);
      && Run(w, clock, a + b).window == Run(ra.window, ra.clock, b).window
      && Run(w, clock, a + b).clock == Run(ra.window, ra.clock, b).clock
    decreases |b|
  {
    if b == [] {
      assert a + b == a;
    } else {
      var b' := b[..|b| - 1];
      RunAppend(w, clock, a, b');
      assert (a + b)[..|a + b| - 1] == a + b';
    }
  }

  /** The sum of gaps that are all 0 after the first. */
  lemma {:induction false} SumFirst(gaps: seq<nat>)
    requires |gaps| > 0 && forall k :: 1 <= k < |gaps| ==> gaps[k] == 0
    ensures Sum(gaps) == gaps[0]
    decreases |gaps|
  {
    if |gaps| > 1 {
      SumFirst(gaps[..|gaps| - 1]);
    }
  }

  /** The fixed window lets through twice the ceiling within one second: from
      a fresh window, a first call 59 seconds in and 358 more calls at once.
      Calls 1 to 179 count and return at once, call 180 waits 1 second and
      opens a new window, and calls 181 to 359 count in that new window and
      return at once: the first call returns at `start + 59` and the 359th
      at `start + 60`. */
  lemma FixedWindowBurst(start: int, gaps: seq<nat>)
    requires |gaps| == 2 * MaxCallsPerMinute - 1
    requires gaps[0] == WindowSeconds - 1 && forall k :: 1 <= k < |gaps| ==> gaps[k] == 0
    ensures Run(Window(0, start), start, gaps[..1]).clock == start + WindowSeconds - 1
    ensures Run(Window(0, start), start, gaps).clock == start + WindowSeconds
  {
    var w0 := Window(0, start);
    var first := gaps[..MaxCallsPerMinute - 1];
    var at := gaps[MaxCallsPerMinute - 1 .. MaxCallsPerMinute];
    var rest := gaps[MaxCallsPerMinute..];
    assert gaps == first + at + rest;
    SumFirst(first);
    RunBelowCeiling(w0, start, first);
    var r1 := Run(w0, start, first);
    assert r1.window == Window(MaxCallsPerMinute - 1, start) && r1.clock == start + WindowSeconds - 1;
    RunAppend(w0, start, first, at);
    assert at == [0];
    var r2 := Run(r1.window, r1.clock, at);
    assert r2.window == Window(0, start + WindowSeconds) && r2.clock == start + WindowSeconds;
    RunAppend(w0, start, first + at, rest);
    assert forall k :: 0 <= k < |rest| ==> rest[k] == gaps[MaxCallsPerMinute + k];
    RunBelowCeiling(r2.window, r2.clock, rest);
    if |rest| > 0 {
      SumFirst(rest);
    }
    assert gaps[..1] == [WindowSeconds - 1];
  }

  // -----------------------------------------------------------------------
  // A sliding-window governor: at most 180 calls in any 60 seconds

  /** The time at which a call made at `now` returns, given the return times
      of the earlier calls: when 180 calls have returned before, it waits
      until the 180th-last of them is a full window old. */
  function SlidingStep(times: seq<int>, now: int): (r: int)
    ensures r >= now
    ensures |times| >= MaxCallsPerMinute ==> r >= times[|times| - MaxCallsPerMinute] + WindowSeconds
    ensures |times| < MaxCallsPerMinute ==> r == now
  {
    if |times| < MaxCallsPerMinute then now
    else Max(now, times[|times| - MaxCallsPerMinute] + WindowSeconds)
  }

  /** The return times of `times` followed by those of calls made `gaps[k]`
      seconds after the previous call returned (the first `gaps[0]` seconds
      after `clock`). */
  function SlidingRun(times: seq<int>, clock: int, gaps: seq<nat>): (r: seq<int>)
    ensures |r| == |times| + |gaps| && r[..|times|] == times
    decreases |gaps|
  {
    if gaps == [] then times
    else
      var t := SlidingStep(times, clock + gaps[0]);
      var r := SlidingRun(times + [t], t, gaps[1..]);
      assert r[..|times|] == (r[..|times| + 1])[..|times|];
      r
  }

  /** Return times never go back. */
  predicate Sorted(times: seq<int>)
  {
    forall i :: 0 < i < |times| ==> times[i - 1] <= times[i]
  }

  /** Every call returns at least a window after the call 180 calls before it. */
  predicate Spaced(times: seq<int>)
  {
    forall i :: MaxCallsPerMinute <= i < |times| ==> times[i - MaxCallsPerMinute] + WindowSeconds <= times[i]
  }

  /** The sliding governor keeps the return times sorted and spaced. */
  lemma {:induction false} SlidingSpaced(times: seq<int>, clock: int, gaps: seq<nat>)
    requires Sorted(times) && Spaced(times) && (times != [] ==> times[|times| - 1] <= clock)
    ensures Sorted(SlidingRun(times, clock, gaps)) && Spaced(SlidingRun(times, clock, gaps))
    decreases |gaps|
  {
    if gaps != [] {
      var t := SlidingStep(times, clock + gaps[0]);
      var next := times + [t];
      assert Sorted(next) by {
        forall i | 0 < i < |next| ensures next[i - 1] <= next[i] {
          if i == |times| {
            assert next[i - 1] == times[|times| - 1];
          }
        }
      }
      assert Spaced(next) by {
        forall i | MaxCallsPerMinute <= i < |next|
          ensures next[i - MaxCallsPerMinute] + WindowSeconds <= next[i]
        {
          if i == |times| {
            assert next[i - MaxCallsPerMinute] == times[|times| - MaxCallsPerMinute];
          }
        }
      }
      SlidingSpaced(next, t, gaps[1..]);
    }
  }

  lemma {:induction false} SortedBetween(times: seq<int>, i: nat, j: nat)
    requires Sorted(times) && i <= j < |times|
    ensures times[i] <= times[j]
    decreases j - i
  {
    if i < j {
      SortedBetween(times, i, j - 1);
    }
  }

  /** With the sliding governor, calls that all return within less than a
      window of the first of them are at most 180. */
  lemma SlidingMinute(times: seq<int>, i: nat, j: nat)
    requires Sorted(times) && Spaced(times)
    requires i <= j < |times| && times[j] < times[i] + WindowSeconds
    ensures j - i + 1 <= MaxCallsPerMinute
  {
    if j - i >= MaxCallsPerMinute {
      SortedBetween(times, i + MaxCallsPerMinute, j);
    }
  }

  /** The sliding governor from no earlier calls: any calls that return within
      less than a minute of the first of them are at most 180. */
  lemma SlidingRunMinute(clock: int, gaps: seq<nat>, i: nat, j: nat)
    requires i <= j < |gaps|
    requires SlidingRun([], clock, gaps)[j] < SlidingRun([], clock, gaps)[i] + WindowSeconds
    ensures j - i + 1 <= MaxCallsPerMinute
  {
    SlidingSpaced([], clock, gaps);
    SlidingMinute(SlidingRun([], clock, gaps), i, j);
  }

  // -----------------------------------------------------------------------
  // The governor as the stateful component the source keeps in two globals

  class Governor {
    var count: nat
    var start: int

    ghost predicate Valid()
      reads this
    {
      ValidWindow(Window(count, start))
    }

    /** The state at module load: no calls yet, window started at `now`. */
    constructor (now: int)
      ensures Valid() && count == 0 && start == now
    {
      count := 0;
      start := now;
    }

    /** `rate_limit_check()` called at time `now`; returns the seconds slept. */
    method RecordCall(now: int) returns (wait: int)
      requires Valid()
      modifies this
      ensures Valid()
      ensures (Window(count, start), wait) == Step(Window(old(count), old(start)), now)
    {
      count := count + 1;
      var elapsed := now - start;
      wait := 0;
      if count >= MaxCallsPerMinute {
        if elapsed < WindowSeconds {
          wait := WindowSeconds - elapsed;
        }
        count := 0;
        start := now + wait;
      }
    }
  }
}
