/**
 The fixed-window limit check over the dumb counter: one counter per window of `period` seconds,
 keyed by the window's start, armed for `period` seconds by the first call that touches it. A call
 reads the clock, which fixes its window, and increments the counter at some later instant. Calls
 are given in the order of their increments, instants in epoch milliseconds.
 */
module FixedWindow {
  import opened Basics
  import opened Counters

  datatype Limit = Limit(backend: Backend, limit: nat, period: nat) {
    predicate Valid() { 0 < period }
  }

  datatype Decision = Decision(count: int, limited: bool, retryAfter: int)

  /** The start, in seconds, of the window an instant falls in. */
  function Window(l: Limit, now: nat): nat
    requires l.Valid()
  {
    var seconds := now / 1000;
    seconds - seconds % l.period
  }

  function Decide(l: Limit, count: int, now: nat): Decision
    requires l.Valid()
  {
    if count <= l.limit then Decision(count, false, 0)
    else Decision(count, true, l.period - (now / 1000 - Window(l, now)))
  }

  /** A call's clock read and its increment. */
  datatype Call = Call(read: nat, at: nat)

  /** `increment_and_check`: the counters after the call, and its answer. */
  function Checked(l: Limit, m: map<nat, Cell>, c: Call): (map<nat, Cell>, Decision)
    requires l.Valid()
  {
    var w := Window(l, c.read);
    var n := Bump(l.backend, m, w, 1, Some(l.period), c.at);
    (n, Decide(l, n[w].count, c.read))
  }

  function After(l: Limit, calls: seq<Call>): map<nat, Cell>
    requires l.Valid()
  {
    if calls == [] then map[] else Checked(l, After(l, calls[..|calls| - 1]), calls[|calls| - 1]).0
  }

  /** Whether the last call of a run was let through. */
  predicate LastPasses(l: Limit, calls: seq<Call>)
    requires l.Valid() && calls != []
  {
    !Checked(l, After(l, calls[..|calls| - 1]), calls[|calls| - 1]).1.limited
  }

  function CallsIn(l: Limit, calls: seq<Call>, window: nat): nat
    requires l.Valid()
  {
    if calls == [] then 0
    else CallsIn(l, calls[..|calls| - 1], window) + if Window(l, calls[|calls| - 1].read) == window then 1 else 0
  }

  /** How many calls of the run that read the clock in [from, until) were let through. */
  function PassesBetween(l: Limit, calls: seq<Call>, from: nat, until: nat): nat
    requires l.Valid()
  {
    if calls == [] then 0
    else PassesBetween(l, calls[..|calls| - 1], from, until) +
         if from <= calls[|calls| - 1].read < until && LastPasses(l, calls) then 1 else 0
  }

  function PassesIn(l: Limit, calls: seq<Call>, window: nat): nat
    requires l.Valid()
  {
    if calls == [] then 0
    else PassesIn(l, calls[..|calls| - 1], window) +
         if Window(l, calls[|calls| - 1].read) == window && LastPasses(l, calls) then 1 else 0
  }

  // ---- arithmetic of windows -------------------------------------------------------------

  lemma WindowBounds(l: Limit, now: nat)
    requires l.Valid()
    ensures Window(l, now) * 1000 <= now < (Window(l, now) + l.period) * 1000
    ensures Window(l, now) == (now / 1000) / l.period * l.period
  {
    var s := now / 1000;
    assert s == s / l.period * l.period + s % l.period;
  }

  /** A span of one period meets at most two windows, and they are neighbours. */
  lemma SpanMeetsTwoWindows(l: Limit, from: nat, now: nat)
    requires l.Valid() && from <= now < from + l.period * 1000
    ensures Window(l, now) == Window(l, from) || Window(l, now) == Window(l, from) + l.period
  {
    WindowBounds(l, from);
    WindowBounds(l, now);
    var a, b := from / 1000 / l.period, now / 1000 / l.period;
    NeighbouringMultiples(a, b, l.period, from / 1000, now / 1000);
  }

  lemma NeighbouringMultiples(a: nat, b: nat, p: nat, s: nat, t: nat)
    requires a * p <= s < a * p + p && b * p <= t < b * p + p && s <= t <= s + p
    ensures b * p == a * p || b * p == a * p + p
  {
    if b < a {
      MultiplesApart(b, a, p);
    } else if a + 1 < b {
      MultiplesApart(a, a + 1, p);
      MultiplesApart(a + 1, b, p);
    } else if a + 1 == b {
      assert b * p == a * p + p;
    }
  }

  lemma MultiplesApart(x: nat, y: nat, p: nat)
    requires x < y
    ensures x * p + p <= y * p
  {
    assert (y - x - 1) * p >= 0;
    assert y * p == x * p + p + (y - x - 1) * p;
  }

  // ---- the counter's life -------------------------------------------------------------------

  /** When the window's counter was started: its first increment. */
  function FirstAt(l: Limit, calls: seq<Call>, window: nat): Option<nat>
    requires l.Valid()
  {
    if calls == [] then None
    else
      var first, c := FirstAt(l, calls[..|calls| - 1], window), calls[|calls| - 1];
      if first.Some? then first else if Window(l, c.read) == window then Some(c.at) else None
  }

  /** The call's increment finds the counter its window's first increment started, or starts it. */
  predicate Caught(l: Limit, before: seq<Call>, c: Call)
    requires l.Valid()
  {
    var first := FirstAt(l, before, Window(l, c.read));
    first.None? || Alive(l.backend, Cell(1, Some(first.value + l.period * 1000)), c.at)
  }

  predicate InTime(l: Limit, calls: seq<Call>)
    requires l.Valid()
  {
    calls == [] ||
    (InTime(l, calls[..|calls| - 1]) && Caught(l, calls[..|calls| - 1], calls[|calls| - 1]))
  }

  /** The window counter holds exactly the calls made in its window, on the first one's deadline. */
  ghost predicate Tallied(l: Limit, m: map<nat, Cell>, calls: seq<Call>, window: nat)
    requires l.Valid()
  {
    var first := FirstAt(l, calls, window);
    if first.None? then window !in m && CallsIn(l, calls, window) == 0
    else window in m && m[window] == Cell(CallsIn(l, calls, window), Some(first.value + l.period * 1000)) &&
         0 < CallsIn(l, calls, window)
  }

  /** One counter a window, for as long as its calls keep finding it. */
  lemma {:induction false} CounterTallies(l: Limit, calls: seq<Call>, window: nat)
    requires l.Valid() && InTime(l, calls)
    ensures Tallied(l, After(l, calls), calls, window)
  {
    if calls == [] {
    } else {
      CounterTallies(l, calls[..|calls| - 1], window);
    }
  }

  /**
   The count a call gets is its rank among the calls of its window if and only if its increment
   still finds the window's counter; a later one starts the count again.
   */
  lemma CountIsRankIff(l: Limit, front: seq<Call>, c: Call)
    requires l.Valid() && InTime(l, front)
    ensures var count := Checked(l, After(l, front), c).1.count;
            && (count == CallsIn(l, front, Window(l, c.read)) + 1 <==> Caught(l, front, c))
            && (!Caught(l, front, c) ==> count == 1)
  {
    CounterTallies(l, front, Window(l, c.read));
  }

  // ---- how much delay a window tolerates --------------------------------------------------------

  /** How late after its clock read a call may increment, given how far into the window the first one did. */
  function Tolerance(l: Limit, offset: nat): nat { if l.backend.Memory? then offset + 1 else offset }

  /**
   Exactly how much delay between clock read and increment the window tolerates: every call of the
   window delayed by at most `delay` finds its counter if and only if `delay` is no more than how
   far into the window the counter was started (memory counters, live at their deadline, allow a
   millisecond more).
   */
  lemma DelayToleratedIff(l: Limit, before: seq<Call>, start: nat, first: nat, delay: nat)
    requires l.Valid() && Window(l, start * 1000) == start && start * 1000 <= first
    requires FirstAt(l, before, start) == Some(first)
    ensures (forall c: Call :: Window(l, c.read) == start && c.at <= c.read + delay ==> Caught(l, before, c)) <==>
            delay <= Tolerance(l, first - start * 1000)
  {
    if delay <= Tolerance(l, first - start * 1000) {
      forall c: Call | Window(l, c.read) == start && c.at <= c.read + delay ensures Caught(l, before, c) {
        WindowBounds(l, c.read);
      }
    } else {
      var read := (start + l.period) * 1000 - 1;
      LastInstant(l, start);
      assert !Caught(l, before, Call(read, read + delay));
    }
  }

  /** The window's last millisecond is still its own. */
  lemma LastInstant(l: Limit, start: nat)
    requires l.Valid() && Window(l, start * 1000) == start
    ensures Window(l, (start + l.period) * 1000 - 1) == start
  {
    WindowBounds(l, start * 1000);
    var read := (start + l.period) * 1000 - 1;
    WindowBounds(l, read);
    var a, b := start / l.period, read / 1000 / l.period;
    assert read / 1000 == start + l.period - 1;
    NeighbouringMultiples(a, b, l.period, start, start + l.period - 1);
  }

  lemma {:induction false} FirstIsInWindow(l: Limit, calls: seq<Call>, window: nat)
    requires l.Valid() && forall i :: 0 <= i < |calls| ==> calls[i].read <= calls[i].at
    ensures FirstAt(l, calls, window).Some? ==> window * 1000 <= FirstAt(l, calls, window).value
  {
    if calls == [] {
    } else {
      FirstIsInWindow(l, calls[..|calls| - 1], window);
      WindowBounds(l, calls[|calls| - 1].read);
    }
  }

  /** Calls that increment at the instant they read the clock are always in time. */
  lemma {:induction false} PromptIsInTime(l: Limit, calls: seq<Call>)
    requires l.Valid() && forall i :: 0 <= i < |calls| ==> calls[i].at == calls[i].read
    ensures InTime(l, calls)
  {
    if calls == [] {
    } else {
      var front, c := calls[..|calls| - 1], calls[|calls| - 1];
      PromptIsInTime(l, front);
      FirstIsInWindow(l, front, Window(l, c.read));
      WindowBounds(l, c.read);
    }
  }

  // ---- the bounds ------------------------------------------------------------------------------

  /** Exactly the first `limit` calls of each window pass. */
  lemma {:induction false} WindowBound(l: Limit, calls: seq<Call>, window: nat)
    requires l.Valid() && InTime(l, calls)
    ensures PassesIn(l, calls, window) == Min(CallsIn(l, calls, window), l.limit)
  {
    if calls == [] {
    } else {
      WindowBound(l, calls[..|calls| - 1], window);
      CountIsRankIff(l, calls[..|calls| - 1], calls[|calls| - 1]);
    }
  }

  /** A call that comes too late for its counter passes beyond the limit. */
  lemma LateCallExceeds(l: Limit, front: seq<Call>, c: Call)
    requires l.Valid() && InTime(l, front) && !Caught(l, front, c)
    requires 0 < l.limit <= CallsIn(l, front, Window(l, c.read))
    ensures PassesIn(l, front + [c], Window(l, c.read)) == l.limit + 1
  {
    WindowBound(l, front, Window(l, c.read));
    CountIsRankIff(l, front, c);
    assert (front + [c])[..|front|] == front;
  }

  lemma {:induction false} SpanWithinWindows(l: Limit, calls: seq<Call>, from: nat)
    requires l.Valid()
    ensures PassesBetween(l, calls, from, from + l.period * 1000) <=
            PassesIn(l, calls, Window(l, from)) + PassesIn(l, calls, Window(l, from) + l.period)
  {
    if calls == [] {
    } else {
      SpanWithinWindows(l, calls[..|calls| - 1], from);
      var read := calls[|calls| - 1].read;
      if from <= read < from + l.period * 1000 {
        SpanMeetsTwoWindows(l, from, read);
      }
    }
  }

  /** Any span of `period` seconds, wherever it starts, lets through at most twice the limit. */
  lemma SpanBound(l: Limit, calls: seq<Call>, from: nat)
    requires l.Valid() && InTime(l, calls)
    ensures PassesBetween(l, calls, from, from + l.period * 1000) <= 2 * l.limit
  {
    SpanWithinWindows(l, calls, from);
    WindowBound(l, calls, Window(l, from));
    WindowBound(l, calls, Window(l, from) + l.period);
  }

  /** A limited call is told to come back exactly when the next window starts, where it may pass. */
  lemma RetryIsNextWindow(l: Limit, m: map<nat, Cell>, c: Call)
    requires l.Valid() && Checked(l, m, c).1.limited
    ensures var next := (c.read / 1000 + Checked(l, m, c).1.retryAfter) * 1000;
            next == (Window(l, c.read) + l.period) * 1000 && c.read < next &&
            Window(l, next) == Window(l, c.read) + l.period
  {
    WindowBounds(l, c.read);
    var q := c.read / 1000 / l.period;
    assert (q + 1) * l.period == q * l.period + l.period;
    WindowStartIsItsOwn(l, q + 1);
  }

  lemma WindowStartIsItsOwn(l: Limit, k: nat)
    requires l.Valid()
    ensures Window(l, k * l.period * 1000) == k * l.period
  {
    var start := k * l.period;
    WindowBounds(l, start * 1000);
    var b := start / l.period;
    if b < k {
      MultiplesApart(b, k, l.period);
    } else if k < b {
      MultiplesApart(k, b, l.period);
    }
  }
}
