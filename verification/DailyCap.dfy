/**
 The daily execution cap: a per-user counter that is reset when its 24-hour window has
 elapsed.  The windows are fixed, not sliding, so a sliding 24 hours can hold more than the
 cap; the theorems give the exact worst case.
 */
module DailyCap {
  import opened Common

  const WINDOW: nat := 86400
  const U64_MAX: nat := 0xFFFF_FFFF_FFFF_FFFF
  const U32_MAX: nat := 0xFFFF_FFFF

  type Cap = n: nat | n <= U32_MAX

  datatype Counter = Counter(count: nat, windowStart: nat)

  const FRESH := Counter(0, 0)

  function SaturatingAdd(a: nat, b: nat, max: nat): nat {
    if a + b > max then max else a + b
  }

  /** The counter as of `now`: a new window when none was started or the old one has elapsed. */
  function Rolled(c: Counter, now: nat): Counter {
    if c.windowStart == 0 || now >= SaturatingAdd(c.windowStart, WINDOW, U64_MAX) then Counter(0, now) else c
  }

  predicate Allowed(c: Counter, now: nat, cap: Cap) {
    Rolled(c, now).count < cap
  }

  function Recorded(c: Counter, now: nat): Counter {
    var r := Rolled(c, now);
    r.(count := SaturatingAdd(r.count, 1, U32_MAX))
  }

  class DailyCapStore {
    var counters: map<Address, Counter>
    var caps: map<Address, Cap>

    constructor ()
      ensures counters == map[] && caps == map[]
      ensures forall user :: CapOf(user) == 10 && CounterOf(user) == Counter(0, 0)
    {
      counters, caps := map[], map[];
    }

    function CounterOf(user: Address): Counter
      reads this
    {
      if user in counters then counters[user] else FRESH
    }

    function CapOf(user: Address): Cap
      reads this
    {
      if user in caps then caps[user] else 10
    }

    /** The check before a trade; it stores a reset counter. */
    method CheckDailyExecutionCap(user: Address, now: nat) returns (ok: bool)
      modifies this`counters
      ensures ok == Allowed(old(CounterOf(user)), now, CapOf(user))
      ensures CounterOf(user) == Rolled(old(CounterOf(user)), now)
      ensures forall u :: u != user ==> CounterOf(u) == old(CounterOf(u))
    {
      var cap := CapOf(user);
      var c := CounterOf(user);
      if c.windowStart == 0 || now >= SaturatingAdd(c.windowStart, WINDOW, U64_MAX) {
        c := Counter(0, now);
        counters := counters[user := c];
      }
      ok := c.count < cap;
    }

    /** The record after a trade. */
    method RecordExecution(user: Address, now: nat)
      modifies this`counters
      ensures CounterOf(user) == Recorded(old(CounterOf(user)), now)
      ensures forall u :: u != user ==> CounterOf(u) == old(CounterOf(u))
    {
      var c := CounterOf(user);
      if c.windowStart == 0 || now >= SaturatingAdd(c.windowStart, WINDOW, U64_MAX) {
        c := Counter(0, now);
      }
      c := c.(count := SaturatingAdd(c.count, 1, U32_MAX));
      counters := counters[user := c];
    }
  }

  // ---------- Runs ----------

  /** One execution and the start of the counter window it was counted in. */
  datatype Execution = Execution(time: nat, window: nat)

  datatype Trace = Trace(counter: Counter, log: seq<Execution>)

  /** A trade attempt: the check, then the record at the same time; a refused attempt changes nothing. */
  function Attempt(s: Trace, now: nat, cap: Cap): Trace {
    if Allowed(s.counter, now, cap) then
      var c := Recorded(s.counter, now);
      Trace(c, s.log + [Execution(now, c.windowStart)])
    else s
  }

  function Run(times: seq<nat>, cap: Cap): Trace {
    if times == [] then Trace(FRESH, []) else Attempt(Run(times[..|times| - 1], cap), times[|times| - 1], cap)
  }

  /** Ledger time is positive, never goes back, and stays below the largest representable second. */
  ghost predicate Proper(times: seq<nat>) {
    && (forall i :: 0 <= i < |times| ==> 0 < times[i] < 0xFFFF_FFFF_FFFF_FFFF)
    && (forall i, j :: 0 <= i <= j < |times| ==> times[i] <= times[j])
  }

  function InWindow(log: seq<Execution>, w: nat): nat {
    if log == [] then 0 else InWindow(log[..|log| - 1], w) + if log[|log| - 1].window == w then 1 else 0
  }

  /** Executions at times lo <= time < hi. */
  function InSpan(log: seq<Execution>, lo: int, hi: int): nat {
    if log == [] then 0 else InSpan(log[..|log| - 1], lo, hi) + if lo <= log[|log| - 1].time < hi then 1 else 0
  }

  lemma Append(log: seq<Execution>, x: Execution, w: nat, lo: int, hi: int)
    ensures InWindow(log + [x], w) == InWindow(log, w) + if x.window == w then 1 else 0
    ensures InSpan(log + [x], lo, hi) == InSpan(log, lo, hi) + if lo <= x.time < hi then 1 else 0
  {
    assert (log + [x])[..|log|] == log;
  }

  /** Counter windows do not overlap and hold their executions. */
  ghost predicate Windowed(log: seq<Execution>, now: nat) {
    && (forall i :: 0 <= i < |log| ==> 0 < log[i].window <= log[i].time < log[i].window + 86_400 && log[i].time <= now)
    && (forall i, j :: 0 <= i <= j < |log| ==>
          log[i].time <= log[j].time && (log[i].window == log[j].window || log[i].window + 86_400 <= log[j].window))
  }

  ghost predicate Opened(log: seq<Execution>, w: nat) {
    exists k :: 0 <= k < |log| && log[k].window == w && log[k].time == w
  }

  /** Every window opens with an execution. */
  ghost predicate AllOpened(log: seq<Execution>) {
    forall i :: 0 <= i < |log| ==> Opened(log, log[i].window)
  }

  ghost predicate Inv(s: Trace, now: nat, cap: Cap) {
    && Windowed(s.log, now) && AllOpened(s.log)
    && (if s.log == [] then s.counter == FRESH else s.counter.windowStart == s.log[|s.log| - 1].window)
    && s.counter.count == InWindow(s.log, s.counter.windowStart)
    && Capped(s.log, cap)
  }

  lemma AbsentWindow(log: seq<Execution>, w: nat)
    requires forall i :: 0 <= i < |log| ==> log[i].window != w
    ensures InWindow(log, w) == 0
  {
    if log != [] {
      AbsentWindow(log[..|log| - 1], w);
    }
  }

  lemma OpenedAppend(log: seq<Execution>, x: Execution, w: nat)
    requires Opened(log, w) || (x.window == w && x.time == w)
    ensures Opened(log + [x], w)
  {
    var full := log + [x];
    if Opened(log, w) {
      var k :| 0 <= k < |log| && log[k].window == w && log[k].time == w;
      assert full[k] == log[k];
    } else {
      assert full[|log|] == x;
    }
  }

  lemma AllOpenedAppend(log: seq<Execution>, x: Execution)
    requires AllOpened(log) && (Opened(log, x.window) || x.time == x.window)
    ensures AllOpened(log + [x])
  {
    var full := log + [x];
    forall i | 0 <= i < |full| ensures Opened(full, full[i].window) {
      if i < |log| {
        assert Opened(log, log[i].window);
      }
      OpenedAppend(log, x, full[i].window);
    }
  }

  lemma WindowedAppend(log: seq<Execution>, now: nat, x: Execution)
    requires Windowed(log, now) && now <= x.time && 0 < x.window <= x.time < x.window + WINDOW
    requires log != [] ==> var last := log[|log| - 1]; last.window == x.window || last.window + WINDOW <= x.window
    ensures Windowed(log + [x], x.time)
  {
    var full := log + [x];
    forall i, j | 0 <= i <= j < |full|
      ensures full[i].time <= full[j].time && (full[i].window == full[j].window || full[i].window + WINDOW <= full[j].window)
    {
      if i < |log| <= j {
        var last := log[|log| - 1];
        assert log[i].window == last.window || log[i].window + WINDOW <= last.window;
      }
    }
  }

  /** The window an accepted execution is counted in continues the last one or opens a new one. */
  lemma NextExecution(s: Trace, now: nat, later: nat, cap: Cap)
    requires Inv(s, now, cap) && now <= later && 0 < later < U64_MAX
    ensures var w := Rolled(s.counter, later).windowStart;
            && Windowed(s.log + [Execution(later, w)], later) && AllOpened(s.log + [Execution(later, w)])
            && Rolled(s.counter, later).count == InWindow(s.log, w)
  {
    var w := Rolled(s.counter, later).windowStart;
    if s.counter.windowStart != w {
      assert forall i :: 0 <= i < |s.log| ==> s.log[i].window <= s.log[i].time < s.log[i].window + WINDOW;
      if s.log != [] {
        var last := s.log[|s.log| - 1];
        assert forall i :: 0 <= i < |s.log| ==> s.log[i].window <= last.window;
      }
      AbsentWindow(s.log, w);
    } else if s.log != [] {
      assert Opened(s.log, s.log[|s.log| - 1].window);
    }
    WindowedAppend(s.log, now, Execution(later, w));
    AllOpenedAppend(s.log, Execution(later, w));
  }

  ghost predicate Capped(log: seq<Execution>, cap: Cap) {
    forall w :: InWindow(log, w) <= cap
  }

  lemma CappedAppend(log: seq<Execution>, x: Execution, cap: Cap)
    requires Capped(log, cap) && InWindow(log, x.window) < cap
    ensures Capped(log + [x], cap) && InWindow(log + [x], x.window) == InWindow(log, x.window) + 1
  {
    forall v: nat ensures InWindow(log + [x], v) <= cap {
      Append(log, x, v, 0, 0);
    }
    Append(log, x, x.window, 0, 0);
  }

  lemma AcceptedKeepsInv(s: Trace, now: nat, later: nat, cap: Cap)
    requires Inv(s, now, cap) && now <= later && 0 < later < U64_MAX && Allowed(s.counter, later, cap)
    ensures Inv(Attempt(s, later, cap), later, cap)
  {
    var c := Rolled(s.counter, later);
    var x := Execution(later, c.windowStart);
    NextExecution(s, now, later, cap);
    CappedAppend(s.log, x, cap);
    assert Attempt(s, later, cap) == Trace(Counter(c.count + 1, c.windowStart), s.log + [x]);
  }

  lemma AttemptKeepsInv(s: Trace, now: nat, later: nat, cap: Cap)
    requires Inv(s, now, cap) && now <= later && 0 < later < U64_MAX
    ensures Inv(Attempt(s, later, cap), later, cap)
  {
    if Allowed(s.counter, later, cap) {
      AcceptedKeepsInv(s, now, later, cap);
    }
  }

  function LastTime(times: seq<nat>): nat {
    if times == [] then 0 else times[|times| - 1]
  }

  /** No counter window ever holds more executions than the cap. */
  lemma {:induction false} WindowsWithinCap(times: seq<nat>, cap: Cap)
    requires Proper(times)
    ensures Inv(Run(times, cap), LastTime(times), cap)
    decreases |times|
  {
    if times != [] {
      var k := |times| - 1;
      WindowsWithinCap(times[..k], cap);
      AttemptKeepsInv(Run(times[..k], cap), LastTime(times[..k]), times[k], cap);
    }
  }

  lemma WindowBound(times: seq<nat>, cap: Cap, w: nat)
    requires Proper(times)
    ensures InWindow(Run(times, cap).log, w) <= cap
  {
    WindowsWithinCap(times, cap);
  }

  lemma RunWindowed(times: seq<nat>, cap: Cap)
    requires Proper(times)
    ensures Windowed(Run(times, cap).log, LastTime(times)) && AllOpened(Run(times, cap).log)
  {
    WindowsWithinCap(times, cap);
  }

  /**
   In every run an attempt is executed if and only if the cap allows anything at all and no
   window is open, the last one is over, or it holds fewer executions than the cap.
   */
  lemma ExecutedIff(times: seq<nat>, cap: Cap, now: nat)
    requires Proper(times) && 0 < now < U64_MAX && LastTime(times) <= now
    ensures var before, after := Run(times, cap).log, Run(times + [now], cap).log;
            && (after == before || (|after| == |before| + 1 && after[..|before|] == before && after[|before|].time == now))
            && (after != before <==>
                  cap > 0 && (before == [] || now >= before[|before| - 1].window + 86_400
                              || InWindow(before, before[|before| - 1].window) < cap))
  {
    assert (times + [now])[..|times|] == times;
    WindowsWithinCap(times, cap);
  }

  // ---------- Sliding spans ----------

  /** Executions of window w that are not earlier than lo. */
  function Late(log: seq<Execution>, w: nat, lo: int): nat {
    if log == [] then 0 else Late(log[..|log| - 1], w, lo) + if log[|log| - 1].window == w && log[|log| - 1].time >= lo then 1 else 0
  }

  lemma {:induction false} LateWithin(log: seq<Execution>, w: nat, lo: int)
    ensures Late(log, w, lo) <= InWindow(log, w)
    ensures (exists k :: 0 <= k < |log| && log[k].window == w && log[k].time < lo) ==> Late(log, w, lo) < InWindow(log, w)
    decreases |log|
  {
    if log != [] {
      var front, x := log[..|log| - 1], log[|log| - 1];
      LateWithin(front, w, lo);
      if exists k :: 0 <= k < |log| && log[k].window == w && log[k].time < lo {
        var k :| 0 <= k < |log| && log[k].window == w && log[k].time < lo;
        assert k < |front| ==> front[k] == log[k];
      }
    }
  }

  /** A span whose executions all belong to two windows holds no more than those windows do. */
  lemma {:induction false} SpanCount(log: seq<Execution>, lo: int, hi: int, v: nat, w: nat)
    requires forall i :: 0 <= i < |log| && lo <= log[i].time < hi ==> log[i].window == v || log[i].window == w
    ensures InSpan(log, lo, hi) <= Late(log, v, lo) + Late(log, w, lo)
    decreases |log|
  {
    if log != [] {
      SpanCount(log[..|log| - 1], lo, hi, v, w);
    }
  }

  lemma {:induction false} SpanOfOne(log: seq<Execution>, lo: int, hi: int, w: nat)
    requires forall i :: 0 <= i < |log| && lo <= log[i].time < hi ==> log[i].window == w
    ensures InSpan(log, lo, hi) <= Late(log, w, lo)
    decreases |log|
  {
    if log != [] {
      SpanOfOne(log[..|log| - 1], lo, hi, w);
    }
  }

  ghost predicate SpanIn(log: seq<Execution>, lo: int, hi: int, v: nat, w: nat) {
    forall i :: 0 <= i < |log| && lo <= log[i].time < hi ==> log[i].window == v || log[i].window == w
  }

  /** At most 24 hours touch at most two counter windows; they are adjacent when they differ. */
  lemma TwoWindows(log: seq<Execution>, now: nat, lo: int, hi: int) returns (v: nat, w: nat)
    requires Windowed(log, now) && hi <= lo + WINDOW + 1
    ensures SpanIn(log, lo, hi, v, w)
    ensures v != w ==>
      && v + WINDOW <= w && w < hi
      && (exists i :: 0 <= i < |log| && log[i].window == v)
  {
    if i :| 0 <= i < |log| && lo <= log[i].time < hi && (forall k :: 0 <= k < i ==> !(lo <= log[k].time < hi)) {
      v := log[i].window;
      if j :| 0 <= j < |log| && lo <= log[j].time < hi && log[j].window != v {
        w := log[j].window;
        assert i < j;
        assert log[i].window + WINDOW <= log[j].window;
        forall k | 0 <= k < |log| && lo <= log[k].time < hi ensures log[k].window == v || log[k].window == w {
          assert i <= k;
          assert log[i].window == log[k].window || log[i].window + WINDOW <= log[k].window;
          if k <= j {
            assert log[k].window == log[j].window || log[k].window + WINDOW <= log[j].window;
          }
        }
      } else {
        w := v;
      }
    } else {
      v, w := 0, 0;
      NoneInSpan(log, lo, hi);
    }
  }

  lemma NoneInSpan(log: seq<Execution>, lo: int, hi: int)
    requires !exists i :: 0 <= i < |log| && lo <= log[i].time < hi && (forall k :: 0 <= k < i ==> !(lo <= log[k].time < hi))
    ensures forall i :: 0 <= i < |log| ==> !(lo <= log[i].time < hi)
  {
    var n := 0;
    while n < |log|
      invariant 0 <= n <= |log|
      invariant forall k :: 0 <= k < n ==> !(lo <= log[k].time < hi)
    {
      n := n + 1;
    }
  }

  /** Every closed span of 24 hours, both end points included, holds at most twice the cap. */
  lemma ClosedDayHoldsTwiceTheCap(times: seq<nat>, cap: Cap, t: int)
    requires Proper(times)
    ensures InSpan(Run(times, cap).log, t, t + 86_400 + 1) <= 2 * cap
  {
    RunWindowed(times, cap);
    var log := Run(times, cap).log;
    var v, w := TwoWindows(log, LastTime(times), t, t + WINDOW + 1);
    SpanCount(log, t, t + WINDOW + 1, v, w);
    LateWithin(log, v, t);
    LateWithin(log, w, t);
    WindowBound(times, cap, v);
    WindowBound(times, cap, w);
  }

  /** A window that opened before lo keeps at least its opening execution out of a span from lo on. */
  lemma EarlyOpening(log: seq<Execution>, v: nat, lo: int)
    requires AllOpened(log) && v < lo && exists i :: 0 <= i < |log| && log[i].window == v
    ensures Late(log, v, lo) < InWindow(log, v)
  {
    var i :| 0 <= i < |log| && log[i].window == v;
    assert Opened(log, log[i].window);
    var k :| 0 <= k < |log| && log[k].window == v && log[k].time == v;
    LateWithin(log, v, lo);
  }

  /** A half-open day holds one counter window, or two of which the first is not complete. */
  lemma HalfOpenDay(log: seq<Execution>, now: nat, t: int) returns (v: nat, w: nat)
    requires Windowed(log, now) && AllOpened(log)
    ensures InSpan(log, t, t + WINDOW) <= InWindow(log, v) || InSpan(log, t, t + WINDOW) < InWindow(log, v) + InWindow(log, w)
  {
    v, w := TwoWindows(log, now, t, t + WINDOW);
    LateWithin(log, v, t);
    LateWithin(log, w, t);
    if v == w {
      SpanOfOne(log, t, t + WINDOW, v);
    } else {
      SpanCount(log, t, t + WINDOW, v, w);
      EarlyOpening(log, v, t);
    }
  }

  /** Every half-open span of 24 hours holds at most twice the cap minus one. */
  lemma HalfOpenDayHoldsOneLess(times: seq<nat>, cap: Cap, t: int)
    requires Proper(times) && cap >= 1
    ensures InSpan(Run(times, cap).log, t, t + 86_400) <= 2 * cap - 1
  {
    RunWindowed(times, cap);
    var v, w := HalfOpenDay(Run(times, cap).log, LastTime(times), t);
    WindowBound(times, cap, v);
    WindowBound(times, cap, w);
  }

  // ---------- Both bounds are reached ----------

  function Burst(t: nat, n: nat): seq<nat> {
    seq(n, _ => t)
  }

  lemma AcceptedInWindow(s: Trace, t: nat, cap: Cap)
    requires 0 < s.counter.windowStart <= t < s.counter.windowStart + WINDOW && s.counter.count < cap
    requires t + WINDOW < U64_MAX
    ensures Attempt(s, t, cap)
         == Trace(s.counter.(count := s.counter.count + 1), s.log + [Execution(t, s.counter.windowStart)])
  {
  }

  /** The state after n executions at time t in the current window. */
  function Filled(s: Trace, t: nat, n: nat): Trace {
    Trace(s.counter.(count := s.counter.count + n), s.log + seq(n, _ => Execution(t, s.counter.windowStart)))
  }

  /** n attempts in the current window with room for all of them are all executed. */
  lemma {:induction false} BurstAccepted(times: seq<nat>, t: nat, n: nat, cap: Cap)
    requires var c := Run(times, cap).counter; 0 < c.windowStart <= t < c.windowStart + WINDOW && c.count + n <= cap
    requires t + WINDOW < U64_MAX
    ensures Run(times + Burst(t, n), cap) == Filled(Run(times, cap), t, n)
    decreases n
  {
    var s := Run(times, cap);
    if n == 0 {
      assert times + Burst(t, 0) == times;
      assert s.log + seq(0, _ => Execution(t, s.counter.windowStart)) == s.log;
    } else {
      BurstAccepted(times, t, n - 1, cap);
      var all := times + Burst(t, n);
      assert all[..|all| - 1] == times + Burst(t, n - 1);
      AcceptedInWindow(Filled(s, t, n - 1), t, cap);
      assert Filled(s, t, n).log == Filled(s, t, n - 1).log + [Execution(t, s.counter.windowStart)];
    }
  }

  /** The first attempt of a window, at time t, opens it. */
  lemma OpeningAttempt(times: seq<nat>, t: nat, cap: Cap)
    requires cap >= 1 && 0 < t
    requires var c := Run(times, cap).counter; c.windowStart == 0 || (c.windowStart + WINDOW <= t && t < U64_MAX)
    ensures var s := Run(times + [t], cap); s.counter == Counter(1, t) && s.log == Run(times, cap).log + [Execution(t, t)]
  {
    assert (times + [t])[..|times|] == times;
  }

  lemma {:induction false} SpanOfSuffix(log: seq<Execution>, n: nat, lo: int, hi: int)
    requires n <= |log| && forall i :: n <= i < |log| ==> lo <= log[i].time < hi
    ensures InSpan(log, lo, hi) >= |log| - n
    decreases |log|
  {
    if n < |log| {
      SpanOfSuffix(log[..|log| - 1], n, lo, hi);
    }
  }

  /** 1 + n attempts at time t fill a window, starting a new one. */
  lemma FullWindow(times: seq<nat>, t: nat, n: nat, cap: Cap)
    requires 1 + n <= cap && 0 < t && t + WINDOW < U64_MAX
    requires var c := Run(times, cap).counter; c.windowStart == 0 || c.windowStart + WINDOW <= t
    ensures var before, s := Run(times, cap), Run(times + [t] + Burst(t, n), cap);
            && s.counter == Counter(1 + n, t) && |s.log| == |before.log| + 1 + n && s.log[..|before.log|] == before.log
            && forall i :: |before.log| <= i < |s.log| ==> s.log[i].time == t
  {
    OpeningAttempt(times, t, cap);
    BurstAccepted(times + [t], t, n, cap);
    var before, s := Run(times, cap).log, Run(times + [t] + Burst(t, n), cap).log;
    assert s[..|before| + 1] == before + [Execution(t, t)];
    assert s[..|before|] == s[..|before| + 1][..|before|];
    forall i | |before| <= i < |s| ensures s[i].time == t {
      if i == |before| {
        assert s[i] == s[..|before| + 1][i];
      }
    }
  }

  /** A full window at second 1, and another exactly 24 hours later. */
  function FirstDay(cap: Cap): seq<nat>
    requires cap >= 1
  {
    [] + [1] + Burst(1, cap - 1)
  }

  function BothDays(cap: Cap): seq<nat>
    requires cap >= 1
  {
    FirstDay(cap) + [1 + WINDOW] + Burst(1 + WINDOW, cap - 1)
  }

  lemma BothDaysProper(cap: Cap)
    requires cap >= 1
    ensures Proper(BothDays(cap))
  {
  }

  lemma BothDaysLog(cap: Cap)
    requires cap >= 1
    ensures var log := Run(BothDays(cap), cap).log;
            |log| == 2 * cap && forall i :: 0 <= i < |log| ==> 1 <= log[i].time < 1 + WINDOW + 1
  {
    FullWindow([], 1, cap - 1, cap);
    FullWindow(FirstDay(cap), 1 + WINDOW, cap - 1, cap);
    var first, log := Run(FirstDay(cap), cap).log, Run(BothDays(cap), cap).log;
    forall i | 0 <= i < |log| ensures 1 <= log[i].time < 1 + WINDOW + 1 {
      if i < cap {
        assert log[..cap][i] == first[i];
      }
    }
  }

  /** The bound for closed days is reached for every cap. */
  lemma TwiceTheCapIsReached(cap: Cap)
    requires cap >= 1
    ensures Proper(BothDays(cap)) && InSpan(Run(BothDays(cap), cap).log, 1, 1 + 86_400 + 1) == 2 * cap
  {
    BothDaysProper(cap);
    BothDaysLog(cap);
    SpanOfSuffix(Run(BothDays(cap), cap).log, 0, 1, 1 + WINDOW + 1);
    ClosedDayHoldsTwiceTheCap(BothDays(cap), cap, 1);
  }

  /** One execution opens the window; the rest of it comes in its last second, and the next window right after. */
  function AroundMidnight(cap: Cap): seq<nat>
    requires cap >= 1
  {
    [] + [1] + Burst(WINDOW, cap - 1) + [1 + WINDOW] + Burst(1 + WINDOW, cap - 1)
  }

  lemma AroundMidnightLog(cap: Cap)
    requires cap >= 1
    ensures var log := Run(AroundMidnight(cap), cap).log;
            |log| == 2 * cap && forall i :: 1 <= i < |log| ==> WINDOW <= log[i].time < WINDOW + WINDOW
  {
    OpeningAttempt([], 1, cap);
    BurstAccepted([] + [1], WINDOW, cap - 1, cap);
    var before := [] + [1] + Burst(WINDOW, cap - 1);
    FullWindow(before, 1 + WINDOW, cap - 1, cap);
    var first, log := Run(before, cap).log, Run(AroundMidnight(cap), cap).log;
    forall i | 1 <= i < |log| ensures WINDOW <= log[i].time < WINDOW + WINDOW {
      if i < cap {
        assert log[..cap][i] == first[i];
      }
    }
  }

  /** The bound for half-open days is reached for every cap. */
  lemma OneLessIsReached(cap: Cap)
    requires cap >= 1
    ensures Proper(AroundMidnight(cap)) && InSpan(Run(AroundMidnight(cap), cap).log, 86_400, 86_400 + 86_400) == 2 * cap - 1
  {
    AroundMidnightLog(cap);
    SpanOfSuffix(Run(AroundMidnight(cap), cap).log, 1, WINDOW, WINDOW + WINDOW);
    HalfOpenDayHoldsOneLess(AroundMidnight(cap), cap, WINDOW);
  }

  /** The executions of a run in the half-open day that starts at t. */
  function DayCount(times: seq<nat>, cap: Cap, t: int): nat {
    InSpan(Run(times, cap).log, t, t + 86_400)
  }

  /** The cap is really a cap per day: every half-open day of every run holds at most the cap. */
  ghost predicate SlidingCap(cap: Cap) {
    forall times: seq<nat>, t: int :: Proper(times) ==> DayCount(times, cap, t) <= cap
  }

  lemma {:induction false} SpanGrows(log: seq<Execution>, lo: int, hi: int, later: int)
    requires hi <= later
    ensures InSpan(log, lo, hi) <= InSpan(log, lo, later)
    decreases |log|
  {
    if log != [] {
      SpanGrows(log[..|log| - 1], lo, hi, later);
    }
  }

  /** The fixed windows act like a sliding day if and only if the cap is at most one. */
  lemma SlidingCapIff(cap: Cap)
    ensures SlidingCap(cap) <==> cap <= 1
  {
    if cap <= 1 {
      forall times: seq<nat>, t: int | Proper(times) ensures DayCount(times, cap, t) <= cap {
        if cap == 1 {
          HalfOpenDayHoldsOneLess(times, cap, t);
        } else {
          ClosedDayHoldsTwiceTheCap(times, cap, t);
          SpanGrows(Run(times, cap).log, t, t + WINDOW, t + WINDOW + 1);
        }
      }
    } else {
      OneLessIsReached(cap);
      assert DayCount(AroundMidnight(cap), cap, WINDOW) == 2 * cap - 1;
    }
  }

  /** At the last representable second the window limit saturates and every attempt is allowed. */
  lemma LastSecondIsUncapped(c: Counter, cap: Cap)
    requires cap >= 1
    ensures Allowed(c, 0xFFFF_FFFF_FFFF_FFFF, cap)
  {
  }
}
