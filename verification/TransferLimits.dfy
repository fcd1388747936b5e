/**
 Volume and cooldown limits on transfers.  The contract keeps two pruned lists per user, the
 last hour and the last day, and checks the next transfer against their sums.

 The run theorems show that the pruned lists refine the full history, and that sums over
 every sliding hour and day of that history stay within the limits.
 */
module TransferLimits {
  import opened Common
  import opened FixedPoint

  datatype Error =
    | RateLimitPenalty | BelowMinTransfer | CooldownNotElapsed
    | HourlyTransferLimitExceeded | HourlyVolumeLimitExceeded
    | DailyTransferLimitExceeded | DailyVolumeLimitExceeded | GlobalCapacityExceeded

  const HOUR: nat := 3600
  const DAY: nat := 86400

  datatype Limits = Limits(hourlyVolume: int, dailyVolume: int, globalCapacity: nat, minAmount: int, cooldown: nat)

  datatype Transfer = Transfer(time: nat, amount: int)

  datatype History = History(
    lastHour: seq<Transfer>, lastDay: seq<Transfer>, lastTime: nat, violations: nat, penaltyUntil: nat)

  const NO_HISTORY := History([], [], 0, 0, 0)

  /** What the shared fixed-window limiter answers about transfer counts. */
  datatype Counts = Counts(hourlyOk: bool, dailyOk: bool)

  function Ago(now: nat, span: nat): nat {
    if now < span then 0 else now - span
  }

  /** The transfers strictly after `t`. */
  function After(s: seq<Transfer>, t: int): seq<Transfer> {
    if s == [] then []
    else
      var k := |s| - 1;
      After(s[..k], t) + if s[k].time > t then [s[k]] else []
  }

  function Volume(s: seq<Transfer>): int {
    if s == [] then 0 else Volume(s[..|s| - 1]) + s[|s| - 1].amount
  }

  function Pruned(h: History, now: nat): History {
    h.(lastHour := After(h.lastHour, Ago(now, HOUR)), lastDay := After(h.lastDay, Ago(now, DAY)))
  }

  method Filter(s: seq<Transfer>, cutoff: nat) returns (kept: seq<Transfer>)
    ensures kept == After(s, cutoff)
  {
    kept := [];
    for i := 0 to |s|
      invariant kept == After(s[..i], cutoff)
    {
      assert s[..i + 1][..i] == s[..i];
      if s[i].time > cutoff {
        kept := kept + [s[i]];
      }
    }
    assert s[..|s|] == s;
  }

  method PruneOldRecords(h: History, now: nat) returns (r: History)
    ensures r == Pruned(h, now)
  {
    var hour := Filter(h.lastHour, Ago(now, HOUR));
    var day := Filter(h.lastDay, Ago(now, DAY));
    r := h.(lastHour := hour, lastDay := day);
  }

  method SumVolume(s: seq<Transfer>) returns (volume: int)
    ensures volume == Volume(s)
  {
    volume := 0;
    for i := 0 to |s|
      invariant volume == Volume(s[..i])
    {
      assert s[..i + 1][..i] == s[..i];
      volume := volume + s[i].amount;
    }
    assert s[..|s|] == s;
  }

  /** The check, in the order of the contract. */
  function CheckError(l: Limits, h: History, now: nat, amount: int, counts: Counts, globalCount: nat): Option<Error> {
    if h.penaltyUntil > 0 && now < h.penaltyUntil then Some(RateLimitPenalty)
    else if amount < l.minAmount then Some(BelowMinTransfer)
    else if h.lastTime > 0 && Ago(now, h.lastTime) < l.cooldown then Some(CooldownNotElapsed)
    else
      var p := Pruned(h, now);
      if !counts.hourlyOk then Some(HourlyTransferLimitExceeded)
      else if Volume(p.lastHour) + amount > l.hourlyVolume then Some(HourlyVolumeLimitExceeded)
      else if !counts.dailyOk then Some(DailyTransferLimitExceeded)
      else if Volume(p.lastDay) + amount > l.dailyVolume then Some(DailyVolumeLimitExceeded)
      else if globalCount >= l.globalCapacity then Some(GlobalCapacityExceeded)
      else None
  }

  function Recorded(h: History, now: nat, amount: int): History {
    var p := Pruned(h, now);
    p.(lastHour := p.lastHour + [Transfer(now, amount)], lastDay := p.lastDay + [Transfer(now, amount)], lastTime := now)
  }

  function PenaltyFor(violations: nat): nat {
    if violations <= 2 then 3600 else if violations <= 5 then 86400 else if violations <= 10 then 604800 else 2592000
  }

  function Penalised(h: History, now: nat): History {
    h.(violations := h.violations + 1, penaltyUntil := now + PenaltyFor(h.violations + 1))
  }

  class RateLimiter {
    var limits: Limits
    var histories: map<Address, History>
    var whitelist: seq<Address>
    var globalHourlyCount: nat

    constructor (limits: Limits)
      ensures this.limits == limits && histories == map[] && whitelist == [] && globalHourlyCount == 0
    {
      this.limits := limits;
      histories, whitelist, globalHourlyCount := map[], [], 0;
    }

    function HistoryOf(user: Address): History
      reads this
    {
      if user in histories then histories[user] else NO_HISTORY
    }

    method IsWhitelisted(user: Address) returns (found: bool)
      ensures found <==> user in whitelist
    {
      for i := 0 to |whitelist|
        invariant user !in whitelist[..i]
      {
        if whitelist[i] == user {
          return true;
        }
      }
      found := false;
    }

    method CheckRateLimits(user: Address, amount: int, now: nat, counts: Counts) returns (error: Option<Error>)
      ensures error == if user in whitelist then None
                       else CheckError(limits, HistoryOf(user), now, amount, counts, globalHourlyCount)
    {
      var exempt := IsWhitelisted(user);
      if exempt {
        return None;
      }
      var h := HistoryOf(user);
      if h.penaltyUntil > 0 && now < h.penaltyUntil {
        return Some(RateLimitPenalty);
      }
      if amount < limits.minAmount {
        return Some(BelowMinTransfer);
      }
      if h.lastTime > 0 {
        var elapsed := Ago(now, h.lastTime);
        if elapsed < limits.cooldown {
          return Some(CooldownNotElapsed);
        }
      }
      h := PruneOldRecords(h, now);
      if !counts.hourlyOk {
        return Some(HourlyTransferLimitExceeded);
      }
      var hourly := SumVolume(h.lastHour);
      if hourly + amount > limits.hourlyVolume {
        return Some(HourlyVolumeLimitExceeded);
      }
      if !counts.dailyOk {
        return Some(DailyTransferLimitExceeded);
      }
      var daily := SumVolume(h.lastDay);
      if daily + amount > limits.dailyVolume {
        return Some(DailyVolumeLimitExceeded);
      }
      if globalHourlyCount >= limits.globalCapacity {
        return Some(GlobalCapacityExceeded);
      }
      error := None;
    }

    method RecordTransfer(user: Address, amount: int, now: nat)
      modifies this`histories, this`globalHourlyCount
      ensures histories == old(histories)[user := Recorded(old(HistoryOf(user)), now, amount)]
      ensures globalHourlyCount == old(globalHourlyCount) + 1
    {
      var h := HistoryOf(user);
      h := PruneOldRecords(h, now);
      var record := Transfer(now, amount);
      h := h.(lastHour := h.lastHour + [record]);
      h := h.(lastDay := h.lastDay + [record]);
      h := h.(lastTime := now);
      histories := histories[user := h];
      globalHourlyCount := globalHourlyCount + 1;
    }

    method RecordViolation(user: Address, now: nat)
      modifies this`histories
      ensures histories == old(histories)[user := Penalised(old(HistoryOf(user)), now)]
    {
      var h := HistoryOf(user);
      h := h.(violations := h.violations + 1);
      var duration :=
        if 1 <= h.violations <= 2 then 3600
        else if 3 <= h.violations <= 5 then 86400
        else if 6 <= h.violations <= 10 then 604800
        else 2592000;
      h := h.(penaltyUntil := now + duration);
      histories := histories[user := h];
    }
  }

  // ---------- Runs of one user who is never whitelisted ----------

  datatype Op =
    | Attempt(time: nat, requested: int, executed: int, counts: Counts, globalCount: nat)
    | Violation(time: nat)

  /** The stored history, and everything that user ever transferred. */
  datatype Trace = Trace(stored: History, log: seq<Transfer>)

  function Step(l: Limits, s: Trace, op: Op): Trace {
    match op
    case Attempt(now, requested, executed, counts, globalCount) =>
      if CheckError(l, s.stored, now, requested, counts, globalCount).None?
      then Trace(Recorded(s.stored, now, executed), s.log + [Transfer(now, executed)])
      else s
    case Violation(now) => Trace(Penalised(s.stored, now), s.log)
  }

  function Run(l: Limits, ops: seq<Op>): Trace {
    if ops == [] then Trace(NO_HISTORY, []) else Step(l, Run(l, ops[..|ops| - 1]), ops[|ops| - 1])
  }

  /** Ledger time is positive and never goes back; a trade executes at most what was checked, and more than nothing. */
  ghost predicate Proper(ops: seq<Op>) {
    && (forall i :: 0 <= i < |ops| ==> ops[i].time > 0)
    && (forall i, j :: 0 <= i <= j < |ops| ==> ops[i].time <= ops[j].time)
    && (forall i :: 0 <= i < |ops| && ops[i].Attempt? ==> 0 < ops[i].executed <= ops[i].requested)
  }

  ghost predicate Clean(log: seq<Transfer>, now: nat) {
    && (forall i :: 0 <= i < |log| ==> 0 < log[i].time <= now && log[i].amount > 0)
    && (forall i, j :: 0 <= i <= j < |log| ==> log[i].time <= log[j].time)
  }

  lemma AfterAppend(s: seq<Transfer>, x: Transfer, t: int)
    ensures After(s + [x], t) == if x.time > t then After(s, t) + [x] else After(s, t)
    ensures Volume(s + [x]) == Volume(s) + x.amount
  {
    assert (s + [x])[..|s|] == s;
    assert After(s, t) + [] == After(s, t);
  }

  lemma {:induction false} AfterAfter(s: seq<Transfer>, t: int, u: int)
    requires t <= u
    ensures After(After(s, t), u) == After(s, u)
    decreases |s|
  {
    if s != [] {
      var front, x := s[..|s| - 1], s[|s| - 1];
      AfterAfter(front, t, u);
      assert s == front + [x];
      AfterAppend(front, x, t);
      AfterAppend(front, x, u);
      AfterAppend(After(front, t), x, u);
    }
  }

  /** The pruned list is exactly the part of the full history that its window still covers. */
  ghost predicate Refines(list: seq<Transfer>, log: seq<Transfer>, lastTime: nat, span: nat) {
    list == After(log, Ago(lastTime, span))
  }

  ghost predicate Inv(s: Trace, now: nat) {
    && Clean(s.log, now)
    && Refines(s.stored.lastHour, s.log, s.stored.lastTime, HOUR)
    && Refines(s.stored.lastDay, s.log, s.stored.lastTime, DAY)
    && s.stored.lastTime == (if s.log == [] then 0 else s.log[|s.log| - 1].time)
  }

  lemma {:induction false} RecordRefines(list: seq<Transfer>, log: seq<Transfer>, lastTime: nat, now: nat, span: nat, amount: int)
    requires Refines(list, log, lastTime, span) && lastTime <= now && now > 0 && span > 0
    ensures After(list, Ago(now, span)) == After(log, Ago(now, span))
    ensures Refines(After(list, Ago(now, span)) + [Transfer(now, amount)], log + [Transfer(now, amount)], now, span)
  {
    AfterAfter(log, Ago(lastTime, span), Ago(now, span));
    AfterAppend(log, Transfer(now, amount), Ago(now, span));
  }

  function LastTime(ops: seq<Op>): nat {
    if ops == [] then 0 else ops[|ops| - 1].time
  }

  ghost predicate ProperOp(op: Op, now: nat) {
    op.time > 0 && now <= op.time && (op.Attempt? ==> 0 < op.executed <= op.requested)
  }

  lemma CleanAppend(log: seq<Transfer>, now: nat, later: nat, amount: int)
    requires Clean(log, now) && now <= later && later > 0 && amount > 0
    ensures Clean(log, later) && Clean(log + [Transfer(later, amount)], later)
  {
  }

  lemma RecordKeepsInv(s: Trace, now: nat, later: nat, amount: int)
    requires Inv(s, now) && now <= later && later > 0 && amount > 0
    ensures Inv(Trace(Recorded(s.stored, later, amount), s.log + [Transfer(later, amount)]), later)
  {
    CleanAppend(s.log, now, later, amount);
    RecordRefines(s.stored.lastHour, s.log, s.stored.lastTime, later, HOUR, amount);
    RecordRefines(s.stored.lastDay, s.log, s.stored.lastTime, later, DAY, amount);
  }

  lemma StepKeepsInv(l: Limits, s: Trace, op: Op, now: nat)
    requires Inv(s, now) && ProperOp(op, now)
    ensures Inv(Step(l, s, op), op.time)
  {
    assert Inv(s, op.time);
    if op.Attempt? {
      RecordKeepsInv(s, now, op.time, op.executed);
    }
  }

  /** The stored lists refine the full history in every run. */
  lemma {:induction false} StoredListsRefineHistory(l: Limits, ops: seq<Op>)
    requires Proper(ops)
    ensures Inv(Run(l, ops), LastTime(ops))
    decreases |ops|
  {
    if ops != [] {
      var k := |ops| - 1;
      StoredListsRefineHistory(l, ops[..k]);
      StepKeepsInv(l, Run(l, ops[..k]), ops[k], LastTime(ops[..k]));
    }
  }

  // ---------- Sliding windows of the full history ----------

  /** The transfers in the half-open interval (t - span, t]. */
  function Window(s: seq<Transfer>, t: int, span: nat): seq<Transfer> {
    if s == [] then []
    else
      var k := |s| - 1;
      Window(s[..k], t, span) + if t - span < s[k].time <= t then [s[k]] else []
  }

  lemma {:induction false} WindowIsAfter(log: seq<Transfer>, t: int, u: nat, span: nat)
    requires u <= t && Clean(log, u)
    ensures Window(log, t, span) == After(log, t - span)
    decreases |log|
  {
    if log != [] {
      WindowIsAfter(log[..|log| - 1], t, u, span);
    }
  }

  /** A later cutoff never increases the volume of positive transfers. */
  lemma {:induction false} LaterCutoff(log: seq<Transfer>, now: nat, t: int, u: int)
    requires Clean(log, now) && t <= u
    ensures 0 <= Volume(After(log, u)) <= Volume(After(log, t))
    decreases |log|
  {
    if log != [] {
      var front, x := log[..|log| - 1], log[|log| - 1];
      LaterCutoff(front, now, t, u);
      assert log == front + [x];
      AfterAppend(front, x, t);
      AfterAppend(front, x, u);
      AfterAppend(After(front, t), x, 0);
      AfterAppend(After(front, u), x, 0);
    }
  }

  /** All times are positive, so a cutoff below zero is no cutoff. */
  lemma {:induction false} SaturatedCutoff(log: seq<Transfer>, now: nat, span: nat)
    requires Clean(log, now)
    ensures After(log, Ago(now, span)) == After(log, now - span)
    decreases |log|
  {
    if log != [] {
      SaturatedCutoff(log[..|log| - 1], now, span);
    }
  }

  lemma WindowBefore(log: seq<Transfer>, x: Transfer, t: int, span: nat)
    requires t < x.time
    ensures Window(log + [x], t, span) == Window(log, t, span)
  {
    assert (log + [x])[..|log|] == log;
  }

  /** Every sliding window stays within a limit that every accepted transfer respected. */
  ghost predicate WithinLimit(log: seq<Transfer>, span: nat, limit: int) {
    forall t: int :: Volume(Window(log, t, span)) <= Max(limit, 0)
  }

  lemma {:induction false} VolumeWithNext(log: seq<Transfer>, x: Transfer, span: nat)
    requires Clean(log + [x], x.time) && 0 < span && x.time > 0
    ensures Volume(After(log + [x], x.time - span)) == Volume(After(log, Ago(x.time, span))) + x.amount
  {
    SaturatedCutoff(log + [x], x.time, span);
    AfterAppend(log, x, Ago(x.time, span));
    AfterAppend(After(log, Ago(x.time, span)), x, 0);
  }

  lemma {:induction false} LateWindow(log: seq<Transfer>, now: nat, t: int, span: nat)
    requires Clean(log, now) && now <= t
    ensures Volume(Window(log, t, span)) <= Volume(After(log, now - span))
  {
    WindowIsAfter(log, t, now, span);
    LaterCutoff(log, now, now - span, t - span);
  }

  lemma {:induction false} WindowWithNext(log: seq<Transfer>, x: Transfer, t: int, span: nat)
    requires Clean(log + [x], x.time) && 0 < span && 0 < x.time <= t
    ensures Volume(Window(log + [x], t, span)) <= Volume(After(log, Ago(x.time, span))) + x.amount
  {
    VolumeWithNext(log, x, span);
    LateWindow(log + [x], x.time, t, span);
  }

  lemma {:induction false} AcceptedWindow(log: seq<Transfer>, x: Transfer, span: nat, limit: int, t: int)
    requires Clean(log + [x], x.time) && 0 < span && x.time > 0
    requires Volume(After(log, Ago(x.time, span))) + x.amount <= limit
    requires Volume(Window(log, t, span)) <= Max(limit, 0)
    ensures Volume(Window(log + [x], t, span)) <= Max(limit, 0)
  {
    if t < x.time {
      WindowBefore(log, x, t, span);
    } else {
      WindowWithNext(log, x, t, span);
    }
  }

  lemma {:induction false} AcceptedStaysWithin(log: seq<Transfer>, x: Transfer, span: nat, limit: int)
    requires Clean(log + [x], x.time) && WithinLimit(log, span, limit) && 0 < span && x.time > 0
    requires Volume(After(log, Ago(x.time, span))) + x.amount <= limit
    ensures WithinLimit(log + [x], span, limit)
  {
    forall t: int ensures Volume(Window(log + [x], t, span)) <= Max(limit, 0) {
      AcceptedWindow(log, x, span, limit, t);
    }
  }

  /** One accepted transfer against one window: the check summed the refined list. */
  lemma {:induction false} SpanStaysWithin(list: seq<Transfer>, log: seq<Transfer>, lastTime: nat, now: nat, x: Transfer, requested: int, span: nat, limit: int)
    requires Refines(list, log, lastTime, span) && lastTime <= now <= x.time && 0 < x.time && 0 < span
    requires Clean(log, now) && 0 < x.amount <= requested && WithinLimit(log, span, limit)
    requires Volume(After(list, Ago(x.time, span))) + requested <= limit
    ensures WithinLimit(log + [x], span, limit)
  {
    CleanAppend(log, now, x.time, x.amount);
    RecordRefines(list, log, lastTime, x.time, span, x.amount);
    AcceptedStaysWithin(log, x, span, limit);
  }

  lemma {:induction false} StepStaysWithin(l: Limits, s: Trace, op: Op, now: nat)
    requires Inv(s, now) && ProperOp(op, now)
    requires WithinLimit(s.log, HOUR, l.hourlyVolume) && WithinLimit(s.log, DAY, l.dailyVolume)
    ensures WithinLimit(Step(l, s, op).log, HOUR, l.hourlyVolume)
    ensures WithinLimit(Step(l, s, op).log, DAY, l.dailyVolume)
  {
    if op.Attempt? && CheckError(l, s.stored, op.time, op.requested, op.counts, op.globalCount).None? {
      var x := Transfer(op.time, op.executed);
      SpanStaysWithin(s.stored.lastHour, s.log, s.stored.lastTime, now, x, op.requested, HOUR, l.hourlyVolume);
      SpanStaysWithin(s.stored.lastDay, s.log, s.stored.lastTime, now, x, op.requested, DAY, l.dailyVolume);
    }
  }

  /**
   For every run and every instant t, the transfers in (t - 3600, t] and in (t - 86400, t]
   sum to at most the hourly and the daily volume limit.
   */
  lemma {:induction false} VolumeLimitsHold(l: Limits, ops: seq<Op>)
    requires Proper(ops)
    ensures WithinLimit(Run(l, ops).log, 3600, l.hourlyVolume)
    ensures WithinLimit(Run(l, ops).log, 86_400, l.dailyVolume)
    decreases |ops|
  {
    if ops != [] {
      var k := |ops| - 1;
      VolumeLimitsHold(l, ops[..k]);
      StoredListsRefineHistory(l, ops[..k]);
      StepStaysWithin(l, Run(l, ops[..k]), ops[k], LastTime(ops[..k]));
    }
  }

  ghost predicate Apart(log: seq<Transfer>, cooldown: nat) {
    forall i, j :: 0 <= i < j < |log| ==> log[j].time - log[i].time >= cooldown
  }

  lemma StepStaysApart(l: Limits, s: Trace, op: Op, now: nat)
    requires Inv(s, now) && ProperOp(op, now) && Apart(s.log, l.cooldown)
    ensures Apart(Step(l, s, op).log, l.cooldown)
  {
    if s.log != [] {
      var last := s.log[|s.log| - 1];
      assert forall i :: 0 <= i < |s.log| ==> s.log[i].time <= last.time;
    }
  }

  /** Any two transfers of a run are at least the cooldown apart. */
  lemma {:induction false} CooldownHolds(l: Limits, ops: seq<Op>)
    requires Proper(ops)
    ensures Apart(Run(l, ops).log, l.cooldown)
    decreases |ops|
  {
    if ops != [] {
      var k := |ops| - 1;
      CooldownHolds(l, ops[..k]);
      StoredListsRefineHistory(l, ops[..k]);
      StepStaysApart(l, Run(l, ops[..k]), ops[k], LastTime(ops[..k]));
    }
  }

  // ---------- What is accepted ----------

  /** Nothing transferred before, or the last transfer is at least the cooldown ago. */
  ghost predicate Rested(log: seq<Transfer>, now: nat, cooldown: nat) {
    log == [] || now - log[|log| - 1].time >= cooldown
  }

  lemma {:induction false} StoredWindowIsSliding(list: seq<Transfer>, log: seq<Transfer>, lastTime: nat, past: nat, now: nat, span: nat)
    requires Refines(list, log, lastTime, span) && lastTime <= now && past <= now && span > 0 && now > 0 && Clean(log, past)
    ensures After(list, Ago(now, span)) == Window(log, now, span)
  {
    RecordRefines(list, log, lastTime, now, span, 1);
    SaturatedCutoff(log, now, span);
    WindowIsAfter(log, now, now, span);
  }

  /**
   In every run an attempt is accepted if and only if no penalty is in force, the amount is at
   least the minimum, the cooldown is over, the transfers of the last 3600 and 86400 seconds of
   the full history leave room for it, and the counted limits allow it.
   */
  lemma AcceptedIffWithinLimits(l: Limits, ops: seq<Op>, now: nat, requested: int, counts: Counts, globalCount: nat)
    requires Proper(ops) && now > 0 && LastTime(ops) <= now
    ensures var s := Run(l, ops);
            CheckError(l, s.stored, now, requested, counts, globalCount) == None <==>
              && s.stored.penaltyUntil <= now && l.minAmount <= requested && Rested(s.log, now, l.cooldown)
              && Volume(Window(s.log, now, 3600)) + requested <= l.hourlyVolume
              && Volume(Window(s.log, now, 86_400)) + requested <= l.dailyVolume
              && counts.hourlyOk && counts.dailyOk && globalCount < l.globalCapacity
  {
    var s := Run(l, ops);
    StoredListsRefineHistory(l, ops);
    var hour, day := Volume(Window(s.log, now, 3600)), Volume(Window(s.log, now, 86_400));
    assert Volume(Pruned(s.stored, now).lastHour) == hour && Volume(Pruned(s.stored, now).lastDay) == day by {
      StoredSumsAreSliding(s, LastTime(ops), now);
    }
    AcceptedIff(l, s.stored, now, requested, counts, globalCount, hour, day);
  }

  lemma StoredSumsAreSliding(s: Trace, past: nat, now: nat)
    requires Inv(s, past) && past <= now && now > 0
    ensures Pruned(s.stored, now).lastHour == Window(s.log, now, 3600)
    ensures Pruned(s.stored, now).lastDay == Window(s.log, now, 86_400)
  {
    StoredWindowIsSliding(s.stored.lastHour, s.log, s.stored.lastTime, past, now, 3600);
    StoredWindowIsSliding(s.stored.lastDay, s.log, s.stored.lastTime, past, now, 86_400);
  }

  lemma AcceptedIff(l: Limits, h: History, now: nat, requested: int, counts: Counts, globalCount: nat, hour: int, day: int)
    requires h.lastTime <= now && hour == Volume(Pruned(h, now).lastHour) && day == Volume(Pruned(h, now).lastDay)
    ensures CheckError(l, h, now, requested, counts, globalCount) == None <==>
              && h.penaltyUntil <= now && l.minAmount <= requested && (h.lastTime == 0 || now - h.lastTime >= l.cooldown)
              && hour + requested <= l.hourlyVolume && day + requested <= l.dailyVolume
              && counts.hourlyOk && counts.dailyOk && globalCount < l.globalCapacity
  {
  }

  /** A refusal names a limit that really stands in the way. */
  lemma RefusalsTellTheTruth(l: Limits, ops: seq<Op>, now: nat, requested: int, counts: Counts, globalCount: nat)
    requires Proper(ops) && now > 0 && LastTime(ops) <= now
    requires CheckError(l, Run(l, ops).stored, now, requested, counts, globalCount).Some?
    ensures var s := Run(l, ops);
            match CheckError(l, s.stored, now, requested, counts, globalCount).value
            case RateLimitPenalty => now < s.stored.penaltyUntil
            case BelowMinTransfer => requested < l.minAmount
            case CooldownNotElapsed => !Rested(s.log, now, l.cooldown)
            case HourlyTransferLimitExceeded => !counts.hourlyOk
            case HourlyVolumeLimitExceeded => Volume(Window(s.log, now, 3600)) + requested > l.hourlyVolume
            case DailyTransferLimitExceeded => !counts.dailyOk
            case DailyVolumeLimitExceeded => Volume(Window(s.log, now, 86_400)) + requested > l.dailyVolume
            case GlobalCapacityExceeded => globalCount >= l.globalCapacity
  {
    var s := Run(l, ops);
    StoredListsRefineHistory(l, ops);
    var hour, day := Volume(Window(s.log, now, 3600)), Volume(Window(s.log, now, 86_400));
    assert Volume(Pruned(s.stored, now).lastHour) == hour && Volume(Pruned(s.stored, now).lastDay) == day by {
      StoredSumsAreSliding(s, LastTime(ops), now);
    }
    RefusedFor(l, s.stored, now, requested, counts, globalCount, hour, day);
  }

  lemma RefusedFor(l: Limits, h: History, now: nat, requested: int, counts: Counts, globalCount: nat, hour: int, day: int)
    requires h.lastTime <= now && hour == Volume(Pruned(h, now).lastHour) && day == Volume(Pruned(h, now).lastDay)
    requires CheckError(l, h, now, requested, counts, globalCount).Some?
    ensures match CheckError(l, h, now, requested, counts, globalCount).value
            case RateLimitPenalty => now < h.penaltyUntil
            case BelowMinTransfer => requested < l.minAmount
            case CooldownNotElapsed => h.lastTime > 0 && now - h.lastTime < l.cooldown
            case HourlyTransferLimitExceeded => !counts.hourlyOk
            case HourlyVolumeLimitExceeded => hour + requested > l.hourlyVolume
            case DailyTransferLimitExceeded => !counts.dailyOk
            case DailyVolumeLimitExceeded => day + requested > l.dailyVolume
            case GlobalCapacityExceeded => globalCount >= l.globalCapacity
  {
  }

  // ---------- Penalties ----------

  function ViolationsIn(ops: seq<Op>): nat {
    if ops == [] then 0 else ViolationsIn(ops[..|ops| - 1]) + if ops[|ops| - 1].Violation? then 1 else 0
  }

  /** How long the n-th violation keeps a user out: an hour twice, a day three times, a week five times, then thirty days. */
  function PenaltyOf(n: nat): nat {
    if n >= 11 then 30 * 86_400 else if n >= 6 then 7 * 86_400 else if n >= 3 then 86_400 else 3600
  }

  /** The stored penalty is that of the last violation of the run. */
  lemma {:induction false} PenaltyIsOfLast(l: Limits, ops: seq<Op>)
    ensures Run(l, ops).stored.violations == ViolationsIn(ops)
    ensures ops != [] && ops[|ops| - 1].Violation? ==>
      Run(l, ops).stored.penaltyUntil == ops[|ops| - 1].time + PenaltyOf(ViolationsIn(ops))
    ensures ops != [] && !ops[|ops| - 1].Violation? ==>
      Run(l, ops).stored.penaltyUntil == Run(l, ops[..|ops| - 1]).stored.penaltyUntil
    decreases |ops|
  {
    if ops != [] {
      PenaltyIsOfLast(l, ops[..|ops| - 1]);
    }
  }

  /** Penalties only grow: the i-th operation, a violation, binds at every later point of the run. */
  lemma {:induction false} PenaltyLasts(l: Limits, ops: seq<Op>, i: nat)
    requires Proper(ops) && i < |ops| && ops[i].Violation?
    ensures Run(l, ops).stored.penaltyUntil >= ops[i].time + PenaltyOf(ViolationsIn(ops[..i + 1]))
    ensures ViolationsIn(ops[..i + 1]) <= ViolationsIn(ops)
    decreases |ops|
  {
    PenaltyIsOfLast(l, ops);
    var k := |ops| - 1;
    if i == k {
      assert ops[..i + 1] == ops;
    } else {
      var front := ops[..k];
      assert front[..i + 1] == ops[..i + 1];
      PenaltyLasts(l, front, i);
    }
  }

  /** In every run: no transfer before the penalty of an earlier violation is over, and none below the minimum. */
  lemma NoTransferUnderPenalty(l: Limits, ops: seq<Op>, i: nat, op: Op)
    requires Proper(ops + [op]) && op.Attempt? && i < |ops| && ops[i].Violation?
    requires op.time < ops[i].time + PenaltyOf(ViolationsIn(ops[..i + 1]))
    ensures Run(l, ops + [op]) == Run(l, ops)
  {
    var all := ops + [op];
    assert all[..|ops|] == ops;
    assert Proper(ops) by {
      assert forall j :: 0 <= j < |ops| ==> ops[j] == all[j];
    }
    PenaltyLasts(l, ops, i);
  }

  ghost predicate AtLeast(log: seq<Transfer>, ops: seq<Op>, minAmount: int) {
    forall k :: 0 <= k < |log| ==> FromAttempt(log[k], ops, minAmount)
  }

  ghost predicate FromAttempt(x: Transfer, ops: seq<Op>, minAmount: int) {
    exists i :: IsTransferOf(x, ops, i, minAmount)
  }

  ghost predicate IsTransferOf(x: Transfer, ops: seq<Op>, i: int, minAmount: int) {
    0 <= i < |ops| && ops[i].Attempt? && x == Transfer(ops[i].time, ops[i].executed) && ops[i].requested >= minAmount
  }

  lemma AtLeastLater(log: seq<Transfer>, ops: seq<Op>, op: Op, minAmount: int)
    requires AtLeast(log, ops, minAmount)
    ensures AtLeast(log, ops + [op], minAmount)
  {
    forall k | 0 <= k < |log| ensures FromAttempt(log[k], ops + [op], minAmount) {
      assert FromAttempt(log[k], ops, minAmount);
      var i :| IsTransferOf(log[k], ops, i, minAmount);
      assert IsTransferOf(log[k], ops + [op], i, minAmount);
    }
  }

  /** Every transfer of a run is what some attempt executed, and that attempt asked for at least the minimum. */
  lemma {:induction false} TransfersAreAttempts(l: Limits, ops: seq<Op>)
    ensures AtLeast(Run(l, ops).log, ops, l.minAmount)
    decreases |ops|
  {
    if ops != [] {
      var k := |ops| - 1;
      var front, before, after := ops[..k], Run(l, ops[..k]).log, Run(l, ops).log;
      assert ops == front + [ops[k]];
      TransfersAreAttempts(l, front);
      AtLeastLater(before, front, ops[k], l.minAmount);
      if |after| > |before| {
        var x := after[|before|];
        assert IsTransferOf(x, ops, k, l.minAmount) && FromAttempt(x, ops, l.minAmount);
        assert after == before + [x];
      }
    }
  }
}
