/**
 The analytics result cache: getters answer from a cache entry while it is younger than the
 configured time to live, and otherwise from the current protocol snapshot.
 */
module QueryCache {
  import opened Common

  datatype QueryType = TotalVolume | ActiveSignals | TotalExecutions | AvgSuccessRateBps

  datatype Snapshot = Snapshot(
    totalSignals: nat, activeSignals: nat, totalProviders: nat, totalExecutions: nat,
    totalVolume: int, avgSuccessRateBps: nat, timestamp: nat)

  datatype CachedResult = CachedResult(value: int, cachedAt: nat)

  const DEFAULT_TTL: nat := 300

  /** The queries that have a cached getter. */
  type Query = q: QueryType | q != AvgSuccessRateBps witness TotalVolume

  /** What a getter computes from the snapshot; an absent snapshot counts as all zeros. */
  function Field(s: Option<Snapshot>, q: QueryType): int {
    match s
    case None => 0
    case Some(snap) =>
      match q
      case TotalVolume => snap.totalVolume
      case ActiveSignals => snap.activeSignals
      case TotalExecutions => snap.totalExecutions
      case AvgSuccessRateBps => snap.avgSuccessRateBps
  }

  datatype State = State(
    ttls: map<QueryType, nat>, entries: map<QueryType, CachedResult>, snapshot: Option<Snapshot>, now: nat)

  function Ttl(s: State, q: QueryType): nat {
    if q in s.ttls then s.ttls[q] else DEFAULT_TTL
  }

  function Age(now: nat, at: nat): nat {
    if now < at then 0 else now - at
  }

  /** A hit: caching is on, there is an entry, and it is younger than the current TTL. */
  function Read(s: State, q: QueryType): Option<int> {
    if Ttl(s, q) > 0 && q in s.entries && Age(s.now, s.entries[q].cachedAt) < Ttl(s, q)
    then Some(s.entries[q].value)
    else None
  }

  function Write(s: State, q: QueryType, value: int): State {
    if Ttl(s, q) == 0 then s else s.(entries := s.entries[q := CachedResult(value, s.now)])
  }

  datatype Answer = Answer(next: State, value: int)

  function Get(s: State, q: Query): Answer {
    match Read(s, q)
    case Some(v) => Answer(s, v)
    case None => Answer(Write(s, q, Field(s.snapshot, q)), Field(s.snapshot, q))
  }

  class Analytics {
    var ttls: map<QueryType, nat>
    var entries: map<QueryType, CachedResult>
    var snapshot: Option<Snapshot>

    function At(now: nat): State
      reads this
    {
      State(ttls, entries, snapshot, now)
    }

    constructor ()
      ensures At(0) == State(map[], map[], None, 0)
    {
      ttls, entries, snapshot := map[], map[], None;
    }

    method SetTtl(q: QueryType, ttl: nat)
      modifies this`ttls
      ensures forall now: nat :: At(now) == Step(old(At(now)), SetTtlOp(q, ttl))
    {
      ttls := ttls[q := ttl];
    }

    method GetTtl(q: QueryType) returns (ttl: nat)
      ensures forall now: nat :: ttl == Ttl(At(now), q)
    {
      ttl := if q in ttls then ttls[q] else DEFAULT_TTL;
    }

    method ReadCache(q: QueryType, now: nat) returns (hit: Option<int>)
      ensures hit == Read(At(now), q)
    {
      var ttl := GetTtl(q);
      if ttl == 0 {
        return None;
      }
      if q in entries {
        var cached := entries[q];
        if Age(now, cached.cachedAt) < ttl {
          return Some(cached.value);
        }
      }
      hit := None;
    }

    method WriteCache(q: QueryType, value: int, now: nat)
      modifies this`entries
      ensures At(now) == Write(old(At(now)), q, value)
    {
      var ttl := GetTtl(q);
      assert ttl == Ttl(At(now), q);
      if ttl == 0 {
        return;
      }
      entries := entries[q := CachedResult(value, now)];
    }

    method InvalidateCache(q: QueryType)
      modifies this`entries
      ensures forall now: nat :: At(now) == Step(old(At(now)), Invalidate(q))
    {
      entries := entries - {q};
    }

    method UpdateSnapshot(snap: Snapshot)
      modifies this`snapshot
      ensures forall now: nat :: At(now) == Step(old(At(now)), Update(snap))
    {
      snapshot := Some(snap);
    }

    /** The three cached getters differ only in the field they read. */
    method GetCached(q: Query, now: nat) returns (value: int)
      modifies this`entries
      ensures Answer(At(now), value) == Get(old(At(now)), q)
    {
      var hit := ReadCache(q, now);
      if hit.Some? {
        return hit.value;
      }
      value := match snapshot
        case None => 0
        case Some(snap) =>
          match q
          case TotalVolume => snap.totalVolume
          case ActiveSignals => snap.activeSignals
          case TotalExecutions => snap.totalExecutions;
      WriteCache(q, value, now);
    }
  }

  // ---------- Runs ----------

  datatype Op =
    | Update(snap: Snapshot)
    | SetTtlOp(query: QueryType, ttl: nat)
    | Invalidate(stale: QueryType)
    | Evict(evicted: QueryType)  // the host drops a temporary entry
    | Tick(seconds: nat)
    | GetOp(asked: Query)

  /** What the snapshot was at one ledger time. */
  datatype Moment = Moment(time: nat, snapshot: Option<Snapshot>)

  datatype Trace = Trace(state: State, past: seq<Moment>)

  function Step(s: State, op: Op): State {
    match op
    case Update(snap) => s.(snapshot := Some(snap))
    case SetTtlOp(q, ttl) => s.(ttls := s.ttls[q := ttl])
    case Invalidate(q) => s.(entries := s.entries - {q})
    case Evict(q) => s.(entries := s.entries - {q})
    case Tick(seconds) => s.(now := s.now + seconds)
    case GetOp(q) => Get(s, q).next
  }

  const START := State(map[], map[], None, 0)

  /** The state after a run, and every moment the run went through, the current one last. */
  function Run(ops: seq<Op>): Trace {
    if ops == [] then Trace(START, [Moment(0, None)])
    else
      var before := Run(ops[..|ops| - 1]);
      var s := Step(before.state, ops[|ops| - 1]);
      Trace(s, before.past + [Moment(s.now, s.snapshot)])
  }

  /** The snapshot field really had this value at this time. */
  ghost predicate Had(past: seq<Moment>, q: QueryType, value: int, at: nat) {
    exists i :: 0 <= i < |past| && past[i].time == at && Field(past[i].snapshot, q) == value
  }

  ghost predicate Inv(t: Trace) {
    && t.past != [] && t.past[|t.past| - 1] == Moment(t.state.now, t.state.snapshot)
    && forall q :: q in t.state.entries ==>
         t.state.entries[q].cachedAt <= t.state.now && Had(t.past, q, t.state.entries[q].value, t.state.entries[q].cachedAt)
  }

  lemma HadLater(past: seq<Moment>, m: Moment, q: QueryType, value: int, at: nat)
    requires Had(past, q, value, at)
    ensures Had(past + [m], q, value, at)
  {
    var i :| 0 <= i < |past| && past[i].time == at && Field(past[i].snapshot, q) == value;
    assert (past + [m])[i] == past[i];
  }

  lemma HadNow(t: Trace, q: QueryType)
    requires Inv(t)
    ensures Had(t.past, q, Field(t.state.snapshot, q), t.state.now)
  {
    var last := |t.past| - 1;
    assert t.past[last].time == t.state.now;
  }

  lemma {:induction false} EntriesAreHistoric(ops: seq<Op>)
    ensures Inv(Run(ops))
    decreases |ops|
  {
    if ops != [] {
      var before, op := Run(ops[..|ops| - 1]), ops[|ops| - 1];
      EntriesAreHistoric(ops[..|ops| - 1]);
      var after := Run(ops);
      var m := Moment(after.state.now, after.state.snapshot);
      forall q | q in after.state.entries
        ensures after.state.entries[q].cachedAt <= after.state.now
        ensures Had(after.past, q, after.state.entries[q].value, after.state.entries[q].cachedAt)
      {
        if q in before.state.entries && after.state.entries[q] == before.state.entries[q] {
          HadLater(before.past, m, q, after.state.entries[q].value, after.state.entries[q].cachedAt);
        } else {
          HadNow(before, q);
          HadLater(before.past, m, q, Field(before.state.snapshot, q), before.state.now);
        }
      }
    }
  }

  /**
   Bounded staleness: after every run a getter returns a value the snapshot field really had,
   now or less than the current TTL ago.
   */
  lemma BoundedStaleness(ops: seq<Op>, q: Query)
    ensures var t := Run(ops);
            var v := Get(t.state, q).value;
            || v == Field(t.state.snapshot, q)
            || exists at: nat :: at <= t.state.now < at + Ttl(t.state, q) && Had(t.past, q, v, at)
  {
    EntriesAreHistoric(ops);
    var t := Run(ops);
    if Read(t.state, q).Some? {
      var e := t.state.entries[q];
      assert e.cachedAt <= t.state.now < e.cachedAt + Ttl(t.state, q) && Had(t.past, q, e.value, e.cachedAt);
    }
  }

  /** With a TTL of zero, and right after an invalidation or an eviction, the answer is the current value. */
  lemma FreshAnswers(ops: seq<Op>, q: Query)
    ensures Ttl(Run(ops).state, q) == 0 ==> Get(Run(ops).state, q).value == Field(Run(ops).state.snapshot, q)
    ensures var t := Run(ops + [Invalidate(q)]); Get(t.state, q).value == Field(Run(ops).state.snapshot, q)
    ensures var t := Run(ops + [Evict(q)]); Get(t.state, q).value == Field(Run(ops).state.snapshot, q)
  {
    RunNext(ops, Invalidate(q));
    RunNext(ops, Evict(q));
  }

  /** The field has not changed during the last `window` seconds of the run. */
  ghost predicate Steady(t: Trace, q: QueryType, window: nat) {
    forall i :: 0 <= i < |t.past| && t.state.now < t.past[i].time + window ==>
      Field(t.past[i].snapshot, q) == Field(t.state.snapshot, q)
  }

  /** Consequence: a field that has been steady for one TTL is answered exactly. */
  lemma SteadyFieldIsExact(ops: seq<Op>, q: Query)
    requires Steady(Run(ops), q, Ttl(Run(ops).state, q))
    ensures Get(Run(ops).state, q).value == Field(Run(ops).state.snapshot, q)
  {
    BoundedStaleness(ops, q);
  }

  // ---------- What the settings do to the answers ----------

  lemma RunNext(ops: seq<Op>, op: Op)
    ensures Run(ops + [op]).state == Step(Run(ops).state, op)
  {
    assert (ops + [op])[..|ops|] == ops;
  }

  /**
   A new TTL binds at once, also for values cached under the old one: the next answer is
   current or less than the new TTL old, and the answers to other queries do not change.
   */
  lemma NewTtlBindsAtOnce(ops: seq<Op>, q: Query, ttl: nat, other: Query)
    ensures var t := Run(ops + [SetTtlOp(q, ttl)]);
            var v := Get(t.state, q).value;
            || v == Field(t.state.snapshot, q)
            || exists at: nat :: at <= t.state.now < at + ttl && Had(t.past, q, v, at)
    ensures other != q ==> Get(Run(ops + [SetTtlOp(q, ttl)]).state, other).value == Get(Run(ops).state, other).value
  {
    RunNext(ops, SetTtlOp(q, ttl));
    BoundedStaleness(ops + [SetTtlOp(q, ttl)], q);
  }

  /** A longer TTL only turns misses into hits, a shorter one only hits into misses. */
  lemma LongerTtlKeepsHits(s: State, q: Query, ttl: nat, longer: nat)
    requires ttl <= longer && Read(Step(s, SetTtlOp(q, ttl)), q).Some?
    ensures Read(Step(s, SetTtlOp(q, longer)), q) == Read(Step(s, SetTtlOp(q, ttl)), q)
  {
  }

  /** An invalidation changes no answer but its own. */
  lemma InvalidationIsLocal(ops: seq<Op>, q: QueryType, other: Query)
    requires other != q
    ensures Get(Run(ops + [Invalidate(q)]).state, other).value == Get(Run(ops).state, other).value
  {
    RunNext(ops, Invalidate(q));
  }

  /** An update is visible at once where nothing is cached, and changes no cached answer. */
  lemma UpdateVisibleOnMiss(ops: seq<Op>, snap: Snapshot, q: Query)
    ensures Get(Run(ops + [Update(snap)]).state, q).value
         == if Read(Run(ops).state, q).Some? then Get(Run(ops).state, q).value else Field(Some(snap), q)
  {
    RunNext(ops, Update(snap));
  }

  /**
   After any run, an update and an invalidation: each getter answers its own field of the
   snapshot.  Before the first update all answer 0.
   */
  lemma GettersAnswerTheirField(ops: seq<Op>, snap: Snapshot, q: Query)
    ensures var s := Run(ops + [Update(snap)] + [Invalidate(q)]).state;
            Get(s, q).value == match q
                               case TotalVolume => snap.totalVolume
                               case ActiveSignals => snap.activeSignals
                               case TotalExecutions => snap.totalExecutions
    ensures Run(ops).state.snapshot == None ==> Get(Run(ops + [Invalidate(q)]).state, q).value == 0
  {
    RunNext(ops, Update(snap));
    RunNext(ops + [Update(snap)], Invalidate(q));
    RunNext(ops, Invalidate(q));
  }

  /** Without a configured TTL a value is answered from the cache for 300 seconds. */
  lemma DefaultTtl(s: State, q: QueryType)
    requires q !in s.ttls
    ensures Read(s, q).Some? <==> q in s.entries && s.now < s.entries[q].cachedAt + 300
  {
  }

  /** One answer, an update and a wait. */
  function Wait(q: Query, ttl: nat, first: Snapshot, second: Snapshot, seconds: nat): seq<Op> {
    [] + [SetTtlOp(q, ttl)] + [Update(first)] + [GetOp(q)] + [Update(second)] + [Tick(seconds)]
  }

  lemma WaitState(q: Query, ttl: nat, first: Snapshot, second: Snapshot, seconds: nat)
    requires ttl >= 1
    ensures Run(Wait(q, ttl, first, second, seconds)).state
         == State(map[q := ttl], map[q := CachedResult(Field(Some(first), q), 0)], Some(second), seconds)
  {
    var a := [] + [SetTtlOp(q, ttl)];
    var b := a + [Update(first)];
    var c := b + [GetOp(q)];
    var d := c + [Update(second)];
    RunNext([], SetTtlOp(q, ttl));
    RunNext(a, Update(first));
    RunNext(b, GetOp(q));
    RunNext(c, Update(second));
    RunNext(d, Tick(seconds));
  }

  /**
   The bound is sharp for every query, every TTL and every two snapshots: one second short of
   the TTL the answer is still the old value, and one second later it is the new one.
   */
  lemma StalenessReached(q: Query, ttl: nat, first: Snapshot, second: Snapshot)
    requires ttl >= 1
    ensures Get(Run(Wait(q, ttl, first, second, ttl - 1)).state, q).value == Field(Some(first), q)
    ensures Get(Run(Wait(q, ttl, first, second, ttl)).state, q).value == Field(Some(second), q)
  {
    WaitState(q, ttl, first, second, ttl - 1);
    WaitState(q, ttl, first, second, ttl);
  }
}
