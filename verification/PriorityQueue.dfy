/**
 The priority queue of auto-trade actions: stop-losses before take-profits before
 rebalances, and first in first out within a priority.
 */
module PriorityQueue {

  datatype Trigger = StopLoss | TakeProfit | Rebalance

  function Priority(t: Trigger): nat {
    match t
    case StopLoss => 3
    case TakeProfit => 2
    case Rebalance => 1
  }

  datatype Action = Action(id: nat, trigger: Trigger, signalId: nat, enqueuedAt: nat)

  /** a is served before b: higher priority, or the same priority and issued earlier. */
  predicate Before(a: Action, b: Action) {
    Priority(a.trigger) > Priority(b.trigger) || (Priority(a.trigger) == Priority(b.trigger) && a.id < b.id)
  }

  ghost predicate Ordered(q: seq<Action>) {
    forall i, j :: 0 <= i < j < |q| ==> Before(q[i], q[j])
  }

  // ---------- Enqueue and drain ----------

  /** Where a new action goes: in front of the first entry of strictly lower priority. */
  function Position(q: seq<Action>, a: Action): (p: nat)
    ensures p <= |q|
    ensures forall i :: 0 <= i < p ==> Priority(a.trigger) <= Priority(q[i].trigger)
    ensures p < |q| ==> Priority(a.trigger) > Priority(q[p].trigger)
  {
    if q == [] then 0
    else if Priority(a.trigger) > Priority(q[0].trigger) then 0
    else 1 + Position(q[1..], a)
  }

  function Inserted(q: seq<Action>, a: Action): seq<Action> {
    var p := Position(q, a);
    q[..p] + [a] + q[p..]
  }

  class Queue {
    var actions: seq<Action>
    var nextId: nat

    constructor ()
      ensures actions == [] && nextId == 0
    {
      actions, nextId := [], 0;
    }

    /** Rebuilds the list with the new action in its place. */
    method Enqueue(trigger: Trigger, signalId: nat, now: nat) returns (id: nat)
      modifies this
      ensures id == old(nextId) && nextId == old(nextId) + 1
      ensures actions == Inserted(old(actions), Action(id, trigger, signalId, now))
    {
      id := nextId;
      var action := Action(id, trigger, signalId, now);
      var queue := actions;
      var sorted: seq<Action> := [];
      var inserted := false;
      ghost var p := Position(queue, action);
      for i := 0 to |queue|
        invariant inserted <==> p < i
        invariant sorted == if inserted then queue[..p] + [action] + queue[p..i] else queue[..i]
      {
        var existing := queue[i];
        if !inserted && Priority(trigger) > Priority(existing.trigger) {
          assert i == p && queue[p..i] == [];
          sorted := sorted + [action];
          inserted := true;
        }
        sorted := sorted + [existing];
        if inserted {
          assert queue[p..i + 1] == queue[p..i] + [existing];
        }
      }
      if !inserted {
        sorted := sorted + [action];
      }
      actions := sorted;
      nextId := nextId + 1;
    }

    /** Splits off up to `limit` actions from the front. */
    method DrainPriorityBatch(limit: nat) returns (batch: seq<Action>)
      modifies this
      ensures nextId == old(nextId)
      ensures var take := if limit < |old(actions)| then limit else |old(actions)|;
              batch == old(actions)[..take] && actions == old(actions)[take..]
    {
      var queue := actions;
      var take := if limit < |queue| then limit else |queue|;
      batch := [];
      var remaining: seq<Action> := [];
      for i := 0 to |queue|
        invariant i <= take ==> batch == queue[..i] && remaining == []
        invariant i > take ==> batch == queue[..take] && remaining == queue[take..i]
      {
        if i < take {
          batch := batch + [queue[i]];
        } else {
          remaining := remaining + [queue[i]];
        }
      }
      actions := remaining;
    }
  }

  // ---------- Runs ----------

  datatype Op = EnqueueOp(trigger: Trigger, signalId: nat, now: nat) | DrainOp(limit: nat)

  /** The queue, the next id, and the batches drained so far. */
  datatype State = State(queue: seq<Action>, nextId: nat, batches: seq<seq<Action>>)

  function Take(s: State, limit: nat): nat {
    if limit < |s.queue| then limit else |s.queue|
  }

  function Step(s: State, op: Op): State {
    match op
    case EnqueueOp(trigger, signalId, now) =>
      State(Inserted(s.queue, Action(s.nextId, trigger, signalId, now)), s.nextId + 1, s.batches)
    case DrainOp(limit) =>
      State(s.queue[Take(s, limit)..], s.nextId, s.batches + [s.queue[..Take(s, limit)]])
  }

  function Run(ops: seq<Op>): State {
    if ops == [] then State([], 0, []) else Step(Run(ops[..|ops| - 1]), ops[|ops| - 1])
  }

  /** Everything drained, in the order it was drained. */
  function Drained(batches: seq<seq<Action>>): seq<Action> {
    if batches == [] then [] else Drained(batches[..|batches| - 1]) + batches[|batches| - 1]
  }

  ghost predicate IdsBelow(s: seq<Action>, n: nat) {
    forall i :: 0 <= i < |s| ==> s[i].id < n
  }

  lemma InsertKeepsOrder(q: seq<Action>, a: Action)
    requires Ordered(q) && IdsBelow(q, a.id)
    ensures Ordered(Inserted(q, a))
  {
    var p := Position(q, a);
    var r := Inserted(q, a);
    forall i, j | 0 <= i < j < |r| ensures Before(r[i], r[j]) {
      if j == p {
        assert r[i] == q[i];
      } else if i == p {
        assert r[j] == q[j - 1];
        if p < j - 1 {
          assert Before(q[p], q[j - 1]);
        }
      }
    }
  }

  lemma StepKeepsOrder(s: State, op: Op)
    requires Ordered(s.queue) && IdsBelow(s.queue, s.nextId)
    ensures Ordered(Step(s, op).queue) && IdsBelow(Step(s, op).queue, Step(s, op).nextId)
  {
    if op.EnqueueOp? {
      InsertKeepsOrder(s.queue, Action(s.nextId, op.trigger, op.signalId, op.now));
    }
  }

  /** The queue is strictly ordered by priority, then by id, after every interleaving. */
  lemma {:induction false} AlwaysOrdered(ops: seq<Op>)
    ensures Ordered(Run(ops).queue) && IdsBelow(Run(ops).queue, Run(ops).nextId)
    decreases |ops|
  {
    if ops != [] {
      AlwaysOrdered(ops[..|ops| - 1]);
      StepKeepsOrder(Run(ops[..|ops| - 1]), ops[|ops| - 1]);
    }
  }

  /** No drained action is outranked by one that its drain left behind. */
  lemma DrainedOutrankLeft(ops: seq<Op>, limit: nat)
    ensures var s := Run(ops);
            var t := Step(s, DrainOp(limit));
            forall i, j :: 0 <= i < Take(s, limit) && 0 <= j < |t.queue| ==> Before(s.queue[i], t.queue[j])
  {
    AlwaysOrdered(ops);
  }

  /** a may stand before b: stop-losses first, then take-profits, then rebalances, and older ids first within a kind. */
  predicate MayPrecede(a: Action, b: Action) {
    match b.trigger
    case StopLoss => a.trigger == StopLoss && a.id < b.id
    case TakeProfit => a.trigger == StopLoss || (a.trigger == TakeProfit && a.id < b.id)
    case Rebalance => a.trigger != Rebalance || a.id < b.id
  }

  lemma BeforeByTrigger(a: Action, b: Action)
    ensures Before(a, b) <==> MayPrecede(a, b)
  {
  }

  /** After every interleaving stop-losses wait before take-profits and those before rebalances, each kind in order of issue. */
  lemma OrderedByTrigger(ops: seq<Op>, i: nat, j: nat)
    requires i < j < |Run(ops).queue|
    ensures MayPrecede(Run(ops).queue[i], Run(ops).queue[j])
  {
    AlwaysOrdered(ops);
    BeforeByTrigger(Run(ops).queue[i], Run(ops).queue[j]);
  }

  /** A drain splits the queue: a batch from the front, of up to `limit` actions, and the rest, which is empty unless the limit is reached. */
  lemma DrainSplits(s: State, limit: nat) returns (batch: seq<Action>)
    ensures var t := Step(s, DrainOp(limit));
            && t.batches == s.batches + [batch] && t.nextId == s.nextId && batch + t.queue == s.queue
            && |batch| <= limit && (|batch| < limit ==> t.queue == [])
  {
    batch := s.queue[..Take(s, limit)];
  }

  /** Over every run nothing that a drain leaves behind may precede anything it took. */
  lemma DrainsByTrigger(ops: seq<Op>, limit: nat) returns (batch: seq<Action>)
    ensures var t := Step(Run(ops), DrainOp(limit));
            && t.batches == Run(ops).batches + [batch] && batch + t.queue == Run(ops).queue
            && forall i, j :: 0 <= i < |batch| && 0 <= j < |t.queue| ==> MayPrecede(batch[i], t.queue[j])
  {
    var queue := Run(ops).queue;
    batch := DrainSplits(Run(ops), limit);
    var rest := Step(Run(ops), DrainOp(limit)).queue;
    forall i, j | 0 <= i < |batch| && 0 <= j < |rest| ensures MayPrecede(batch[i], rest[j]) {
      OrderedByTrigger(ops, i, |batch| + j);
      assert queue[i] == batch[i] && queue[|batch| + j] == rest[j];
    }
  }

  /** An enqueued action gets the next id and keeps its terms; the others keep their order. */
  lemma EnqueueAdds(ops: seq<Op>, trigger: Trigger, signalId: nat, now: nat) returns (p: nat)
    ensures var s, t := Run(ops), Step(Run(ops), EnqueueOp(trigger, signalId, now));
            && p <= |s.queue| && t.queue == s.queue[..p] + [Action(s.nextId, trigger, signalId, now)] + s.queue[p..]
            && t.nextId == s.nextId + 1 && t.batches == s.batches
  {
    p := Position(Run(ops).queue, Action(Run(ops).nextId, trigger, signalId, now));
  }

  // ---------- Every issued id is in exactly one place ----------

  function Count(s: seq<Action>, id: nat): nat {
    if s == [] then 0 else Count(s[..|s| - 1], id) + if s[|s| - 1].id == id then 1 else 0
  }

  lemma {:induction false} CountConcat(a: seq<Action>, b: seq<Action>, id: nat)
    ensures Count(a + b, id) == Count(a, id) + Count(b, id)
    decreases |b|
  {
    if b == [] {
      assert a + b == a;
    } else {
      assert (a + b)[..|a + b| - 1] == a + b[..|b| - 1];
      CountConcat(a, b[..|b| - 1], id);
    }
  }

  lemma CountAround(u: seq<Action>, a: Action, v: seq<Action>, id: nat)
    ensures Count(u + [a] + v, id) == Count(u + v, id) + if a.id == id then 1 else 0
  {
    CountConcat(u + [a], v, id);
    CountConcat(u, v, id);
    assert (u + [a])[..|u|] == u;
  }

  lemma CountInserted(q: seq<Action>, a: Action, id: nat)
    ensures Count(Inserted(q, a), id) == Count(q, id) + if a.id == id then 1 else 0
  {
    var p := Position(q, a);
    CountAround(q[..p], a, q[p..], id);
    assert q[..p] + q[p..] == q;
  }

  lemma DrainedNext(batches: seq<seq<Action>>, batch: seq<Action>)
    ensures Drained(batches + [batch]) == Drained(batches) + batch
  {
    assert (batches + [batch])[..|batches|] == batches;
  }

  function Occurrences(s: State, id: nat): nat {
    Count(Drained(s.batches), id) + Count(s.queue, id)
  }

  lemma DrainKeepsOccurrences(s: State, limit: nat, id: nat)
    ensures Occurrences(Step(s, DrainOp(limit)), id) == Occurrences(s, id)
  {
    var n := Take(s, limit);
    var batch, rest := s.queue[..n], s.queue[n..];
    DrainedNext(s.batches, batch);
    CountConcat(Drained(s.batches), batch, id);
    CountConcat(batch, rest, id);
    assert batch + rest == s.queue;
  }

  /** Each issued id is pending or in exactly one drained batch, never both and never twice. */
  lemma {:induction false} ExactlyOnce(ops: seq<Op>, id: nat)
    ensures Occurrences(Run(ops), id) == if id < Run(ops).nextId then 1 else 0
    decreases |ops|
  {
    if ops != [] {
      var s, op := Run(ops[..|ops| - 1]), ops[|ops| - 1];
      ExactlyOnce(ops[..|ops| - 1], id);
      match op {
        case EnqueueOp(trigger, signalId, now) =>
          CountInserted(s.queue, Action(s.nextId, trigger, signalId, now), id);
        case DrainOp(limit) =>
          DrainKeepsOccurrences(s, limit, id);
      }
    }
  }

  // ---------- First in, first out within a priority ----------

  /** Among actions of one trigger type, a list that is drained or waiting runs in order of issue. */
  ghost predicate FifoPerTrigger(s: seq<Action>) {
    forall i, j :: 0 <= i < j < |s| && s[i].trigger == s[j].trigger ==> s[i].id < s[j].id
  }

  /** Behind the insertion point everything has strictly lower priority. */
  lemma BehindIsLower(q: seq<Action>, a: Action, k: nat)
    requires Ordered(q) && Position(q, a) <= k < |q|
    ensures q[k].trigger != a.trigger
  {
    var p := Position(q, a);
    if p < k {
      assert Before(q[p], q[k]);
    }
  }

  lemma InsertKeepsFifo(d: seq<Action>, q: seq<Action>, a: Action)
    requires FifoPerTrigger(d + q) && Ordered(q) && IdsBelow(d, a.id) && IdsBelow(q, a.id)
    ensures FifoPerTrigger(d + Inserted(q, a))
  {
    var p := Position(q, a);
    var r, s := d + Inserted(q, a), d + q;
    var n := |d| + p;
    assert r == s[..n] + [a] + s[n..];
    forall k | n <= k < |s| ensures s[k].trigger != a.trigger {
      BehindIsLower(q, a, k - |d|);
    }
    InsertInOrder(s, n, a);
  }

  /** An action with a fresh id may go anywhere behind all others of its trigger type. */
  lemma InsertInOrder(s: seq<Action>, n: nat, a: Action)
    requires FifoPerTrigger(s) && IdsBelow(s, a.id) && n <= |s|
    requires forall k :: n <= k < |s| ==> s[k].trigger != a.trigger
    ensures FifoPerTrigger(s[..n] + [a] + s[n..])
  {
    var r := s[..n] + [a] + s[n..];
    forall k | n < k < |r| ensures r[k] == s[k - 1] && r[k].trigger != a.trigger {
    }
    forall i, j | 0 <= i < j < |r| && r[i].trigger == r[j].trigger ensures r[i].id < r[j].id {
      if i != n && j != n {
        var i', j' := if i < n then i else i - 1, if j < n then j else j - 1;
        assert r[i] == s[i'] && r[j] == s[j'];
      }
    }
  }

  lemma IdsBelowNext(ops: seq<Op>)
    ensures IdsBelow(Drained(Run(ops).batches), Run(ops).nextId)
    decreases |ops|
  {
    if ops != [] {
      var k := |ops| - 1;
      IdsBelowNext(ops[..k]);
      AlwaysOrdered(ops[..k]);
      if ops[k].DrainOp? {
        var s := Run(ops[..k]);
        DrainedNext(s.batches, s.queue[..Take(s, ops[k].limit)]);
      }
    }
  }

  lemma DrainKeepsFifo(s: State, limit: nat)
    ensures var t := Step(s, DrainOp(limit)); Drained(t.batches) + t.queue == Drained(s.batches) + s.queue
  {
    var n := Take(s, limit);
    DrainedNext(s.batches, s.queue[..n]);
    assert s.queue[..n] + s.queue[n..] == s.queue;
    assert (Drained(s.batches) + s.queue[..n]) + s.queue[n..] == Drained(s.batches) + (s.queue[..n] + s.queue[n..]);
  }

  /** Over a whole run each trigger type is drained in order of issue, and what waits comes after what was drained. */
  lemma {:induction false} DrainsInOrder(ops: seq<Op>)
    ensures FifoPerTrigger(Drained(Run(ops).batches) + Run(ops).queue)
    decreases |ops|
  {
    if ops != [] {
      var s, op := Run(ops[..|ops| - 1]), ops[|ops| - 1];
      DrainsInOrder(ops[..|ops| - 1]);
      match op {
        case EnqueueOp(trigger, signalId, now) =>
          AlwaysOrdered(ops[..|ops| - 1]);
          IdsBelowNext(ops[..|ops| - 1]);
          InsertKeepsFifo(Drained(s.batches), s.queue, Action(s.nextId, trigger, signalId, now));
        case DrainOp(limit) =>
          DrainKeepsFifo(s, limit);
      }
    }
  }
}
