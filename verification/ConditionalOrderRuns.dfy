/** Properties of conditional orders over every run of creations, cancellations, checks and executions. */
module ConditionalOrderRuns {
  import opened Common
  import opened ConditionalOrders

  datatype Op =
    | CreateOrder(request: Request, market: Market)
    | CancelOrder(id: nat, user: Address)
    | CheckOrders(at: Market)
    | ExecuteOrder(executed: nat)

  function Step(b: Book, op: Op): Outcome {
    match op
    case CreateOrder(r, m) => (match Create(b, r, m) case Ok(c) => Outcome(c, []) case Err(_) => Outcome(b, []))
    case CancelOrder(id, user) => (match Cancel(b, id, user) case Ok(c) => Outcome(c, []) case Err(_) => Outcome(b, []))
    case CheckOrders(m) => CheckAll(b, m)
    case ExecuteOrder(id) => (match MarkExecuted(b, id) case Ok(c) => Outcome(c, []) case Err(_) => Outcome(b, []))
  }

  /** The book after a run, and every id that any check of the run returned. */
  function Run(ops: seq<Op>): Outcome {
    if ops == [] then Outcome(EMPTY, [])
    else
      var before := Run(ops[..|ops| - 1]);
      var last := Step(before.book, ops[|ops| - 1]);
      Outcome(last.book, before.triggered + last.triggered)
  }

  // ---------- The index ----------

  lemma {:induction false} SelectIncreasing(ids: seq<nat>, orders: map<nat, Order>, m: Market, status: Status)
    requires Increasing(ids)
    ensures Increasing(Select(ids, orders, m, status))
    decreases |ids|
  {
    if ids != [] {
      var k := |ids| - 1;
      SelectIncreasing(ids[..k], orders, m, status);
      SelectSubset(ids[..k], orders, m, status);
      var rest := Select(ids[..k], orders, m, status);
      forall i | 0 <= i < |rest| ensures rest[i] < ids[k] {
        assert rest[i] in ids[..k];
      }
    }
  }

  lemma {:induction false} WithoutFacts(s: seq<nat>, id: nat)
    requires Increasing(s)
    ensures Increasing(Without(s, id))
    ensures forall x :: x in Without(s, id) <==> x in s && x != id
    decreases |s|
  {
    if s != [] {
      WithoutFacts(s[1..], id);
      assert forall x :: x in s <==> x == s[0] || x in s[1..];
      if s[0] == id {
        assert forall x :: x in s[1..] ==> x > id;
      } else {
        var w := Without(s, id);
        assert forall x :: x in w <==> x == s[0] || x in Without(s[1..], id);
        forall i, j | 0 <= i < j < |w| ensures w[i] < w[j] {
          if i == 0 {
            assert w[j] == Without(s[1..], id)[j - 1];
            assert w[j] in s[1..];
          }
        }
      }
    }
  }

  lemma CreateKeepsValid(b: Book, r: Request, m: Market)
    requires Valid(b) && Create(b, r, m).Ok?
    ensures Valid(Create(b, r, m).value)
  {
    var c := Create(b, r, m).value;
    assert c.counter !in b.active;
    assert forall x :: x in c.active <==> x in b.active || x == c.counter;
    forall i | 0 <= i < |b.active| ensures b.active[i] < c.counter {
      assert b.active[i] in b.active;
    }
  }

  lemma CancelKeepsValid(b: Book, id: nat, user: Address)
    requires Valid(b) && Cancel(b, id, user).Ok?
    ensures Valid(Cancel(b, id, user).value)
  {
    WithoutFacts(b.active, id);
  }

  lemma CheckKeepsValid(b: Book, m: Market)
    requires Valid(b)
    ensures Valid(CheckAll(b, m).book)
  {
    SelectIncreasing(b.active, b.orders, m, Pending);
    SelectSubset(b.active, b.orders, m, Pending);
  }

  lemma StepKeepsValid(b: Book, op: Op)
    requires Valid(b)
    ensures Valid(Step(b, op).book)
  {
    match op {
      case CreateOrder(r, m) =>
        if Create(b, r, m).Ok? {
          CreateKeepsValid(b, r, m);
        }
      case CancelOrder(id, user) =>
        if Cancel(b, id, user).Ok? {
          CancelKeepsValid(b, id, user);
        }
      case CheckOrders(m) =>
        CheckKeepsValid(b, m);
      case ExecuteOrder(id) =>
    }
  }

  /** In every reachable state the index is duplicate-free, in creation order, and equals the pending orders. */
  lemma {:induction false} AlwaysValid(ops: seq<Op>)
    ensures Valid(Run(ops).book)
    decreases |ops|
  {
    if ops != [] {
      AlwaysValid(ops[..|ops| - 1]);
      StepKeepsValid(Run(ops[..|ops| - 1]).book, ops[|ops| - 1]);
    }
  }

  // ---------- What a check returns ----------

  lemma DueIsTriggered(o: Order, m: Market)
    ensures o.status == Pending && Checked(o, m).status == Triggered <==> Due(o, m)
  {
  }

  /** A check in a reachable state returns exactly the due orders, in creation order. */
  lemma CheckReturnsDueOrders(ops: seq<Op>, m: Market)
    ensures var b := Run(ops).book;
            && (forall id :: id in CheckAll(b, m).triggered <==> id in b.orders && Due(b.orders[id], m))
            && Increasing(CheckAll(b, m).triggered)
  {
    var b := Run(ops).book;
    AlwaysValid(ops);
    SelectSubset(b.active, b.orders, m, Triggered);
    SelectIncreasing(b.active, b.orders, m, Triggered);
    forall id | id in b.orders
      ensures id in b.active && Checked(b.orders[id], m).status == Triggered <==> Due(b.orders[id], m)
    {
      DueIsTriggered(b.orders[id], m);
    }
  }

  // ---------- Lifecycle ----------

  predicate Follows(a: Status, b: Status) {
    || a == b
    || (a == Pending && (b == Triggered || b == Expired || b == Cancelled))
    || (a == Triggered && b == Executed)
  }

  predicate Reaches(a: Status, b: Status) {
    Follows(a, b) || (a == Pending && b == Executed)
  }

  /** Everything the user asked for stays as it was; only the status and the tracked trough may change. */
  ghost predicate SameTerms(o: Order, p: Order) {
    p == o.(status := p.status, troughPrice := p.troughPrice)
  }

  lemma StepFollows(b: Book, op: Op, id: nat)
    requires Valid(b) && id in b.orders
    ensures var c := Step(b, op).book;
            id in c.orders && Follows(b.orders[id].status, c.orders[id].status) && SameTerms(b.orders[id], c.orders[id])
  {
  }

  /** The book after further operations. */
  function Continue(b: Book, ops: seq<Op>): Book {
    if ops == [] then b else Step(Continue(b, ops[..|ops| - 1]), ops[|ops| - 1]).book
  }

  /** From any reachable book on, an order only moves forward in its lifecycle and keeps its terms. */
  lemma {:induction false} LifecycleMovesForward(b: Book, ops: seq<Op>, id: nat)
    requires Valid(b) && id in b.orders
    ensures var c := Continue(b, ops);
            Valid(c) && id in c.orders && Reaches(b.orders[id].status, c.orders[id].status) && SameTerms(b.orders[id], c.orders[id])
    decreases |ops|
  {
    if ops != [] {
      var k := |ops| - 1;
      LifecycleMovesForward(b, ops[..k], id);
      StepFollows(Continue(b, ops[..k]), ops[k], id);
      StepKeepsValid(Continue(b, ops[..k]), ops[k]);
    }
  }

  // ---------- No id is returned twice ----------

  ghost predicate Distinct(s: seq<nat>) {
    forall i, j :: 0 <= i < j < |s| ==> s[i] != s[j]
  }

  ghost predicate Returned(b: Book, log: seq<nat>) {
    forall i :: 0 <= i < |log| ==> log[i] in b.orders && (b.orders[log[i]].status == Triggered || b.orders[log[i]].status == Executed)
  }

  lemma StepReturnsFresh(b: Book, op: Op)
    requires Valid(b)
    ensures var o := Step(b, op);
            && Distinct(o.triggered) && Returned(o.book, o.triggered)
            && forall i :: 0 <= i < |o.triggered| ==> o.triggered[i] in b.orders && b.orders[o.triggered[i]].status == Pending
  {
    if op.CheckOrders? {
      SelectSubset(b.active, b.orders, op.at, Triggered);
      SelectIncreasing(b.active, b.orders, op.at, Triggered);
      var t := Step(b, op).triggered;
      forall i | 0 <= i < |t| ensures t[i] in b.active && Checked(b.orders[t[i]], op.at).status == Triggered {
        assert t[i] in t;
      }
    }
  }

  /** Over a whole run no order is triggered twice. */
  lemma {:induction false} NeverReturnedTwice(ops: seq<Op>)
    ensures Distinct(Run(ops).triggered) && Returned(Run(ops).book, Run(ops).triggered)
    decreases |ops|
  {
    if ops != [] {
      var k := |ops| - 1;
      var before := Run(ops[..k]);
      NeverReturnedTwice(ops[..k]);
      AlwaysValid(ops[..k]);
      StepReturnsFresh(before.book, ops[k]);
      forall i | 0 <= i < |before.triggered|
        ensures var id := before.triggered[i];
                id in Run(ops).book.orders && (Run(ops).book.orders[id].status == Triggered || Run(ops).book.orders[id].status == Executed)
      {
        StepFollows(before.book, ops[k], before.triggered[i]);
      }
    }
  }

  // ---------- Missing prices and the trough ----------

  /** A condition that needs a price of an asset nobody has priced. */
  predicate Unpriced(c: Condition, m: Market) {
    !c.TimeAfter? && c.asset !in m.prices
  }

  /** An order whose conditions all need missing prices is not triggered, in any reachable state. */
  lemma {:induction false} NoPriceNoTrigger(ops: seq<Op>, id: nat, m: Market)
    requires var b := Run(ops).book; id in b.orders && forall i :: 0 <= i < |b.orders[id].conditions| ==> Unpriced(b.orders[id].conditions[i], m)
    ensures id !in CheckAll(Run(ops).book, m).triggered
  {
    var b := Run(ops).book;
    CheckReturnsDueOrders(ops, m);
    ConditionsNeverEmpty(ops, id);
    var o := WithTrough(b.orders[id], m);
    assert forall i :: 0 <= i < |o.conditions| ==> !Holds(o.conditions[i], o, m);
    assert !Holds(o.conditions[0], o, m);
  }

  lemma {:induction false} ConditionsNeverEmpty(ops: seq<Op>, id: nat)
    requires id in Run(ops).book.orders
    ensures Run(ops).book.orders[id].conditions != []
    decreases |ops|
  {
    if ops != [] {
      var k := |ops| - 1;
      var b := Run(ops[..k]).book;
      if id in b.orders {
        ConditionsNeverEmpty(ops[..k], id);
        AlwaysValid(ops[..k]);
        StepFollows(b, ops[k], id);
      }
    }
  }

  /** The order as a row of checks leaves it while it stays pending. */
  function Tracked(o: Order, markets: seq<Market>): Order {
    if markets == [] then o else WithTrough(Tracked(o, markets[..|markets| - 1]), markets[|markets| - 1])
  }

  function MarketsOf(ops: seq<Op>): seq<Market> {
    if ops == [] then []
    else MarketsOf(ops[..|ops| - 1]) + if ops[|ops| - 1].CheckOrders? then [ops[|ops| - 1].at] else []
  }

  lemma PendingStep(b: Book, op: Op, id: nat)
    requires Valid(b) && id in b.orders && id in Step(b, op).book.orders
    requires Step(b, op).book.orders[id].status == Pending
    ensures b.orders[id].status == Pending
    ensures Step(b, op).book.orders[id] == if op.CheckOrders? then WithTrough(b.orders[id], op.at) else b.orders[id]
  {
    StepFollows(b, op, id);
    assert op.CheckOrders? ==> id in b.active;
  }

  lemma TrackedNext(o: Order, ops: seq<Op>, op: Op)
    ensures Tracked(o, MarketsOf(ops + [op]))
         == if op.CheckOrders? then WithTrough(Tracked(o, MarketsOf(ops)), op.at) else Tracked(o, MarketsOf(ops))
  {
    var seen := MarketsOf(ops);
    assert (ops + [op])[..|ops|] == ops;
    assert seen + [] == seen;
    if op.CheckOrders? {
      assert (seen + [op.at])[..|seen|] == seen;
    }
  }

  /** While an order is pending, nothing happens to it but tracking the trough at every check. */
  lemma {:induction false} PendingOrdersAreTracked(b: Book, ops: seq<Op>, id: nat)
    requires Valid(b) && id in b.orders
    requires id in Continue(b, ops).orders && Continue(b, ops).orders[id].status == Pending
    ensures Continue(b, ops).orders[id] == Tracked(b.orders[id], MarketsOf(ops))
    decreases |ops|
  {
    if ops != [] {
      var front, op := ops[..|ops| - 1], ops[|ops| - 1];
      LifecycleMovesForward(b, front, id);
      PendingStep(Continue(b, front), op, id);
      PendingOrdersAreTracked(b, front, id);
      TrackedNext(b.orders[id], front, op);
      assert front + [op] == ops;
    }
  }

  ghost predicate Seen(o: Order, markets: seq<Market>, price: int) {
    exists i :: 0 <= i < |markets| && o.asset in markets[i].prices && markets[i].prices[o.asset] == price
  }

  /** The tracked trough is the lowest of its starting value and the positive prices seen. */
  lemma {:induction false} TroughIsLowest(o: Order, markets: seq<Market>)
    requires o.troughPrice >= 0
    ensures var t := Tracked(o, markets).troughPrice;
            && (forall p :: p > 0 && Seen(o, markets, p) ==> 0 < t <= p)
            && (t == o.troughPrice || (t > 0 && Seen(o, markets, t)))
            && (o.troughPrice > 0 ==> 0 < t <= o.troughPrice)
            && SameTerms(o, Tracked(o, markets)) && Tracked(o, markets).status == o.status
    decreases |markets|
  {
    if markets != [] {
      var front, m := markets[..|markets| - 1], markets[|markets| - 1];
      TroughIsLowest(o, front);
      var t := Tracked(o, markets).troughPrice;
      forall p | p > 0 && Seen(o, markets, p) ensures 0 < t <= p {
        var i :| 0 <= i < |markets| && o.asset in markets[i].prices && markets[i].prices[o.asset] == p;
        if i < |front| {
          assert front[i] == markets[i];
          assert Seen(o, front, p);
        }
      }
      var before := Tracked(o, front).troughPrice;
      if t == before && Seen(o, front, t) {
        var i :| 0 <= i < |front| && o.asset in front[i].prices && front[i].prices[o.asset] == t;
        assert markets[i] == front[i];
      } else if t != before {
        assert markets[|markets| - 1].prices[o.asset] == t;
      }
    }
  }
}
