/**
 Conditional orders: And/Or combinations of price and time conditions, a lifecycle per order,
 and a secondary index of the orders that are still pending.
 */
module ConditionalOrders {
  import opened Common
  import opened FixedPoint

  datatype Error = InvalidAmount | InvalidConfig | NotFound | Unauthorized | NotPending | NotTriggered

  datatype Direction = Above | Below

  datatype Condition =
    | Price(asset: nat, direction: Direction, threshold: int)
    | TimeAfter(time: nat)
    | PriceDropRebound(asset: nat, dropBps: nat, reboundBps: nat)
    | VolatilityBreakout(asset: nat, thresholdBps: nat)

  datatype Logic = And | Or

  datatype Side = Buy | Sell

  datatype Status = Pending | Triggered | Executed | Expired | Cancelled

  datatype Order = Order(
    id: nat, user: Address, asset: nat, side: Side, amount: int, limitPrice: int,
    conditions: seq<Condition>, logic: Logic, status: Status,
    createdAt: nat, expiresAt: nat, referencePrice: int, troughPrice: int)

  /** Known asset prices and the ledger time at the moment of a call. */
  datatype Market = Market(prices: map<nat, int>, now: nat)

  // ---------- Conditions ----------

  /** A condition on an asset without a recorded price never holds. */
  predicate Holds(c: Condition, o: Order, m: Market) {
    match c
    case Price(asset, direction, threshold) =>
      && asset in m.prices
      && (match direction
          case Above => m.prices[asset] >= threshold
          case Below => m.prices[asset] <= threshold)
    case TimeAfter(time) => m.now >= time
    case PriceDropRebound(asset, dropBps, reboundBps) =>
      && asset in m.prices && o.referencePrice != 0
      && o.troughPrice != 0 && o.troughPrice <= TruncDiv(o.referencePrice * (10_000 - dropBps), 10_000)
      && m.prices[asset] >= TruncDiv(o.troughPrice * (10_000 + reboundBps), 10_000)
    case VolatilityBreakout(asset, thresholdBps) =>
      && asset in m.prices && o.referencePrice != 0
      && Abs(m.prices[asset] - o.referencePrice) * 10_000 >= o.referencePrice * thresholdBps
  }

  predicate AllTriggered(o: Order, m: Market) {
    match o.logic
    case And => forall i :: 0 <= i < |o.conditions| ==> Holds(o.conditions[i], o, m)
    case Or => exists i :: 0 <= i < |o.conditions| && Holds(o.conditions[i], o, m)
  }

  method EvalCondition(c: Condition, o: Order, m: Market) returns (met: bool)
    ensures met == Holds(c, o, m)
  {
    match c {
      case Price(asset, direction, threshold) =>
        if asset !in m.prices {
          return false;
        }
        var price := m.prices[asset];
        match direction {
          case Above => met := price >= threshold;
          case Below => met := price <= threshold;
        }
      case TimeAfter(time) =>
        met := m.now >= time;
      case PriceDropRebound(asset, dropBps, reboundBps) =>
        if asset !in m.prices {
          return false;
        }
        if o.referencePrice == 0 {
          return false;
        }
        var dropThreshold := TruncDiv(o.referencePrice * (10_000 - dropBps), 10_000);
        if o.troughPrice == 0 || o.troughPrice > dropThreshold {
          return false;
        }
        met := m.prices[asset] >= TruncDiv(o.troughPrice * (10_000 + reboundBps), 10_000);
      case VolatilityBreakout(asset, thresholdBps) =>
        if asset !in m.prices {
          return false;
        }
        if o.referencePrice == 0 {
          return false;
        }
        var price, ref := m.prices[asset], o.referencePrice;
        var diff := if price > ref then price - ref else ref - price;
        met := diff * 10_000 >= ref * thresholdBps;
    }
  }

  method EvalAll(o: Order, m: Market) returns (triggered: bool)
    ensures triggered == AllTriggered(o, m)
  {
    match o.logic {
      case And =>
        for i := 0 to |o.conditions|
          invariant forall k :: 0 <= k < i ==> Holds(o.conditions[k], o, m)
        {
          var met := EvalCondition(o.conditions[i], o, m);
          if !met {
            return false;
          }
        }
        triggered := true;
      case Or =>
        for i := 0 to |o.conditions|
          invariant forall k :: 0 <= k < i ==> !Holds(o.conditions[k], o, m)
        {
          var met := EvalCondition(o.conditions[i], o, m);
          if met {
            return true;
          }
        }
        triggered := false;
    }
  }

  // ---------- One order in a check ----------

  function WithTrough(o: Order, m: Market): Order {
    if o.asset in m.prices && m.prices[o.asset] > 0 && (o.troughPrice == 0 || m.prices[o.asset] < o.troughPrice)
    then o.(troughPrice := m.prices[o.asset])
    else o
  }

  /** A pending order that has not expired and whose combined condition holds. */
  predicate Due(o: Order, m: Market) {
    o.status == Pending && m.now < o.expiresAt && AllTriggered(WithTrough(o, m), m)
  }

  function Checked(o: Order, m: Market): Order {
    if o.status != Pending then o
    else if m.now >= o.expiresAt then o.(status := Expired)
    else if AllTriggered(WithTrough(o, m), m) then WithTrough(o, m).(status := Triggered)
    else WithTrough(o, m)
  }

  /** The body of the check loop for one order: expire it, or track the trough and evaluate it. */
  method CheckOrder(o: Order, m: Market) returns (r: Order)
    ensures r == Checked(o, m)
  {
    if o.status != Pending {
      return o;
    }
    if m.now >= o.expiresAt {
      return o.(status := Expired);
    }
    r := o;
    if r.asset in m.prices {
      var price := m.prices[r.asset];
      if price > 0 && (r.troughPrice == 0 || price < r.troughPrice) {
        r := r.(troughPrice := price);
      }
    }
    var due := EvalAll(r, m);
    if due {
      r := r.(status := Triggered);
    }
  }

  // ---------- The book ----------

  datatype Book = Book(orders: map<nat, Order>, active: seq<nat>, counter: nat)

  const EMPTY := Book(map[], [], 0)

  predicate Increasing(s: seq<nat>) {
    forall i, j :: 0 <= i < j < |s| ==> s[i] < s[j]
  }

  /** The index lists exactly the pending orders, each once, in creation order. */
  ghost predicate Valid(b: Book) {
    && (forall id :: id in b.orders ==> 1 <= id <= b.counter && b.orders[id].id == id)
    && Increasing(b.active)
    && (forall id :: id in b.active <==> id in b.orders && b.orders[id].status == Pending)
  }

  /** The list without the first occurrence of an id. */
  function Without(s: seq<nat>, id: nat): seq<nat> {
    if s == [] then [] else if s[0] == id then s[1..] else [s[0]] + Without(s[1..], id)
  }

  predicate Becomes(o: Order, m: Market, status: Status) {
    o.status == Pending && Checked(o, m).status == status
  }

  /** The listed ids whose order is pending and has the given status after a check. */
  function Select(ids: seq<nat>, orders: map<nat, Order>, m: Market, status: Status): seq<nat> {
    if ids == [] then []
    else
      var k := |ids| - 1;
      var rest := Select(ids[..k], orders, m, status);
      if ids[k] in orders && Becomes(orders[ids[k]], m, status) then rest + [ids[k]] else rest
  }

  function CheckedOrders(ids: seq<nat>, orders: map<nat, Order>, m: Market): map<nat, Order> {
    map id | id in orders :: if id in ids then Checked(orders[id], m) else orders[id]
  }

  datatype Outcome = Outcome(book: Book, triggered: seq<nat>)

  function CheckAll(b: Book, m: Market): Outcome {
    Outcome(Book(CheckedOrders(b.active, b.orders, m), Select(b.active, b.orders, m, Pending), b.counter),
            Select(b.active, b.orders, m, Triggered))
  }

  datatype Request = Request(
    user: Address, asset: nat, side: Side, amount: int, limitPrice: int,
    conditions: seq<Condition>, logic: Logic, expiresIn: nat)

  function NewOrder(id: nat, r: Request, m: Market): Order {
    var ref := if r.asset in m.prices then m.prices[r.asset] else 0;
    Order(id, r.user, r.asset, r.side, r.amount, r.limitPrice, r.conditions, r.logic, Pending,
          m.now, m.now + r.expiresIn, ref, ref)
  }

  function Create(b: Book, r: Request, m: Market): Result<Book, Error> {
    if r.amount <= 0 then Err(InvalidAmount)
    else if r.conditions == [] then Err(InvalidConfig)
    else
      var id := b.counter + 1;
      Ok(Book(b.orders[id := NewOrder(id, r, m)], if id in b.active then b.active else b.active + [id], id))
  }

  function Cancel(b: Book, id: nat, user: Address): Result<Book, Error> {
    if id !in b.orders then Err(NotFound)
    else if b.orders[id].user != user then Err(Unauthorized)
    else if b.orders[id].status != Pending then Err(NotPending)
    else Ok(b.(orders := b.orders[id := b.orders[id].(status := Cancelled)], active := Without(b.active, id)))
  }

  function MarkExecuted(b: Book, id: nat): Result<Book, Error> {
    if id !in b.orders then Err(NotFound)
    else if b.orders[id].status != Triggered then Err(NotTriggered)
    else Ok(b.(orders := b.orders[id := b.orders[id].(status := Executed)]))
  }

  class OrderBook {
    var orders: map<nat, Order>
    var active: seq<nat>
    var counter: nat

    function State(): Book
      reads this
    {
      Book(orders, active, counter)
    }

    constructor ()
      ensures State() == EMPTY
    {
      orders, active, counter := map[], [], 0;
    }

    method CreateConditionalOrder(r: Request, m: Market) returns (result: Result<nat, Error>)
      modifies this
      ensures match Create(old(State()), r, m)
              case Err(e) => result == Err(e) && State() == old(State())
              case Ok(b) => result == Ok(b.counter) && State() == b
    {
      if r.amount <= 0 {
        return Err(InvalidAmount);
      }
      if r.conditions == [] {
        return Err(InvalidConfig);
      }
      var ref := if r.asset in m.prices then m.prices[r.asset] else 0;
      counter := counter + 1;
      var id := counter;
      var order := Order(id, r.user, r.asset, r.side, r.amount, r.limitPrice, r.conditions, r.logic, Pending,
                         m.now, m.now + r.expiresIn, ref, ref);
      orders := orders[id := order];
      if id !in active {
        active := active + [id];
      }
      result := Ok(id);
    }

    method CancelConditionalOrder(id: nat, user: Address) returns (result: Result<(), Error>)
      modifies this
      ensures match Cancel(old(State()), id, user)
              case Err(e) => result == Err(e) && State() == old(State())
              case Ok(b) => result == Ok(()) && State() == b
    {
      if id !in orders {
        return Err(NotFound);
      }
      var order := orders[id];
      if order.user != user {
        return Err(Unauthorized);
      }
      if order.status != Pending {
        return Err(NotPending);
      }
      orders := orders[id := order.(status := Cancelled)];
      active := Without(active, id);
      result := Ok(());
    }

    method MarkOrderExecuted(id: nat) returns (result: Result<(), Error>)
      modifies this
      ensures match MarkExecuted(old(State()), id)
              case Err(e) => result == Err(e) && State() == old(State())
              case Ok(b) => result == Ok(()) && State() == b
    {
      if id !in orders {
        return Err(NotFound);
      }
      if orders[id].status != Triggered {
        return Err(NotTriggered);
      }
      orders := orders[id := orders[id].(status := Executed)];
      result := Ok(());
    }

    method CheckAndTrigger(m: Market) returns (triggered: seq<nat>)
      requires Valid(State())
      modifies this
      ensures Outcome(State(), triggered) == CheckAll(old(State()), m)
    {
      assert forall i :: 0 <= i < |active| ==> active[i] in orders;
      orders, active, triggered := CheckIds(active, orders, m);
    }
  }

  /** Walks a snapshot of the index while orders leave it. */
  method CheckIds(ids: seq<nat>, start: map<nat, Order>, m: Market)
    returns (orders: map<nat, Order>, active: seq<nat>, triggered: seq<nat>)
    requires Increasing(ids) && forall i :: 0 <= i < |ids| ==> ids[i] in start
    ensures orders == CheckedOrders(ids, start, m)
    ensures active == Select(ids, start, m, Pending) && triggered == Select(ids, start, m, Triggered)
  {
    orders, active, triggered := start, ids, [];
    ProgressStart(ids, start, m);
    for i := 0 to |ids|
      invariant Progress(ids, start, m, i, orders, active, triggered)
    {
      orders, active, triggered := CheckNext(ids, start, m, i, orders, active, triggered);
    }
    ProgressEnd(ids, start, m, orders, active, triggered);
  }

  lemma ProgressStart(ids: seq<nat>, start: map<nat, Order>, m: Market)
    ensures Progress(ids, start, m, 0, start, ids, [])
  {
    assert ids[..0] == [] && [] + ids[0..] == ids;
  }

  lemma ProgressEnd(ids: seq<nat>, start: map<nat, Order>, m: Market,
                    orders: map<nat, Order>, active: seq<nat>, triggered: seq<nat>)
    requires Progress(ids, start, m, |ids|, orders, active, triggered)
    ensures orders == CheckedOrders(ids, start, m)
    ensures active == Select(ids, start, m, Pending) && triggered == Select(ids, start, m, Triggered)
  {
    assert ids[..|ids|] == ids && ids[|ids|..] == [];
    assert Select(ids, start, m, Pending) + [] == Select(ids, start, m, Pending);
  }

  /** The book and the result after the first i orders of the snapshot were checked. */
  ghost predicate Progress(ids: seq<nat>, start: map<nat, Order>, m: Market, i: nat,
                           orders: map<nat, Order>, active: seq<nat>, triggered: seq<nat>)
    requires i <= |ids|
  {
    && orders.Keys == start.Keys
    && (forall id :: id in start ==> orders[id] == if id in ids[..i] then Checked(start[id], m) else start[id])
    && active == Select(ids[..i], start, m, Pending) + ids[i..]
    && triggered == Select(ids[..i], start, m, Triggered)
  }

  /** One iteration of the check loop. */
  method CheckNext(ids: seq<nat>, ghost start: map<nat, Order>, m: Market, i: nat,
                   orders: map<nat, Order>, active: seq<nat>, triggered: seq<nat>)
    returns (orders': map<nat, Order>, active': seq<nat>, triggered': seq<nat>)
    requires i < |ids| && Increasing(ids) && ids[i] in start
    requires Progress(ids, start, m, i, orders, active, triggered)
    ensures Progress(ids, start, m, i + 1, orders', active', triggered')
  {
    var id := ids[i];
    assert forall x :: x in ids[..i + 1] <==> x in ids[..i] || x == id;
    IndexNext(ids, i, start, m);
    var order := CheckOrder(orders[id], m);
    orders', active', triggered' := orders[id := order], active, triggered;
    if order.status != Pending {
      active' := Without(active, id);
    }
    if orders[id].status == Pending && order.status == Triggered {
      triggered' := triggered + [id];
    }
  }

  /** Keeping the order at hand, or removing it, leaves the index as specified. */
  lemma IndexNext(ids: seq<nat>, i: nat, start: map<nat, Order>, m: Market)
    requires i < |ids| && Increasing(ids) && ids[i] in start
    ensures var before, after := Select(ids[..i], start, m, Pending) + ids[i..], Select(ids[..i + 1], start, m, Pending) + ids[i + 1..];
            after == if Checked(start[ids[i]], m).status != Pending then Without(before, ids[i]) else before
    ensures var before, after := Select(ids[..i], start, m, Triggered), Select(ids[..i + 1], start, m, Triggered);
            after == if Becomes(start[ids[i]], m, Triggered) then before + [ids[i]] else before
  {
    var kept, rest := Select(ids[..i], start, m, Pending), ids[i + 1..];
    assert ids[..i + 1][..i] == ids[..i];
    SelectSubset(ids[..i], start, m, Pending);
    assert ids[i..] == [ids[i]] + rest;
    WithoutAfter(kept, ids[i], rest);
    assert kept + ids[i..] == (kept + [ids[i]]) + rest;
  }

  lemma {:induction false} SelectSubset(ids: seq<nat>, orders: map<nat, Order>, m: Market, status: Status)
    ensures forall id :: id in Select(ids, orders, m, status) <==>
              id in ids && id in orders && Becomes(orders[id], m, status)
    decreases |ids|
  {
    if ids != [] {
      var k := |ids| - 1;
      SelectSubset(ids[..k], orders, m, status);
      assert forall x :: x in ids <==> x in ids[..k] || x == ids[k];
    }
  }

  lemma {:induction false} WithoutAfter(a: seq<nat>, id: nat, b: seq<nat>)
    requires id !in a
    ensures Without(a + ([id] + b), id) == a + b
    decreases |a|
  {
    var s := a + ([id] + b);
    if a == [] {
      assert s == [id] + b;
    } else {
      assert s[0] == a[0] && s[1..] == a[1..] + ([id] + b);
      WithoutAfter(a[1..], id, b);
      assert [a[0]] + (a[1..] + b) == a + b;
    }
  }
}
