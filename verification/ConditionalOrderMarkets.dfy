/**
 What conditional orders wait for, in terms of the market only: prices, thresholds and times,
 with every rounded bound multiplied out.
 */
module ConditionalOrderMarkets {
  import opened Common
  import opened FixedPoint
  import opened ConditionalOrders
  import opened ConditionalOrderRuns

  /** The lowest positive price of its asset that the order knows of at this market. */
  function Trough(o: Order, m: Market): int {
    if o.asset !in m.prices || m.prices[o.asset] <= 0 then o.troughPrice
    else if o.troughPrice == 0 || m.prices[o.asset] < o.troughPrice then m.prices[o.asset]
    else o.troughPrice
  }

  /** The trough is at most bound / 10000, where the quotient is rounded toward zero. */
  ghost predicate Dropped(trough: int, bound: int) {
    if trough > 0 then 10_000 * trough <= bound else 10_000 * trough < bound + 10_000
  }

  /** The price is at least bound / 10000, rounded toward zero; the bound has the sign of the trough. */
  ghost predicate Rebounded(trough: int, price: int, bound: int) {
    if trough > 0 then 10_000 * price > bound - 10_000 else 10_000 * price >= bound
  }

  /** The condition as the market decides it. */
  ghost predicate Met(c: Condition, o: Order, m: Market) {
    match c
    case Price(a, Above, threshold) => a in m.prices && m.prices[a] >= threshold
    case Price(a, Below, threshold) => a in m.prices && m.prices[a] <= threshold
    case TimeAfter(time) => time <= m.now
    case PriceDropRebound(a, drop, rebound) =>
      && a in m.prices && o.referencePrice != 0 && Trough(o, m) != 0
      && Dropped(Trough(o, m), o.referencePrice * (10_000 - drop))
      && Rebounded(Trough(o, m), m.prices[a], Trough(o, m) * (10_000 + rebound))
    case VolatilityBreakout(a, threshold) =>
      && a in m.prices && o.referencePrice != 0
      && ((m.prices[a] - o.referencePrice) * 10_000 >= o.referencePrice * threshold
          || (o.referencePrice - m.prices[a]) * 10_000 >= o.referencePrice * threshold)
  }

  lemma DropBound(trough: int, x: int)
    requires trough != 0
    ensures trough <= TruncDiv(x, 10_000) <==> Dropped(trough, x)
  {
    TruncDivMeaning(x, 10_000);
  }

  lemma ReboundBound(trough: int, price: int, y: int)
    requires trough > 0 ==> y >= 0
    requires trough < 0 ==> y < 0
    requires trough != 0
    ensures price >= TruncDiv(y, 10_000) <==> Rebounded(trough, price, y)
  {
    TruncDivMeaning(y, 10_000);
  }

  lemma BreakoutBound(price: int, reference: int, bound: int)
    ensures Abs(price - reference) * 10_000 >= bound <==> (price - reference) * 10_000 >= bound || (reference - price) * 10_000 >= bound
  {
  }

  lemma ReboundProduct(trough: int, rebound: nat)
    ensures trough > 0 ==> trough * (10_000 + rebound) >= 0
    ensures trough < 0 ==> trough * (10_000 + rebound) < 0
  {
    MulOrder(0, trough, 10_000 + rebound);
    MulOrder(trough, -1, 10_000 + rebound);
  }

  lemma DropReboundMet(o: Order, m: Market, a: nat, drop: nat, rebound: nat)
    ensures Holds(PriceDropRebound(a, drop, rebound), WithTrough(o, m), m) <==> Met(PriceDropRebound(a, drop, rebound), o, m)
  {
    var trough := Trough(o, m);
    assert WithTrough(o, m) == o.(troughPrice := trough);
    if a in m.prices && o.referencePrice != 0 && trough != 0 {
      DropBound(trough, o.referencePrice * (10_000 - drop));
      ReboundProduct(trough, rebound);
      ReboundBound(trough, m.prices[a], trough * (10_000 + rebound));
    }
  }

  /** The evaluated condition is the one the market decides. */
  lemma HoldsIffMet(c: Condition, o: Order, m: Market)
    ensures Holds(c, WithTrough(o, m), m) <==> Met(c, o, m)
  {
    match c
    case PriceDropRebound(a, drop, rebound) => DropReboundMet(o, m, a, drop, rebound);
    case VolatilityBreakout(a, threshold) =>
      if a in m.prices {
        BreakoutBound(m.prices[a], o.referencePrice, o.referencePrice * threshold);
      }
    case _ =>
  }

  /** Every condition of an And order is met, or some condition of an Or order. */
  ghost predicate AllMet(o: Order, m: Market) {
    if o.logic == And then !exists i :: 0 <= i < |o.conditions| && !Met(o.conditions[i], o, m)
    else exists i :: 0 <= i < |o.conditions| && Met(o.conditions[i], o, m)
  }

  lemma TriggeredIffMet(o: Order, m: Market)
    ensures AllTriggered(WithTrough(o, m), m) <==> AllMet(o, m)
  {
    forall i | 0 <= i < |o.conditions| ensures Holds(o.conditions[i], WithTrough(o, m), m) <==> Met(o.conditions[i], o, m) {
      HoldsIffMet(o.conditions[i], o, m);
    }
    var w := WithTrough(o, m);
    assert w.conditions == o.conditions && w.logic == o.logic;
    if AllMet(o, m) && o.logic == Or {
      var i :| 0 <= i < |o.conditions| && Met(o.conditions[i], o, m);
      assert Holds(w.conditions[i], w, m);
    }
    if AllTriggered(w, m) && o.logic == Or {
      var i :| 0 <= i < |w.conditions| && Holds(w.conditions[i], w, m);
      assert Met(o.conditions[i], o, m);
    }
  }

  // ---------- What a check returns ----------

  /**
   A check in a reachable state returns exactly the pending orders that have not expired and
   whose conditions the market meets: all of them for And, some of them for Or.
   */
  lemma ReturnedIffMet(ops: seq<Op>, m: Market, id: nat)
    requires id in Run(ops).book.orders
    ensures var o := Run(ops).book.orders[id];
            id in CheckAll(Run(ops).book, m).triggered <==> o.status == Pending && m.now < o.expiresAt && AllMet(o, m)
  {
    var o := Run(ops).book.orders[id];
    CheckReturnsDueOrders(ops, m);
    TriggeredIffMet(o, m);
  }

  /** The order waits for this one condition and has not expired. */
  ghost predicate WaitsFor(ops: seq<Op>, m: Market, id: nat, c: Condition) {
    && id in Run(ops).book.orders
    && var o := Run(ops).book.orders[id]; o.status == Pending && m.now < o.expiresAt && o.conditions == [c]
  }

  lemma SingleCondition(ops: seq<Op>, m: Market, id: nat, c: Condition)
    requires WaitsFor(ops, m, id, c)
    ensures id in CheckAll(Run(ops).book, m).triggered <==> Met(c, Run(ops).book.orders[id], m)
  {
    var o := Run(ops).book.orders[id];
    ReturnedIffMet(ops, m, id);
    assert o.conditions[0] == c;
  }

  /** An order that waits for a price above a threshold is returned if and only if the recorded price is at least that. */
  lemma AboveReturnedIff(ops: seq<Op>, m: Market, id: nat, a: nat, threshold: int)
    requires WaitsFor(ops, m, id, Price(a, Above, threshold))
    ensures id in CheckAll(Run(ops).book, m).triggered <==> a in m.prices && m.prices[a] >= threshold
  {
    SingleCondition(ops, m, id, Price(a, Above, threshold));
  }

  /** One that waits for a price below a threshold, if and only if the recorded price is at most that. */
  lemma BelowReturnedIff(ops: seq<Op>, m: Market, id: nat, a: nat, threshold: int)
    requires WaitsFor(ops, m, id, Price(a, Below, threshold))
    ensures id in CheckAll(Run(ops).book, m).triggered <==> a in m.prices && m.prices[a] <= threshold
  {
    SingleCondition(ops, m, id, Price(a, Below, threshold));
  }

  /** One that waits for a time, if and only if that time has come. */
  lemma TimeReturnedIff(ops: seq<Op>, m: Market, id: nat, time: nat)
    requires WaitsFor(ops, m, id, TimeAfter(time))
    ensures id in CheckAll(Run(ops).book, m).triggered <==> time <= m.now
  {
    SingleCondition(ops, m, id, TimeAfter(time));
  }

  /**
   One that waits for a drop and a rebound, if and only if the trough has dropped and the price
   has rebounded far enough; for positive prices that is the first of the two cases.
   */
  lemma DropReboundReturnedIff(ops: seq<Op>, m: Market, id: nat, a: nat, drop: nat, rebound: nat, reference: int, trough: int)
    requires WaitsFor(ops, m, id, PriceDropRebound(a, drop, rebound))
    requires var o := Run(ops).book.orders[id]; reference == o.referencePrice && trough == Trough(o, m)
    ensures id in CheckAll(Run(ops).book, m).triggered <==>
              && a in m.prices && reference != 0 && trough != 0
              && (if trough > 0
                  then 10_000 * trough <= reference * (10_000 - drop)
                       && 10_000 * m.prices[a] > trough * (10_000 + rebound) - 10_000
                  else 10_000 * trough < reference * (10_000 - drop) + 10_000
                       && 10_000 * m.prices[a] >= trough * (10_000 + rebound))
  {
    SingleCondition(ops, m, id, PriceDropRebound(a, drop, rebound));
  }

  /** One that waits for a breakout, if and only if the price is far enough from the reference, either way. */
  lemma BreakoutReturnedIff(ops: seq<Op>, m: Market, id: nat, a: nat, threshold: nat)
    requires WaitsFor(ops, m, id, VolatilityBreakout(a, threshold))
    ensures var o := Run(ops).book.orders[id];
            id in CheckAll(Run(ops).book, m).triggered <==>
              && a in m.prices && o.referencePrice != 0
              && ((m.prices[a] - o.referencePrice) * 10_000 >= o.referencePrice * threshold
                  || (o.referencePrice - m.prices[a]) * 10_000 >= o.referencePrice * threshold)
  {
    SingleCondition(ops, m, id, VolatilityBreakout(a, threshold));
  }

  // ---------- Creation, expiry, cancellation, execution ----------

  /** An accepted order gets the next id, keeps the terms of the request, and starts from the price of its asset, or from 0. */
  lemma CreatedAsRequested(ops: seq<Op>, r: Request, m: Market)
    ensures var before, after := Run(ops).book, Step(Run(ops).book, CreateOrder(r, m)).book;
            var id := before.counter + 1;
            && (r.amount <= 0 || r.conditions == [] ==> after == before)
            && (r.amount > 0 && r.conditions != [] ==>
                  && id !in before.orders && after.counter == id && after.orders.Keys == before.orders.Keys + {id}
                  && (forall x :: x in before.orders ==> after.orders[x] == before.orders[x])
                  && var o := after.orders[id];
                     && o.user == r.user && o.asset == r.asset && o.side == r.side && o.amount == r.amount
                     && o.limitPrice == r.limitPrice && o.conditions == r.conditions && o.logic == r.logic
                     && o.status == Pending && o.createdAt == m.now && o.expiresAt == m.now + r.expiresIn
                     && o.referencePrice == (if r.asset in m.prices then m.prices[r.asset] else 0)
                     && o.troughPrice == o.referencePrice)
  {
    AlwaysValid(ops);
  }

  /** A check expires exactly the pending orders whose time is over. */
  lemma ExpiresIff(ops: seq<Op>, m: Market, id: nat)
    requires id in Run(ops).book.orders
    ensures var o, e := Run(ops).book.orders[id], CheckAll(Run(ops).book, m).book.orders[id];
            e.status == Expired <==> o.status == Expired || (o.status == Pending && o.expiresAt <= m.now)
  {
    AlwaysValid(ops);
  }

  /** Only the owner cancels, and only a pending order; only a triggered order becomes executed. */
  lemma CancelsAndExecutes(b: Book, id: nat, user: Address)
    ensures Cancel(b, id, user).Ok? <==> id in b.orders && b.orders[id].user == user && b.orders[id].status == Pending
    ensures Cancel(b, id, user).Ok? ==> Cancel(b, id, user).value.orders == b.orders[id := b.orders[id].(status := Cancelled)]
    ensures MarkExecuted(b, id).Ok? <==> id in b.orders && b.orders[id].status == Triggered
    ensures MarkExecuted(b, id).Ok? ==> MarkExecuted(b, id).value.orders == b.orders[id := b.orders[id].(status := Executed)]
  {
  }
}
