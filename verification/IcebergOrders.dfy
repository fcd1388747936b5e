/**
 Iceberg orders: only a visible portion rests on the exchange; fills replenish it from the
 hidden remainder, and a running average price is kept with truncating division.
 */
module IcebergOrders {
  import opened Common
  import opened FixedPoint

  datatype Error =
    | InvalidTotal | InvalidPrice | InvalidVisiblePercentage | VisibleTooSmall
    | NotMapped | NotFound | NotOwner | NotActive | NotCancellable | DivisionByZero

  datatype Side = Buy | Sell

  datatype Status = Active | PartiallyFilled | Filled | Cancelled

  datatype Order = Order(
    id: nat, user: Address, side: Side, total: int, visible: int, price: int,
    filled: int, visibleFilled: int, status: Status, createdAt: nat, avgPrice: int)

  datatype FillEvent = FillEvent(orderId: nat, amount: int, price: int, totalFilled: int)

  datatype CancellationInfo = CancellationInfo(filled: int, remaining: int, avgPrice: int)

  const MAX_VISIBLE_PCT: nat := 5000
  const MIN_VISIBLE := 1000

  // ---------- Order logic ----------

  function VisibleAmount(total: int, visiblePct: nat): int {
    TruncDiv(total * visiblePct, 10_000)
  }

  function CreateError(total: int, visiblePct: nat, price: int): Option<Error> {
    if total <= 0 then Some(InvalidTotal)
    else if price <= 0 then Some(InvalidPrice)
    else if visiblePct == 0 || visiblePct > MAX_VISIBLE_PCT then Some(InvalidVisiblePercentage)
    else if VisibleAmount(total, visiblePct) < MIN_VISIBLE then Some(VisibleTooSmall)
    else None
  }

  function NewOrder(id: nat, user: Address, side: Side, total: int, visiblePct: nat, price: int, now: nat): Order {
    Order(id, user, side, total, VisibleAmount(total, visiblePct), price, 0, 0, Active, now, 0)
  }

  /** The running average after one more fill. */
  function NextAverage(avg: int, filled: int, amount: int, price: int): int
    requires filled + amount != 0
  {
    TruncDiv(avg * filled + price * amount, filled + amount)
  }

  /** The order after a call, and the quantity the call placed on the exchange, if any. */
  datatype Change = Change(order: Order, placed: Option<int>)

  function OnFill(o: Order, amount: int, price: int): Change
    requires o.filled + amount != 0
  {
    var f := o.(filled := o.filled + amount, visibleFilled := o.visibleFilled + amount,
                avgPrice := NextAverage(o.avgPrice, o.filled, amount, price));
    if f.visibleFilled >= f.visible then
      var remaining := f.total - f.filled;
      if remaining > 0
      then Change(f.(visibleFilled := 0, status := PartiallyFilled), Some(Min(remaining, f.visible)))
      else Change(f.(status := Filled), None)
    else Change(if f.filled > 0 then f.(status := PartiallyFilled) else f, None)
  }

  function WithFill(history: seq<FillEvent>, id: nat, amount: int, price: int): seq<FillEvent> {
    var total := if history == [] then amount else history[|history| - 1].totalFilled + amount;
    history + [FillEvent(id, amount, price, total)]
  }

  predicate Open(o: Order) {
    o.status == Active || o.status == PartiallyFilled
  }

  /** The order after its owner moved it to a new price; the visible rest is placed anew. */
  function Repriced(o: Order, user: Address, newPrice: int): Result<Change, Error> {
    if o.user != user then Err(NotOwner)
    else if !Open(o) then Err(NotActive)
    else if newPrice <= 0 then Err(InvalidPrice)
    else Ok(Change(o.(price := newPrice), Some(o.visible - o.visibleFilled)))
  }

  /** The order after its owner cancelled it. */
  function Withdrawn(o: Order, user: Address): Result<Order, Error> {
    if o.user != user then Err(NotOwner)
    else if o.status == Filled || o.status == Cancelled then Err(NotCancellable)
    else Ok(o.(status := Cancelled))
  }

  // ---------- Contract storage ----------

  class IcebergBook {
    var counter: nat
    var orders: map<nat, Order>
    var sdexToIceberg: map<nat, nat>
    var currentSdex: map<nat, nat>
    var history: map<nat, seq<FillEvent>>

    constructor ()
      ensures counter == 0 && orders == map[] && sdexToIceberg == map[] && currentSdex == map[] && history == map[]
    {
      counter, orders, sdexToIceberg, currentSdex, history := 0, map[], map[], map[], map[];
    }

    function HistoryOf(id: nat): seq<FillEvent>
      reads this
    {
      if id in history then history[id] else []
    }

    /** Creates an order whose visible portion rests on the exchange under `sdexId`. */
    method CreateIcebergOrder(user: Address, side: Side, total: int, visiblePct: nat, price: int, now: nat, sdexId: nat)
      returns (r: Result<nat, Error>)
      modifies this
      ensures match CreateError(total, visiblePct, price)
              case Some(e) =>
                && r == Err(e) && orders == old(orders) && counter == old(counter)
                && sdexToIceberg == old(sdexToIceberg) && currentSdex == old(currentSdex)
              case None =>
                var id := old(counter) + 1;
                && r == Ok(id) && counter == id
                && orders == old(orders)[id := NewOrder(id, user, side, total, visiblePct, price, now)]
                && sdexToIceberg == old(sdexToIceberg)[sdexId := id] && currentSdex == old(currentSdex)[id := sdexId]
      ensures history == old(history)
    {
      if total <= 0 {
        return Err(InvalidTotal);
      }
      if price <= 0 {
        return Err(InvalidPrice);
      }
      if visiblePct == 0 || visiblePct > MAX_VISIBLE_PCT {
        return Err(InvalidVisiblePercentage);
      }
      var visible := TruncDiv(total * visiblePct, 10_000);
      if visible < MIN_VISIBLE {
        return Err(VisibleTooSmall);
      }
      counter := counter + 1;
      var id := counter;
      orders := orders[id := Order(id, user, side, total, visible, price, 0, 0, Active, now, 0)];
      sdexToIceberg := sdexToIceberg[sdexId := id];
      currentSdex := currentSdex[id := sdexId];
      r := Ok(id);
    }

    /** A fill report from the exchange; `newSdexId` is the id a replenishing order gets. */
    method OnSdexFill(sdexId: nat, amount: int, price: int, newSdexId: nat) returns (r: Result<Option<int>, Error>)
      modifies this
      ensures sdexId !in old(sdexToIceberg) ==> r == Err(NotMapped)
      ensures sdexId in old(sdexToIceberg) && old(sdexToIceberg)[sdexId] !in old(orders) ==> r == Err(NotFound)
      ensures sdexId in old(sdexToIceberg) && old(sdexToIceberg)[sdexId] in old(orders) ==>
        var id := old(sdexToIceberg)[sdexId];
        var o := old(orders)[id];
        if o.filled + amount == 0 then r == Err(DivisionByZero)
        else
          && r == Ok(OnFill(o, amount, price).placed)
          && orders == old(orders)[id := OnFill(o, amount, price).order]
          && history == old(history)[id := WithFill(old(HistoryOf(id)), id, amount, price)]
          && (r.value.Some? ==> sdexToIceberg == old(sdexToIceberg)[newSdexId := id] && currentSdex == old(currentSdex)[id := newSdexId])
          && (r.value.None? ==> sdexToIceberg == old(sdexToIceberg) && currentSdex == old(currentSdex))
      ensures r.Err? ==>
        orders == old(orders) && history == old(history) && sdexToIceberg == old(sdexToIceberg) && currentSdex == old(currentSdex)
      ensures counter == old(counter)
    {
      if sdexId !in sdexToIceberg {
        return Err(NotMapped);
      }
      var id := sdexToIceberg[sdexId];
      if id !in orders {
        return Err(NotFound);
      }
      var iceberg := orders[id];
      iceberg := iceberg.(filled := iceberg.filled + amount, visibleFilled := iceberg.visibleFilled + amount);
      var totalValue := iceberg.avgPrice * (iceberg.filled - amount) + price * amount;
      if iceberg.filled == 0 {
        return Err(DivisionByZero);
      }
      iceberg := iceberg.(avgPrice := TruncDiv(totalValue, iceberg.filled));
      RecordFill(id, amount, price);
      var placed := None;
      if iceberg.visibleFilled >= iceberg.visible {
        var remaining := iceberg.total - iceberg.filled;
        if remaining > 0 {
          placed := Some(if remaining < iceberg.visible then remaining else iceberg.visible);
          sdexToIceberg := sdexToIceberg[newSdexId := id];
          currentSdex := currentSdex[id := newSdexId];
          iceberg := iceberg.(visibleFilled := 0, status := PartiallyFilled);
        } else {
          iceberg := iceberg.(status := Filled);
        }
      } else {
        if iceberg.filled > 0 {
          iceberg := iceberg.(status := PartiallyFilled);
        }
      }
      orders := orders[id := iceberg];
      r := Ok(placed);
    }

    method RecordFill(id: nat, amount: int, price: int)
      modifies this`history
      ensures history == old(history)[id := WithFill(old(HistoryOf(id)), id, amount, price)]
    {
      var events := HistoryOf(id);
      var total := amount;
      if events != [] {
        total := events[|events| - 1].totalFilled + amount;
      }
      history := history[id := events + [FillEvent(id, amount, price, total)]];
    }

    method CancelIcebergOrder(id: nat, user: Address) returns (r: Result<CancellationInfo, Error>)
      modifies this`orders
      ensures id !in old(orders) ==> r == Err(NotFound)
      ensures id in old(orders) ==>
        match Withdrawn(old(orders)[id], user)
        case Err(e) => r == Err(e)
        case Ok(o) =>
          r == Ok(CancellationInfo(o.filled, o.total - o.filled, o.avgPrice)) && orders == old(orders)[id := o]
      ensures r.Err? ==> orders == old(orders)
    {
      if id !in orders {
        return Err(NotFound);
      }
      var iceberg := orders[id];
      if iceberg.user != user {
        return Err(NotOwner);
      }
      if iceberg.status == Filled || iceberg.status == Cancelled {
        return Err(NotCancellable);
      }
      iceberg := iceberg.(status := Cancelled);
      orders := orders[id := iceberg];
      r := Ok(CancellationInfo(iceberg.filled, iceberg.total - iceberg.filled, iceberg.avgPrice));
    }

    /** Replaces the resting order by one at a new price; the result is the quantity placed. */
    method UpdateIcebergPrice(id: nat, user: Address, newPrice: int, newSdexId: nat) returns (r: Result<int, Error>)
      modifies this`orders, this`sdexToIceberg, this`currentSdex
      ensures id !in old(orders) ==> r == Err(NotFound)
      ensures id in old(orders) ==>
        match Repriced(old(orders)[id], user, newPrice)
        case Err(e) => r == Err(e)
        case Ok(c) =>
          && r.Ok? && c.placed == Some(r.value) && orders == old(orders)[id := c.order]
          && sdexToIceberg == old(sdexToIceberg)[newSdexId := id] && currentSdex == old(currentSdex)[id := newSdexId]
      ensures r.Err? ==> orders == old(orders) && sdexToIceberg == old(sdexToIceberg) && currentSdex == old(currentSdex)
    {
      if id !in orders {
        return Err(NotFound);
      }
      var iceberg := orders[id];
      if iceberg.user != user {
        return Err(NotOwner);
      }
      if iceberg.status != Active && iceberg.status != PartiallyFilled {
        return Err(NotActive);
      }
      if newPrice <= 0 {
        return Err(InvalidPrice);
      }
      var remainingVisible := iceberg.visible - iceberg.visibleFilled;
      orders := orders[id := iceberg.(price := newPrice)];
      sdexToIceberg := sdexToIceberg[newSdexId := id];
      currentSdex := currentSdex[id := newSdexId];
      r := Ok(remainingVisible);
    }
  }
}
