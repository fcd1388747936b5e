/**
 Exit strategies: take-profit tiers that each close a share of the position, and trailing
 stops that ratchet with the highest price seen.

 `Check` and `Adjust` are the state transitions; the loops of the contract are methods
 proved against them, and the properties are proved over every run of transitions.
 */
module ExitStrategies {
  import opened Common
  import opened FixedPoint

  datatype Error = InvalidAmount | InvalidExitConfig | NotFound | Unauthorized

  datatype TakeProfit = TakeProfit(price: int, pct: nat, executed: bool)

  datatype StopLoss = StopLoss(triggerPct: nat, trailPct: nat, active: bool)

  datatype Status = Active | StopHit | Complete

  datatype Strategy = Strategy(
    user: Address, signalId: nat, entryPrice: int, size: int,
    tiers: seq<TakeProfit>, stops: seq<StopLoss>, highest: int, status: Status)

  /** One executed sell order. */
  datatype Sale = TierSale(tier: nat, amount: int) | StopSale(amount: int)

  // ---------- Take-profit tiers ----------

  predicate Fires(tp: TakeProfit, price: int, size: int) {
    !tp.executed && price >= tp.price && size > 0
  }

  function CloseAmount(size: int, pct: nat): int {
    Max(TruncDiv(size * pct, 10_000), 1)
  }

  datatype TierState = TierState(tiers: seq<TakeProfit>, size: int, sales: seq<Sale>)

  /** The tiers, the position and the sales after the first n tiers were considered. */
  function TiersAfter(tiers: seq<TakeProfit>, price: int, size: int, n: nat): (r: TierState)
    requires n <= |tiers|
    ensures |r.tiers| == |tiers| && r.tiers[n..] == tiers[n..]
  {
    if n == 0 then TierState(tiers, size, [])
    else
      var k := n - 1;
      var t := TiersAfter(tiers, price, size, k);
      if Fires(tiers[k], price, t.size) then
        var amount := CloseAmount(t.size, tiers[k].pct);
        TierState(t.tiers[k := tiers[k].(executed := true)], t.size - amount, t.sales + [TierSale(k, amount)])
      else t
  }

  method ExecuteTiers(tiers: seq<TakeProfit>, price: int, size: int) returns (r: TierState)
    ensures r == TiersAfter(tiers, price, size, |tiers|)
  {
    r := TierState(tiers, size, []);
    for i := 0 to |tiers|
      invariant r == TiersAfter(tiers, price, size, i)
    {
      var tp := r.tiers[i];
      assert tp == tiers[i] by {
        assert r.tiers[i..][0] == tiers[i..][0];
      }
      if !tp.executed && price >= tp.price && r.size > 0 {
        var amount := Max(TruncDiv(r.size * tp.pct, 10_000), 1);
        r := TierState(r.tiers[i := tp.(executed := true)], r.size - amount, r.sales + [TierSale(i, amount)]);
      }
    }
  }

  // ---------- Trailing stops ----------

  function ProfitPct(entryPrice: int, price: int): int {
    if entryPrice > 0 then TruncDiv((price - entryPrice) * 100, entryPrice) else 0
  }

  function Activated(stops: seq<StopLoss>, profit: int): (r: seq<StopLoss>)
    ensures |r| == |stops|
  {
    seq(|stops|, i requires 0 <= i < |stops| =>
      if profit >= stops[i].triggerPct then stops[i].(active := true) else stops[i])
  }

  method ActivateStops(stops: seq<StopLoss>, profit: int) returns (r: seq<StopLoss>)
    ensures r == Activated(stops, profit)
  {
    r := stops;
    for i := 0 to |stops|
      invariant |r| == |stops|
      invariant forall k :: 0 <= k < i ==> r[k] == Activated(stops, profit)[k]
      invariant forall k :: i <= k < |stops| ==> r[k] == stops[k]
    {
      if profit >= r[i].triggerPct {
        r := r[i := r[i].(active := true)];
      }
    }
  }

  /** The smallest trail among the active stops. */
  function TightestTrail(stops: seq<StopLoss>): Option<nat> {
    if stops == [] then None
    else
      var rest, last := TightestTrail(stops[..|stops| - 1]), stops[|stops| - 1];
      if !last.active then rest
      else if rest.None? || last.trailPct < rest.value then Some(last.trailPct)
      else rest
  }

  method FindTightestTrail(stops: seq<StopLoss>) returns (trail: Option<nat>)
    ensures trail == TightestTrail(stops)
  {
    trail := None;
    for i := 0 to |stops|
      invariant trail == TightestTrail(stops[..i])
    {
      assert stops[..i + 1][..i] == stops[..i];
      var tier := stops[i];
      if tier.active {
        trail := match trail
          case None => Some(tier.trailPct)
          case Some(prev) => Some(if prev < tier.trailPct then prev else tier.trailPct);
      }
    }
    assert stops[..|stops|] == stops;
  }

  function TrailingStop(highest: int, trailPct: nat): int {
    TruncDiv(highest * (100 - trailPct), 100)
  }

  /** The price below which the remaining position is sold, once some stop is active. */
  function EffectiveStop(s: Strategy): Option<int> {
    match TightestTrail(s.stops)
    case None => None
    case Some(trail) => Some(TrailingStop(s.highest, trail))
  }

  // ---------- Transitions ----------

  datatype Outcome = Outcome(next: Strategy, sales: seq<Sale>)

  function AfterTiers(s: Strategy, price: int): Outcome {
    var t := TiersAfter(s.tiers, price, s.size, |s.tiers|);
    Outcome(s.(highest := Max(s.highest, price), tiers := t.tiers, size := t.size), t.sales)
  }

  function AfterStops(o: Outcome, price: int): Outcome {
    var s := o.next;
    if s.size <= 0 then o
    else
      var a := s.(stops := Activated(s.stops, ProfitPct(s.entryPrice, price)));
      match EffectiveStop(a)
      case Some(stop) =>
        if price < stop then Outcome(a.(size := 0, status := StopHit), o.sales + [StopSale(s.size)])
        else Outcome(a, o.sales)
      case None => Outcome(a, o.sales)
  }

  function Completed(o: Outcome): Outcome {
    if o.next.size == 0 && o.next.status == Active then o.(next := o.next.(status := Complete)) else o
  }

  /** One price check. */
  function Check(s: Strategy, price: int): Outcome {
    if s.status != Active then Outcome(s, [])
    else Completed(AfterStops(AfterTiers(s, price), price))
  }

  /** The owner sets the remaining size by hand. */
  function Adjust(s: Strategy, user: Address, newSize: int): Result<Strategy, Error> {
    if s.user != user then Err(Unauthorized)
    else if newSize < 0 then Err(InvalidAmount)
    else Ok(s.(size := newSize, status := if newSize == 0 then Complete else s.status))
  }

  function Create(user: Address, signalId: nat, entryPrice: int, size: int,
                  tiers: seq<TakeProfit>, stops: seq<StopLoss>): Result<Strategy, Error> {
    if entryPrice <= 0 || size <= 0 then Err(InvalidAmount)
    else if tiers == [] then Err(InvalidExitConfig)
    else Ok(Strategy(user, signalId, entryPrice, size, tiers, stops, entryPrice, Active))
  }

  // ---------- Contract storage ----------

  function IdsOf(index: map<Address, seq<nat>>, user: Address): seq<nat> {
    if user in index then index[user] else []
  }

  class ExitBook {
    var strategies: map<nat, Strategy>
    var nextId: nat
    var userStrategies: map<Address, seq<nat>>

    constructor ()
      ensures strategies == map[] && nextId == 0 && userStrategies == map[]
    {
      strategies, nextId, userStrategies := map[], 0, map[];
    }

    ghost predicate Valid()
      reads this
    {
      forall id :: id in strategies ==> id < nextId
    }

    method CreateExitStrategy(user: Address, signalId: nat, entryPrice: int, size: int,
                              tiers: seq<TakeProfit>, stops: seq<StopLoss>) returns (r: Result<nat, Error>)
      requires Valid()
      modifies this
      ensures Valid()
      ensures match Create(user, signalId, entryPrice, size, tiers, stops)
              case Err(e) =>
                && r == Err(e) && strategies == old(strategies) && nextId == old(nextId)
                && userStrategies == old(userStrategies)
              case Ok(s) =>
                && r == Ok(old(nextId)) && nextId == old(nextId) + 1
                && r.value !in old(strategies) && strategies == old(strategies)[r.value := s]
                && userStrategies == old(userStrategies)[user := IdsOf(old(userStrategies), user) + [r.value]]
    {
      if entryPrice <= 0 || size <= 0 {
        return Err(InvalidAmount);
      }
      if tiers == [] {
        return Err(InvalidExitConfig);
      }
      var id := nextId;
      nextId := nextId + 1;
      strategies := strategies[id := Strategy(user, signalId, entryPrice, size, tiers, stops, entryPrice, Active)];
      userStrategies := userStrategies[user := IdsOf(userStrategies, user) + [id]];
      r := Ok(id);
    }

    method CheckAndExecuteExits(id: nat, price: int) returns (r: Result<seq<Sale>, Error>)
      requires Valid()
      modifies this`strategies
      ensures Valid()
      ensures id !in old(strategies) ==> r == Err(NotFound) && strategies == old(strategies)
      ensures id in old(strategies) ==>
        var o := Check(old(strategies)[id], price);
        r == Ok(o.sales) && strategies == old(strategies)[id := o.next]
    {
      if id !in strategies {
        return Err(NotFound);
      }
      var strategy := strategies[id];
      if strategy.status != Active {
        assert strategies[id := strategy] == strategies;
        return Ok([]);
      }
      if price > strategy.highest {
        strategy := strategy.(highest := price);
      }
      var t := ExecuteTiers(strategy.tiers, price, strategy.size);
      strategy := strategy.(tiers := t.tiers, size := t.size);
      var sales := t.sales;
      if strategy.size > 0 {
        var stops := ActivateStops(strategy.stops, ProfitPct(strategy.entryPrice, price));
        strategy := strategy.(stops := stops);
        var tightest := FindTightestTrail(stops);
        if tightest.Some? {
          var stopPrice := TrailingStop(strategy.highest, tightest.value);
          if price < stopPrice && strategy.size > 0 {
            sales := sales + [StopSale(strategy.size)];
            strategy := strategy.(size := 0, status := StopHit);
          }
        }
      }
      if strategy.size == 0 && strategy.status == Active {
        strategy := strategy.(status := Complete);
      }
      strategies := strategies[id := strategy];
      r := Ok(sales);
    }

    method AdjustPositionSize(user: Address, id: nat, newSize: int) returns (r: Result<(), Error>)
      requires Valid()
      modifies this`strategies
      ensures Valid()
      ensures id !in old(strategies) ==> r == Err(NotFound) && strategies == old(strategies)
      ensures id in old(strategies) ==>
        match Adjust(old(strategies)[id], user, newSize)
        case Err(e) => r == Err(e) && strategies == old(strategies)
        case Ok(s) => r == Ok(()) && strategies == old(strategies)[id := s]
    {
      if id !in strategies {
        return Err(NotFound);
      }
      var strategy := strategies[id];
      if strategy.user != user {
        return Err(Unauthorized);
      }
      if newSize < 0 {
        return Err(InvalidAmount);
      }
      strategy := strategy.(size := newSize);
      if newSize == 0 {
        strategy := strategy.(status := Complete);
      }
      strategies := strategies[id := strategy];
      r := Ok(());
    }
  }
}
