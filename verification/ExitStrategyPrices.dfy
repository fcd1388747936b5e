/**
 What a check of an exit strategy does, in terms of prices and sizes only: which stops become
 active, when the stop sells, what each tier sells and where the peak stands.
 */
module ExitStrategyPrices {
  import opened Common
  import opened FixedPoint
  import opened ExitStrategies
  import opened ExitStrategyRuns

  // ---------- Stops become active ----------

  /** At this price the profit over the entry price reaches t percent, rounded toward zero. */
  ghost predicate ReachesTrigger(entryPrice: int, price: int, t: nat) {
    if t == 0 then 100 * (price - entryPrice) > -entryPrice else 100 * (price - entryPrice) >= t * entryPrice
  }

  lemma ProfitReaches(entryPrice: int, price: int, t: nat)
    requires entryPrice > 0
    ensures ProfitPct(entryPrice, price) >= t <==> ReachesTrigger(entryPrice, price, t)
  {
    var q := ProfitPct(entryPrice, price);
    TruncDivMeaning((price - entryPrice) * 100, entryPrice);
    MulOrder(t, q, entryPrice);
    MulOrder(q + 1, t, entryPrice);
    MulOrder(q, -1, entryPrice);
  }

  /**
   A check makes an inactive stop active if and only if the price reaches its trigger and the
   tiers leave a position; the terms of the stop do not change, and active stops stay active.
   */
  lemma StopBecomesActiveIff(s: Strategy, price: int, j: nat)
    requires s.status == Active && s.entryPrice > 0 && j < |s.stops|
    ensures var e := Check(s, price).next;
            && |e.stops| == |s.stops|
            && e.stops[j].triggerPct == s.stops[j].triggerPct && e.stops[j].trailPct == s.stops[j].trailPct
            && (e.stops[j].active <==>
                  s.stops[j].active || (ReachesTrigger(s.entryPrice, price, s.stops[j].triggerPct) && (e.size > 0 || e.status == StopHit)))
  {
    ProfitReaches(s.entryPrice, price, s.stops[j].triggerPct);
  }

  ghost predicate AllInactive(stops: seq<StopLoss>) {
    forall j :: 0 <= j < |stops| ==> !stops[j].active
  }

  ghost predicate NoStopSale(sales: seq<Sale>) {
    forall k :: 0 <= k < |sales| ==> !sales[k].StopSale?
  }

  /** A check at this price reaches the trigger of some stop. */
  ghost predicate SomeTrigger(s: Strategy, price: int) {
    exists j :: 0 <= j < |s.stops| && ReachesTrigger(s.entryPrice, price, s.stops[j].triggerPct)
  }

  ghost predicate TriggeredBefore(s: Strategy, ops: seq<Op>, n: nat) {
    exists i :: 0 <= i < n && i < |ops| && ops[i].PriceCheck? && SomeTrigger(s, ops[i].price)
  }

  /** Without a reached trigger nothing changes about the stops, and the stop does not sell. */
  lemma CheckWithoutTrigger(s: Strategy, price: int)
    requires s.entryPrice > 0 && AllInactive(s.stops) && !SomeTrigger(s, price)
    ensures var o := Check(s, price);
            o.next.stops == s.stops && o.next.entryPrice == s.entryPrice && NoStopSale(o.sales)
  {
    if s.status == Active {
      forall j | 0 <= j < |s.stops| ensures ProfitPct(s.entryPrice, price) < s.stops[j].triggerPct {
        ProfitReaches(s.entryPrice, price, s.stops[j].triggerPct);
      }
      assert Activated(s.stops, ProfitPct(s.entryPrice, price)) == s.stops;
      TightestIsLeast(s.stops);
      TiersSellOnce(s.tiers, price, s.size, |s.tiers|);
    }
  }

  lemma {:induction false} RunWithoutTrigger(s: Strategy, ops: seq<Op>)
    requires s.entryPrice > 0 && AllInactive(s.stops) && !TriggeredBefore(s, ops, |ops|)
    ensures var o := Run(s, ops);
            o.next.stops == s.stops && o.next.entryPrice == s.entryPrice && NoStopSale(o.sales)
    decreases |ops|
  {
    if ops != [] {
      var k := |ops| - 1;
      assert forall i :: 0 <= i < k ==> ops[..k][i] == ops[i];
      RunWithoutTrigger(s, ops[..k]);
      if ops[k].PriceCheck? {
        CheckWithoutTrigger(Run(s, ops[..k]).next, ops[k].price);
      }
    }
  }

  /** Over every run: a stop sale under stops created inactive needs a check that reached some trigger, no later than it. */
  lemma StopSaleNeedsTrigger(user: Address, signalId: nat, entryPrice: int, size: int,
                             tiers: seq<TakeProfit>, stops: seq<StopLoss>, s: Strategy, ops: seq<Op>)
    requires Create(user, signalId, entryPrice, size, tiers, stops) == Ok(s) && AllInactive(stops)
    requires !NoStopSale(Run(s, ops).sales)
    ensures TriggeredBefore(s, ops, |ops|)
  {
    if !TriggeredBefore(s, ops, |ops|) {
      RunWithoutTrigger(s, ops);
    }
  }

  // ---------- The stop sells ----------

  /** A trail of at most 100% puts the stop at its share of the peak, rounded down. */
  lemma StopIsShareOfPeak(highest: int, trailPct: nat)
    requires highest > 0 && trailPct <= 100
    ensures var stop := TrailingStop(highest, trailPct); 100 * stop <= highest * (100 - trailPct) < 100 * stop + 100
  {
    TruncDivMeaning(highest * (100 - trailPct), 100);
    MulOrder(0, 100 - trailPct, highest);
  }

  /** The price lies a whole unit below the share of the peak that the trail leaves. */
  ghost predicate BelowTrail(highest: int, trailPct: nat, price: int) {
    100 * (price + 1) <= highest * (100 - trailPct)
  }

  lemma BelowTrailIff(highest: int, trailPct: nat, price: int)
    requires highest > 0 && price >= 0
    ensures price < TrailingStop(highest, trailPct) <==> BelowTrail(highest, trailPct, price)
  {
    TruncDivMeaning(highest * (100 - trailPct), 100);
  }

  lemma TighterTrailIsHigher(highest: int, t: nat, looser: nat, price: int)
    requires highest > 0 && t <= looser && BelowTrail(highest, looser, price)
    ensures BelowTrail(highest, t, price)
  {
    MulOrder(100 - looser, 100 - t, highest);
  }

  /**
   A check of an active strategy fires the stop if and only if the tiers leave a position and
   the price lies below the trail of some stop that is then active.
   */
  lemma StopFiresIff(s: Strategy, price: int)
    requires s.status == Active && s.highest > 0 && price >= 0
    ensures var e, peak := Check(s, price).next, Max(s.highest, price);
            e.status == StopHit <==>
              && AfterTiers(s, price).next.size > 0
              && exists j :: 0 <= j < |e.stops| && e.stops[j].active && BelowTrail(peak, e.stops[j].trailPct, price)
  {
    var e, peak := Check(s, price).next, Max(s.highest, price);
    if AfterTiers(s, price).next.size > 0 {
      TightestIsLeast(e.stops);
      var t := TightestTrail(e.stops);
      if t.Some? {
        BelowTrailIff(peak, t.value, price);
      }
      if j :| 0 <= j < |e.stops| && e.stops[j].active && BelowTrail(peak, e.stops[j].trailPct, price) {
        TighterTrailIsHigher(peak, t.value, e.stops[j].trailPct, price);
      }
    }
  }

  // ---------- What each tier sells ----------

  /** The share of a position, rounded down, and at least one unit. */
  ghost predicate IsShare(position: int, pct: nat, amount: int) {
    if position * pct < 10_000 then amount == 1 else 10_000 * amount <= position * pct < 10_000 * amount + 10_000
  }

  /** Every sale is the share its tier has of what was left just before it. */
  ghost predicate SharesInTurn(sales: seq<Sale>, tiers: seq<TakeProfit>, size: int) {
    sales == [] ||
    var before, last := sales[..|sales| - 1], sales[|sales| - 1];
    && SharesInTurn(before, tiers, size)
    && last.TierSale? && last.tier < |tiers| && IsShare(size - Sold(before), tiers[last.tier].pct, last.amount)
  }

  lemma ShareOfRest(position: int, pct: nat)
    requires position > 0
    ensures IsShare(position, pct, CloseAmount(position, pct))
  {
    CloseIsShare(position, pct);
  }

  lemma ShareNext(sales: seq<Sale>, tiers: seq<TakeProfit>, size: int, i: nat, amount: int)
    requires SharesInTurn(sales, tiers, size) && i < |tiers| && IsShare(size - Sold(sales), tiers[i].pct, amount)
    ensures SharesInTurn(sales + [TierSale(i, amount)], tiers, size)
  {
    var all := sales + [TierSale(i, amount)];
    assert all[..|all| - 1] == sales && all[|all| - 1] == TierSale(i, amount);
  }

  lemma {:induction false} TiersSellShares(tiers: seq<TakeProfit>, price: int, size: int, n: nat)
    requires n <= |tiers|
    ensures SharesInTurn(TiersAfter(tiers, price, size, n).sales, tiers, size)
  {
    if n > 0 {
      var t := TiersAfter(tiers, price, size, n - 1);
      TiersSellShares(tiers, price, size, n - 1);
      if Fires(tiers[n - 1], price, t.size) {
        var amount := CloseAmount(t.size, tiers[n - 1].pct);
        ShareOfRest(t.size, tiers[n - 1].pct);
        assert t.size == size - Sold(t.sales) by {
          TiersConserve(tiers, price, size, n - 1);
        }
        ShareNext(t.sales, tiers, size, n - 1, amount);
        assert TiersAfter(tiers, price, size, n).sales == t.sales + [TierSale(n - 1, amount)];
      }
    }
  }

  /** The tier sales of a check, in order: each the share of what the earlier ones left. */
  lemma CheckSellsShares(s: Strategy, price: int)
    requires s.status == Active
    ensures SharesInTurn(AfterTiers(s, price).sales, s.tiers, s.size)
    ensures var sales := Check(s, price).sales; var n := |AfterTiers(s, price).sales|;
            n <= |sales| && sales[..n] == AfterTiers(s, price).sales && forall k :: n <= k < |sales| ==> sales[k].StopSale?
  {
    TiersSellShares(s.tiers, price, s.size, |s.tiers|);
  }

  // ---------- The peak ----------

  /** The prices a run checks while the strategy is active, in order. */
  function SeenPrices(s: Strategy, ops: seq<Op>): seq<int> {
    if ops == [] then []
    else
      var k := |ops| - 1;
      SeenPrices(s, ops[..k]) +
      if ops[k].PriceCheck? && Run(s, ops[..k]).next.status == Active then [ops[k].price] else []
  }

  ghost predicate IsHighest(peak: int, start: int, seen: seq<int>) {
    && start <= peak && (forall i :: 0 <= i < |seen| ==> seen[i] <= peak)
    && (peak == start || exists i :: 0 <= i < |seen| && seen[i] == peak)
  }

  lemma HighestNext(peak: int, start: int, seen: seq<int>, price: int)
    requires IsHighest(peak, start, seen)
    ensures IsHighest(Max(peak, price), start, seen + [price])
  {
    var all := seen + [price];
    assert all[|seen|] == price;
    if price <= peak && peak != start {
      var i :| 0 <= i < |seen| && seen[i] == peak;
      assert all[i] == peak;
    }
  }

  lemma CheckRaisesPeak(s: Strategy, price: int)
    ensures Check(s, price).next.highest == if s.status == Active then Max(s.highest, price) else s.highest
  {
  }

  /** Over every run the peak is the highest of its starting value and the prices checked while active. */
  lemma {:induction false} PeakIsHighest(s: Strategy, ops: seq<Op>)
    ensures IsHighest(Run(s, ops).next.highest, s.highest, SeenPrices(s, ops))
    decreases |ops|
  {
    if ops != [] {
      var k := |ops| - 1;
      var before := Run(s, ops[..k]).next;
      var seen := SeenPrices(s, ops[..k]);
      assert seen + [] == seen;
      PeakIsHighest(s, ops[..k]);
      if ops[k].PriceCheck? {
        CheckRaisesPeak(before, ops[k].price);
        HighestNext(before.highest, s.highest, seen, ops[k].price);
      }
    }
  }

  // ---------- Creation and adjustment ----------

  /** What creation accepts, and what it starts from. */
  lemma CreateAccepts(user: Address, signalId: nat, entryPrice: int, size: int, tiers: seq<TakeProfit>, stops: seq<StopLoss>)
    ensures var r := Create(user, signalId, entryPrice, size, tiers, stops);
            && (r.Ok? <==> entryPrice > 0 && size > 0 && |tiers| > 0)
            && (r.Ok? ==>
                  && r.value.user == user && r.value.signalId == signalId && r.value.tiers == tiers && r.value.stops == stops
                  && r.value.entryPrice == entryPrice && r.value.highest == entryPrice
                  && r.value.size == size && r.value.status == Active)
            && (r == Err(InvalidExitConfig) <==> entryPrice > 0 && size > 0 && tiers == [])
  {
  }

  /** Only the owner adjusts, only to a size that is not negative; zero completes, and nothing else changes. */
  lemma AdjustAccepts(s: Strategy, user: Address, newSize: int)
    ensures var r := Adjust(s, user, newSize);
            && (r.Ok? <==> user == s.user && newSize >= 0)
            && (r.Ok? ==> r.value.size == newSize && (r.value.status == if newSize == 0 then Complete else s.status)
                          && r.value.(size := s.size, status := s.status) == s)
            && (r == Err(Unauthorized) <==> user != s.user)
  {
  }
}
