/** Properties of exit strategies over every run of price checks and manual adjustments. */
module ExitStrategyRuns {
  import opened Common
  import opened FixedPoint
  import opened ExitStrategies

  datatype Op = PriceCheck(price: int) | Adjustment(user: Address, newSize: int)

  function Step(s: Strategy, op: Op): Outcome {
    match op
    case PriceCheck(price) => Check(s, price)
    case Adjustment(user, newSize) =>
      match Adjust(s, user, newSize)
      case Ok(adjusted) => Outcome(adjusted, [])
      case Err(_) => Outcome(s, [])
  }

  /** The strategy after a run, and everything sold during it, in order. */
  function Run(s: Strategy, ops: seq<Op>): Outcome {
    if ops == [] then Outcome(s, [])
    else
      var k := |ops| - 1;
      var before := Run(s, ops[..k]);
      var last := Step(before.next, ops[k]);
      Outcome(last.next, before.sales + last.sales)
  }

  /** Net change of the position by accepted manual adjustments during a run. */
  function ManualChange(s: Strategy, ops: seq<Op>): int {
    if ops == [] then 0
    else
      var k := |ops| - 1;
      var before := Run(s, ops[..k]).next;
      ManualChange(s, ops[..k]) +
      (if ops[k].Adjustment? then Step(before, ops[k]).next.size - before.size else 0)
  }

  function Sold(sales: seq<Sale>): int {
    if sales == [] then 0 else Sold(sales[..|sales| - 1]) + sales[|sales| - 1].amount
  }

  lemma {:induction false} SoldConcat(a: seq<Sale>, b: seq<Sale>)
    ensures Sold(a + b) == Sold(a) + Sold(b)
    decreases |b|
  {
    if b == [] {
      assert a + b == a;
    } else {
      assert (a + b)[..|a + b| - 1] == a + b[..|b| - 1];
      SoldConcat(a, b[..|b| - 1]);
    }
  }

  // ---------- What the tier loop does ----------

  ghost predicate SameTiers(a: seq<TakeProfit>, b: seq<TakeProfit>) {
    |a| == |b| && forall i :: 0 <= i < |a| ==>
      b[i].price == a[i].price && b[i].pct == a[i].pct && (a[i].executed ==> b[i].executed)
  }

  ghost predicate TierSalesOf(sales: seq<Sale>, before: seq<TakeProfit>, after: seq<TakeProfit>, n: nat) {
    && |before| == |after| && n <= |before|
    && (forall k :: 0 <= k < |sales| ==>
          sales[k].TierSale? && sales[k].tier < n && sales[k].amount >= 1
          && !before[sales[k].tier].executed && after[sales[k].tier].executed)
    && (forall j, k :: 0 <= j < k < |sales| ==> sales[j].tier < sales[k].tier)
  }

  lemma SoldNext(sales: seq<Sale>, sale: Sale)
    ensures Sold(sales + [sale]) == Sold(sales) + sale.amount
  {
    assert (sales + [sale])[..|sales|] == sales;
  }

  /** The tier at hand is still as it was before the loop. */
  lemma TierUntouched(tiers: seq<TakeProfit>, price: int, size: int, n: nat)
    requires n < |tiers|
    ensures TiersAfter(tiers, price, size, n).tiers[n] == tiers[n]
  {
    var t := TiersAfter(tiers, price, size, n).tiers;
    assert t[n..][0] == tiers[n..][0];
  }

  lemma {:induction false} TiersConserve(tiers: seq<TakeProfit>, price: int, size: int, n: nat)
    requires n <= |tiers|
    ensures var r := TiersAfter(tiers, price, size, n);
            SameTiers(tiers, r.tiers) && r.size + Sold(r.sales) == size && r.size <= size
  {
    if n > 0 {
      var k := n - 1;
      TiersConserve(tiers, price, size, k);
      TierUntouched(tiers, price, size, k);
      var t := TiersAfter(tiers, price, size, k);
      SoldNext(t.sales, TierSale(k, CloseAmount(t.size, tiers[k].pct)));
    }
  }

  lemma {:induction false} TiersSellOnce(tiers: seq<TakeProfit>, price: int, size: int, n: nat)
    requires n <= |tiers|
    ensures var r := TiersAfter(tiers, price, size, n); TierSalesOf(r.sales, tiers, r.tiers, n)
  {
    if n > 0 {
      TiersSellOnce(tiers, price, size, n - 1);
    }
  }

  /** A position that survives the loop has executed every tier the price reaches. */
  lemma {:induction false} ReachedTiersExecuted(tiers: seq<TakeProfit>, price: int, size: int, n: nat)
    requires n <= |tiers|
    ensures var r := TiersAfter(tiers, price, size, n);
            r.size > 0 ==> forall i :: 0 <= i < n && price >= tiers[i].price ==> r.tiers[i].executed
  {
    if n > 0 {
      ReachedTiersExecuted(tiers, price, size, n - 1);
      TiersConserve(tiers, price, size, n - 1);
    }
  }

  ghost predicate BoundedTiers(tiers: seq<TakeProfit>) {
    forall i :: 0 <= i < |tiers| ==> tiers[i].pct <= 10_000
  }

  lemma CloseAtMostSize(size: int, pct: nat)
    requires size > 0 && pct <= 10_000
    ensures 1 <= CloseAmount(size, pct) <= size
  {
    MulOrder(pct, 10_000, size);
    DivUpper(size * pct, 10_000, size + 1);
  }

  /** A tier closes its share of the position, rounded down, and at least one unit. */
  lemma CloseIsShare(size: int, pct: nat)
    requires size > 0
    ensures var c := CloseAmount(size, pct);
            if size * pct < 10_000 then c == 1 else 10_000 * c <= size * pct < 10_000 * c + 10_000
    ensures pct == 10_000 ==> CloseAmount(size, pct) == size
  {
    MulOrder(0, size, pct);
    DivBounds(size * pct, 10_000);
    if size * pct >= 10_000 {
      DivLower(size * pct, 10_000, 1);
    }
  }

  /** A tier never closes more than the position, for every position, exactly when it is at most 100%. */
  lemma TierNeverOversells(pct: nat)
    ensures (forall size :: size > 0 ==> CloseAmount(size, pct) <= size) <==> pct <= 10_000
  {
    if pct <= 10_000 {
      forall size | size > 0 ensures CloseAmount(size, pct) <= size {
        CloseAtMostSize(size, pct);
      }
    } else {
      DivLower(10_000 * pct, 10_000, pct);
      assert CloseAmount(10_000, pct) > 10_000;
    }
  }

  lemma {:induction false} TiersKeepSizeNonNegative(tiers: seq<TakeProfit>, price: int, size: int, n: nat)
    requires n <= |tiers| && size >= 0 && BoundedTiers(tiers)
    ensures TiersAfter(tiers, price, size, n).size >= 0
  {
    if n > 0 {
      TiersKeepSizeNonNegative(tiers, price, size, n - 1);
      var t := TiersAfter(tiers, price, size, n - 1);
      if t.size > 0 {
        CloseAtMostSize(t.size, tiers[n - 1].pct);
      }
    }
  }

  ghost predicate ReachedSales(sales: seq<Sale>, tiers: seq<TakeProfit>, price: int) {
    forall k :: 0 <= k < |sales| ==> sales[k].TierSale? && sales[k].tier < |tiers| && price >= tiers[sales[k].tier].price
  }

  /** Only tiers whose price was reached sell. */
  lemma {:induction false} SoldTiersWereReached(tiers: seq<TakeProfit>, price: int, size: int, n: nat)
    requires n <= |tiers|
    ensures ReachedSales(TiersAfter(tiers, price, size, n).sales, tiers, price)
  {
    if n > 0 {
      SoldTiersWereReached(tiers, price, size, n - 1);
    }
  }

  lemma {:induction false} UnreachedTiersDoNothing(tiers: seq<TakeProfit>, price: int, size: int, n: nat)
    requires n <= |tiers|
    requires forall i :: 0 <= i < n ==> tiers[i].executed || price < tiers[i].price
    ensures TiersAfter(tiers, price, size, n) == TierState(tiers, size, [])
  {
    if n > 0 {
      UnreachedTiersDoNothing(tiers, price, size, n - 1);
    }
  }

  // ---------- A tier and the stop never sell in the same check ----------

  /** Every tier at or below the peak has executed. */
  ghost predicate PeakCleared(s: Strategy) {
    forall i :: 0 <= i < |s.tiers| && s.tiers[i].price <= s.highest ==> s.tiers[i].executed
  }

  ghost predicate Inv(s: Strategy) {
    s.highest > 0 && (s.status == Active && s.size > 0 ==> PeakCleared(s))
  }

  ghost predicate Both(sales: seq<Sale>) {
    (exists i :: 0 <= i < |sales| && sales[i].TierSale?) && (exists i :: 0 <= i < |sales| && sales[i].StopSale?)
  }

  lemma TrailAtMostPeak(highest: int, trailPct: nat)
    requires highest > 0
    ensures TrailingStop(highest, trailPct) <= highest
  {
    var m := highest * (100 - trailPct);
    MulOrder(100 - trailPct, 100, highest);
    if m >= 0 {
      DivUpper(m, 100, highest + 1);
    } else {
      DivLower(-m, 100, 0);
    }
  }

  lemma CheckKeepsInv(s: Strategy, price: int)
    requires Inv(s)
    ensures Inv(Check(s, price).next)
  {
    if s.status == Active {
      TiersConserve(s.tiers, price, s.size, |s.tiers|);
      ReachedTiersExecuted(s.tiers, price, s.size, |s.tiers|);
    }
  }

  /** The heart: a price below its own stop is below the peak, where every tier has executed. */
  lemma NotBothInOneCheck(s: Strategy, price: int)
    requires Inv(s)
    ensures !Both(Check(s, price).sales)
  {
    if s.status == Active {
      var o := AfterTiers(s, price);
      TiersSellOnce(s.tiers, price, s.size, |s.tiers|);
      TiersConserve(s.tiers, price, s.size, |s.tiers|);
      if o.next.size > 0 {
        var a := o.next.(stops := Activated(o.next.stops, ProfitPct(s.entryPrice, price)));
        var stop := EffectiveStop(a);
        if stop.Some? && price < stop.value {
          TrailAtMostPeak(a.highest, TightestTrail(a.stops).value);
          assert s.highest == a.highest;
          UnreachedTiersDoNothing(s.tiers, price, s.size, |s.tiers|);
        }
      }
    }
  }

  // ---------- The exact guard ----------

  /** An accepted adjustment that gives an active, oversold strategy a position again. */
  predicate Reopens(s: Strategy, op: Op) {
    op.Adjustment? && s.status == Active && s.size < 0 && s.user == op.user && op.newSize > 0
  }

  ghost predicate NeverReopened(s: Strategy, ops: seq<Op>) {
    forall i :: 0 <= i < |ops| ==> !Reopens(Run(s, ops[..i]).next, ops[i])
  }

  ghost predicate RunInv(s: Strategy) {
    Inv(s) && (s.status == Active ==> s.size != 0)
  }

  lemma StepKeepsRunInv(s: Strategy, op: Op)
    requires RunInv(s) && !Reopens(s, op)
    ensures RunInv(Step(s, op).next)
  {
    if op.PriceCheck? {
      CheckKeepsInv(s, op.price);
    }
  }

  lemma {:induction false} RunKeepsRunInv(s: Strategy, ops: seq<Op>)
    requires RunInv(s) && NeverReopened(s, ops)
    ensures RunInv(Run(s, ops).next)
    decreases |ops|
  {
    if ops != [] {
      var front := ops[..|ops| - 1];
      assert forall i :: 0 <= i < |front| ==> front[..i] == ops[..i];
      RunKeepsRunInv(s, front);
      StepKeepsRunInv(Run(s, front).next, ops[|ops| - 1]);
    }
  }

  /** Every tier still to be executed has its target above the entry price. */
  ghost predicate TargetsAboveEntry(s: Strategy) {
    forall i :: 0 <= i < |s.tiers| && !s.tiers[i].executed ==> s.tiers[i].price > s.entryPrice
  }

  /**
   With targets above the entry price, no check of a run both executes a tier and fires the
   stop, as long as no adjustment gives an active, oversold strategy a position again.
   */
  lemma NeverBoth(user: Address, signalId: nat, entryPrice: int, size: int,
                  tiers: seq<TakeProfit>, stops: seq<StopLoss>, s: Strategy, ops: seq<Op>, price: int)
    requires Create(user, signalId, entryPrice, size, tiers, stops) == Ok(s)
    requires TargetsAboveEntry(s) && NeverReopened(s, ops)
    ensures !Both(Check(Run(s, ops).next, price).sales)
  {
    RunKeepsRunInv(s, ops);
    NotBothInOneCheck(Run(s, ops).next, price);
  }

  /** Runs of checks alone never reopen anything. */
  lemma ChecksNeverReopen(s: Strategy, ops: seq<Op>)
    requires forall i :: 0 <= i < |ops| ==> ops[i].PriceCheck?
    ensures NeverReopened(s, ops)
  {
  }

  /** Nor does any run when tiers close at most 100%: the position never goes negative. */
  lemma BoundedNeverReopen(s: Strategy, ops: seq<Op>)
    requires Sound(s)
    ensures NeverReopened(s, ops)
  {
    forall i | 0 <= i < |ops| ensures !Reopens(Run(s, ops[..i]).next, ops[i]) {
      RunKeepsSound(s, ops[..i]);
    }
  }

  // ---------- What a reopened strategy can do ----------

  /** The strategy after a check at `peak` and an adjustment by its owner to `size`. */
  function Reopened(s: Strategy, peak: int, size: int): Strategy {
    Run(s, [PriceCheck(peak), Adjustment(s.user, size)]).next
  }

  predicate Reached(tp: TakeProfit, price: int) {
    !tp.executed && price >= tp.price
  }

  /** A stop that is active, or becomes active at this price, and keeps a positive share of the peak. */
  predicate Trails(s: Strategy, stop: StopLoss, price: int) {
    stop.trailPct < 100 && (stop.active || ProfitPct(s.entryPrice, price) >= stop.triggerPct)
  }

  /** Some tier is reached, and all reached tiers are below 100%. */
  ghost predicate SellsPart(s: Strategy, price: int) {
    && (exists i :: 0 <= i < |s.tiers| && Reached(s.tiers[i], price))
    && (forall i :: 0 <= i < |s.tiers| && Reached(s.tiers[i], price) ==> s.tiers[i].pct < 10_000)
  }

  /** The price lies below the stop that a check at this price applies. */
  predicate BelowStop(s: Strategy, price: int) {
    var stop := EffectiveStop(s.(highest := Max(s.highest, price), stops := Activated(s.stops, ProfitPct(s.entryPrice, price))));
    stop.Some? && price < stop.value
  }

  /** Some position size makes this price sell both ways in one check. */
  ghost predicate SomeSizeSellsBoth(s: Strategy, price: int) {
    exists size :: size > 0 && Both(Check(s.(size := size), price).sales)
  }

  /** Part is sold, and some stop trails by less than 100%. */
  ghost predicate Exposed(s: Strategy, price: int) {
    SellsPart(s, price) && exists j :: 0 <= j < |s.stops| && Trails(s, s.stops[j], price)
  }

  lemma RunOfTwo(s: Strategy, a: Op, b: Op)
    ensures Run(s, [a, b]).next == Step(Step(s, a).next, b).next
  {
    var one, two := [a], [a, b];
    assert one[..0] == [] && two[..1] == one;
    assert Run(s, one).next == Step(s, a).next;
  }

  /** With nothing to sell no tier fires. */
  lemma {:induction false} NothingToSell(tiers: seq<TakeProfit>, price: int, size: int, n: nat)
    requires n <= |tiers| && size <= 0
    ensures TiersAfter(tiers, price, size, n) == TierState(tiers, size, [])
  {
    if n > 0 {
      NothingToSell(tiers, price, size, n - 1);
    }
  }

  /** A check of an oversold strategy only raises the peak. */
  lemma ReopenedState(s: Strategy, peak: int, size: int)
    requires s.status == Active && s.size < 0 && size > 0
    ensures Reopened(s, peak, size) == s.(highest := Max(s.highest, peak), size := size)
  {
    RunOfTwo(s, PriceCheck(peak), Adjustment(s.user, size));
    NothingToSell(s.tiers, peak, s.size, |s.tiers|);
    assert Check(s, peak) == Outcome(s.(highest := Max(s.highest, peak)), []);
  }

  function Pow(n: nat): (p: int)
    ensures p >= 1
  {
    if n == 0 then 1 else 10_000 * Pow(n - 1)
  }

  /** A tier below 100% leaves at least a ten-thousandth. */
  lemma ShareLeft(size: int, pct: nat, least: int)
    requires least >= 1 && size >= 10_000 * least && pct < 10_000
    ensures size - CloseAmount(size, pct) >= least
  {
    MulOrder(pct, 9_999, size);
    DivUpper(size * pct, 10_000, size - least + 1);
    MulOrder(0, size, pct);
  }

  /** A large enough position outlives all reached tiers below 100%. */
  lemma {:induction false} LargePositionSurvives(tiers: seq<TakeProfit>, price: int, n: nat)
    requires n <= |tiers| && forall i :: 0 <= i < |tiers| && Reached(tiers[i], price) ==> tiers[i].pct < 10_000
    ensures TiersAfter(tiers, price, Pow(|tiers|), n).size >= Pow(|tiers| - n)
  {
    if n > 0 {
      LargePositionSurvives(tiers, price, n - 1);
      var t := TiersAfter(tiers, price, Pow(|tiers|), n - 1);
      if Fires(tiers[n - 1], price, t.size) {
        assert Reached(tiers[n - 1], price);
        ShareLeft(t.size, tiers[n - 1].pct, Pow(|tiers| - n));
      }
    }
  }

  /** As long as a position is left, a reached tier has sold. */
  lemma {:induction false} ReachedTierSells(tiers: seq<TakeProfit>, price: int, size: int, n: nat, i: nat)
    requires i < n <= |tiers| && Reached(tiers[i], price) && TiersAfter(tiers, price, size, n).size > 0
    ensures TiersAfter(tiers, price, size, n).sales != []
  {
    TiersConserve(tiers, price, size, n - 1);
    if i < n - 1 {
      SizeOnlyFalls(tiers, price, size, n - 1);
      ReachedTierSells(tiers, price, size, n - 1, i);
    } else {
      SizeOnlyFalls(tiers, price, size, n - 1);
    }
  }

  lemma SizeOnlyFalls(tiers: seq<TakeProfit>, price: int, size: int, k: nat)
    requires k < |tiers|
    ensures TiersAfter(tiers, price, size, k + 1).size <= TiersAfter(tiers, price, size, k).size
  {
  }

  /** A tier of 100% or more leaves nothing. */
  lemma NothingLeft(size: int, pct: nat)
    requires size > 0 && pct >= 10_000
    ensures CloseAmount(size, pct) >= size
  {
    MulOrder(10_000, pct, size);
    DivLower(size * pct, 10_000, size);
  }

  /** A position that outlives the loop met only reached tiers below 100%. */
  lemma {:induction false} SurvivorMetSmallTiers(tiers: seq<TakeProfit>, price: int, size: int, n: nat)
    requires n <= |tiers| && TiersAfter(tiers, price, size, n).size > 0
    ensures forall i :: 0 <= i < n && Reached(tiers[i], price) ==> tiers[i].pct < 10_000
  {
    if n > 0 {
      var t := TiersAfter(tiers, price, size, n - 1);
      SizeOnlyFalls(tiers, price, size, n - 1);
      SurvivorMetSmallTiers(tiers, price, size, n - 1);
      if tiers[n - 1].pct >= 10_000 {
        NothingLeft(t.size, tiers[n - 1].pct);
      }
    }
  }

  /** The tightest trail is that of some active stop, and no active stop is tighter. */
  lemma {:induction false} TightestIsLeast(stops: seq<StopLoss>)
    ensures var t := TightestTrail(stops);
            && (t.Some? ==> exists j :: 0 <= j < |stops| && stops[j].active && stops[j].trailPct == t.value)
            && (forall j :: 0 <= j < |stops| && stops[j].active ==> t.Some? && t.value <= stops[j].trailPct)
    decreases |stops|
  {
    if stops != [] {
      var k := |stops| - 1;
      var rest, t := TightestTrail(stops[..k]), TightestTrail(stops);
      TightestIsLeast(stops[..k]);
      if t == rest && rest.Some? {
        var j :| 0 <= j < k && stops[..k][j].active && stops[..k][j].trailPct == rest.value;
        assert stops[j].active && stops[j].trailPct == t.value;
      }
    }
  }

  /** A peak from which every trail below 100% stays above the price. */
  function HighPeak(price: int): int {
    100 * (Max(price, 0) + 1)
  }

  lemma StopAbove(highest: int, trailPct: nat, price: int)
    requires highest >= HighPeak(price) && trailPct < 100
    ensures TrailingStop(highest, trailPct) > price
  {
    MulOrder(1, 100 - trailPct, highest);
    DivLower(highest * (100 - trailPct), 100, Max(price, 0) + 1);
  }

  lemma StopBelow(highest: int, trailPct: nat)
    requires trailPct >= 100 && highest > 0
    ensures TrailingStop(highest, trailPct) <= 0
  {
    MulOrder(100 - trailPct, 0, highest);
    DivLower(-(highest * (100 - trailPct)), 100, 0);
  }

  /** From a high peak on, a price lies below the stop if and only if some stop trails. */
  lemma BelowStopIffTrails(s: Strategy, price: int)
    requires s.highest >= HighPeak(price) && price > 0
    ensures BelowStop(s, price) <==> exists j :: 0 <= j < |s.stops| && Trails(s, s.stops[j], price)
  {
    if j :| 0 <= j < |s.stops| && Trails(s, s.stops[j], price) {
      var stops := Activated(s.stops, ProfitPct(s.entryPrice, price));
      TightestIsLeast(stops);
      assert stops[j].active && stops[j].trailPct < 100;
      StopAbove(Max(s.highest, price), TightestTrail(stops).value, price);
    }
    if BelowStop(s, price) {
      StopTrails(s, price);
    }
  }

  lemma StopTrails(s: Strategy, price: int)
    requires s.highest > 0 && price > 0 && BelowStop(s, price)
    ensures exists j :: 0 <= j < |s.stops| && Trails(s, s.stops[j], price)
  {
    var stops := Activated(s.stops, ProfitPct(s.entryPrice, price));
    TightestIsLeast(stops);
    var t := TightestTrail(stops).value;
    if t >= 100 {
      StopBelow(Max(s.highest, price), t);
    }
    var j :| 0 <= j < |stops| && stops[j].active && stops[j].trailPct == t;
    assert Trails(s, s.stops[j], price);
  }

  /** A large enough position sells both ways. */
  lemma LargeSellsBoth(s: Strategy, price: int)
    requires s.status == Active && SellsPart(s, price) && BelowStop(s, price)
    ensures Both(Check(s.(size := Pow(|s.tiers|)), price).sales)
  {
    var n := |s.tiers|;
    var r := s.(size := Pow(n));
    LargePositionSurvives(s.tiers, price, n);
    var i :| 0 <= i < n && Reached(s.tiers[i], price);
    ReachedTierSells(s.tiers, price, Pow(n), n, i);
    TiersSellOnce(s.tiers, price, Pow(n), n);
    var o := AfterTiers(r, price);
    var sales := Check(r, price).sales;
    assert sales == o.sales + [StopSale(o.next.size)];
    assert sales[0].TierSale? && sales[|o.sales|].StopSale?;
  }

  lemma BothMeansPart(r: Strategy, price: int)
    requires r.status == Active && Both(Check(r, price).sales)
    ensures SellsPart(r, price) && BelowStop(r, price)
  {
    var n, o := |r.tiers|, AfterTiers(r, price);
    TiersSellOnce(r.tiers, price, r.size, n);
    SoldTiersWereReached(r.tiers, price, r.size, n);
    assert o.sales != [] && o.next.size > 0;
    assert Reached(r.tiers[o.sales[0].tier], price);
    SurvivorMetSmallTiers(r.tiers, price, r.size, n);
  }

  /**
   Exactly when an active strategy, whatever its history, can sell both ways at a price: for
   some size, if and only if the price reaches an unexecuted tier, reaches only tiers below
   100%, and lies below the stop.
   */
  lemma SellsBothIff(s: Strategy, price: int)
    requires s.status == Active
    ensures SomeSizeSellsBoth(s, price) <==> SellsPart(s, price) && BelowStop(s, price)
  {
    if SellsPart(s, price) && BelowStop(s, price) {
      LargeSellsBoth(s, price);
    }
    if SomeSizeSellsBoth(s, price) {
      var size :| size > 0 && Both(Check(s.(size := size), price).sales);
      BothMeansPart(s.(size := size), price);
    }
  }

  /** The strategy can be reopened so that this price makes it sell both ways in one check. */
  ghost predicate CanSellBoth(s: Strategy, price: int) {
    exists peak, size :: size > 0 && Both(Check(Reopened(s, peak, size), price).sales)
  }

  /**
   The guard of NeverBoth cannot be widened: an active, oversold strategy can be brought, by one
   check and one adjustment, to sell both ways at a positive price if and only if that price
   reaches an unexecuted tier, reaches only tiers below 100%, and some stop trails by less than 100%.
   */
  lemma SellsBothIffExposed(s: Strategy, price: int)
    requires s.status == Active && s.size < 0 && s.highest > 0 && price > 0
    ensures CanSellBoth(s, price) <==> Exposed(s, price)
  {
    if Exposed(s, price) {
      var high := s.(highest := Max(s.highest, HighPeak(price)));
      BelowStopIffTrails(high, price);
      LargeSellsBoth(high, price);
      ReopenedState(s, HighPeak(price), Pow(|s.tiers|));
      assert Both(Check(Reopened(s, HighPeak(price), Pow(|s.tiers|)), price).sales);
    }
    if CanSellBoth(s, price) {
      var peak, size :| size > 0 && Both(Check(Reopened(s, peak, size), price).sales);
      ReopenedState(s, peak, size);
      BothMeansPart(Reopened(s, peak, size), price);
      StopTrails(Reopened(s, peak, size), price);
      var j :| 0 <= j < |s.stops| && Trails(Reopened(s, peak, size), s.stops[j], price);
      assert Trails(s, s.stops[j], price);
    }
  }

  // ---------- Both conditions of NeverBoth fail on real strategies ----------

  function Oversized(): Strategy {
    Strategy(1, 7, 100, 100, [TakeProfit(110, 20_000, false), TakeProfit(120, 5_000, false)],
             [StopLoss(10, 5, false)], 100, Active)
  }

  function Oversold(): Strategy {
    Strategy(1, 7, 100, -100, [TakeProfit(110, 20_000, true), TakeProfit(120, 5_000, false)],
             [StopLoss(10, 5, false)], 110, Active)
  }

  lemma OversizedTierOversells()
    ensures Check(Oversized(), 110) == Outcome(Oversold(), [TierSale(0, 200)])
  {
    var t := TiersAfter(Oversized().tiers, 110, 100, 1);
    assert t == TierState(Oversold().tiers, -100, [TierSale(0, 200)]);
    assert TiersAfter(Oversized().tiers, 110, 100, 2) == t;
  }

  /** A created strategy with a tier above 100% that one check oversells, and that price 120 then makes sell both ways. */
  lemma OversizedTierCounterexample()
    ensures Create(1, 7, 100, 100, Oversized().tiers, Oversized().stops) == Ok(Oversized())
    ensures TargetsAboveEntry(Oversized())
    ensures Check(Oversized(), 110).next == Oversold() && CanSellBoth(Oversold(), 120)
  {
    OversizedTierOversells();
    var s := Oversold();
    assert Reached(s.tiers[1], 120) && Trails(s, s.stops[0], 120);
    SellsBothIffExposed(s, 120);
  }

  /** A target below the entry price can be reached by a fall that also hits the stop. */
  lemma LowTargetCounterexample(s: Strategy)
    requires Create(1, 7, 100, 100, [TakeProfit(80, 5_000, false)], [StopLoss(0, 10, true)]) == Ok(s)
    ensures Both(Check(s, 85).sales)
  {
    assert TiersAfter(s.tiers, 85, 100, 1).size == 50;
    var stops := Activated(s.stops, -15);
    assert stops == s.stops;
    assert stops[..0] == [] && TightestTrail(stops) == Some(10);
    var sales := Check(s, 85).sales;
    assert sales == [TierSale(0, 50), StopSale(50)];
    assert sales[0].TierSale? && sales[1].StopSale?;
  }

  // ---------- Conservation ----------

  lemma StopsConserve(o: Outcome, price: int)
    ensures var r := AfterStops(o, price); r.next.size + Sold(r.sales) == o.next.size + Sold(o.sales)
  {
    SoldNext(o.sales, StopSale(o.next.size));
  }

  lemma TierLoopConserves(s: Strategy, price: int)
    ensures var o := AfterTiers(s, price); o.next.size + Sold(o.sales) == s.size
  {
    TiersConserve(s.tiers, price, s.size, |s.tiers|);
  }

  lemma CompletedConserves(o: Outcome)
    ensures var r := Completed(o); r.next.size == o.next.size && r.sales == o.sales
  {
  }

  lemma CheckConserves(s: Strategy, price: int)
    ensures var o := Check(s, price); o.next.size + Sold(o.sales) == s.size
  {
    if s.status == Active {
      var tiers := AfterTiers(s, price);
      TierLoopConserves(s, price);
      StopsConserve(tiers, price);
      CompletedConserves(AfterStops(tiers, price));
    }
  }

  /** In every run, whatever the tiers: initial size plus manual changes equals sold plus remaining. */
  lemma {:induction false} RunConserves(s: Strategy, ops: seq<Op>)
    ensures s.size + ManualChange(s, ops) == Sold(Run(s, ops).sales) + Run(s, ops).next.size
    decreases |ops|
  {
    if ops != [] {
      var k := |ops| - 1;
      RunConserves(s, ops[..k]);
      var before := Run(s, ops[..k]);
      SoldConcat(before.sales, Step(before.next, ops[k]).sales);
      if ops[k].PriceCheck? {
        CheckConserves(before.next, ops[k].price);
      }
    }
  }

  ghost predicate Sound(s: Strategy) {
    BoundedTiers(s.tiers) && s.size >= 0 && (s.status == Active ==> s.size > 0)
  }

  lemma CheckKeepsSound(s: Strategy, price: int)
    requires Sound(s)
    ensures Sound(Check(s, price).next)
  {
    TiersConserve(s.tiers, price, s.size, |s.tiers|);
    TiersKeepSizeNonNegative(s.tiers, price, s.size, |s.tiers|);
  }

  lemma {:induction false} RunKeepsSound(s: Strategy, ops: seq<Op>)
    requires Sound(s)
    ensures Sound(Run(s, ops).next)
    decreases |ops|
  {
    if ops != [] {
      var k := |ops| - 1;
      RunKeepsSound(s, ops[..k]);
      if ops[k].PriceCheck? {
        CheckKeepsSound(Run(s, ops[..k]).next, ops[k].price);
      }
    }
  }

  /** With tiers of at most 100% the position never goes negative, and Active means something is left. */
  lemma PositionNeverNegative(user: Address, signalId: nat, entryPrice: int, size: int,
                              tiers: seq<TakeProfit>, stops: seq<StopLoss>, s: Strategy, ops: seq<Op>)
    requires Create(user, signalId, entryPrice, size, tiers, stops) == Ok(s)
    requires BoundedTiers(tiers)
    ensures var e := Run(s, ops).next; e.size >= 0 && (e.status == Active ==> e.size > 0)
  {
    RunKeepsSound(s, ops);
  }

  // ---------- Each tier sells at most once, and nothing after the end ----------

  lemma CheckKeepsTiers(s: Strategy, price: int)
    ensures SameTiers(s.tiers, Check(s, price).next.tiers)
  {
    TiersConserve(s.tiers, price, s.size, |s.tiers|);
  }

  lemma {:induction false} RunKeepsTiers(s: Strategy, ops: seq<Op>)
    ensures SameTiers(s.tiers, Run(s, ops).next.tiers)
    decreases |ops|
  {
    if ops != [] {
      var k := |ops| - 1;
      RunKeepsTiers(s, ops[..k]);
      if ops[k].PriceCheck? {
        CheckKeepsTiers(Run(s, ops[..k]).next, ops[k].price);
      }
    }
  }

  /** Sales recorded so far: distinct tiers, all executed now and not at the start, at most one stop, at the end. */
  ghost predicate Ledger(start: Strategy, now: Strategy, sales: seq<Sale>) {
    && SameTiers(start.tiers, now.tiers)
    && (forall k :: 0 <= k < |sales| && sales[k].TierSale? ==>
          sales[k].tier < |start.tiers| && !start.tiers[sales[k].tier].executed && now.tiers[sales[k].tier].executed)
    && (forall j, k :: 0 <= j < k < |sales| && sales[j].TierSale? && sales[k].TierSale? ==> sales[j].tier != sales[k].tier)
    && (forall k :: 0 <= k < |sales| && sales[k].StopSale? ==> k == |sales| - 1 && now.status != Active)
    && (forall k :: 0 <= k < |sales| && sales[k].TierSale? ==> sales[k].amount >= 1)
    && (forall k :: 0 <= k < |sales| && sales[k].StopSale? ==> sales[k].amount >= 1)
  }

  lemma TierLedger(s: Strategy, price: int)
    ensures var o := AfterTiers(s, price); Ledger(s, o.next, o.sales) && forall k :: 0 <= k < |o.sales| ==> o.sales[k].TierSale?
  {
    TiersConserve(s.tiers, price, s.size, |s.tiers|);
    TiersSellOnce(s.tiers, price, s.size, |s.tiers|);
  }

  lemma StopLedger(s: Strategy, o: Outcome, price: int)
    requires Ledger(s, o.next, o.sales) && forall k :: 0 <= k < |o.sales| ==> o.sales[k].TierSale?
    ensures Ledger(s, AfterStops(o, price).next, AfterStops(o, price).sales)
  {
  }

  lemma CheckLedger(s: Strategy, price: int)
    ensures Ledger(s, Check(s, price).next, Check(s, price).sales)
  {
    TierLedger(s, price);
    StopLedger(s, AfterTiers(s, price), price);
  }

  lemma LedgerChain(a: Strategy, b: Strategy, c: Strategy, first: seq<Sale>, second: seq<Sale>)
    requires Ledger(a, b, first) && Ledger(b, c, second)
    requires b.status != Active ==> second == [] && c.status != Active
    ensures Ledger(a, c, first + second)
  {
  }

  /** Over a whole run every tier sells at most once, and a stop sale is the last sale. */
  lemma {:induction false} RunLedger(s: Strategy, ops: seq<Op>)
    ensures Ledger(s, Run(s, ops).next, Run(s, ops).sales)
    decreases |ops|
  {
    if ops != [] {
      var k := |ops| - 1;
      RunLedger(s, ops[..k]);
      var before := Run(s, ops[..k]);
      var last := Step(before.next, ops[k]);
      if ops[k].PriceCheck? {
        CheckLedger(before.next, ops[k].price);
      }
      LedgerChain(s, before.next, last.next, before.sales, last.sales);
    }
  }

  /** A strategy that has left Active never sells again and never becomes Active again. */
  lemma {:induction false} EndedStaysEnded(s: Strategy, ops: seq<Op>)
    requires s.status != Active
    ensures Run(s, ops).next.status != Active && Run(s, ops).sales == []
    decreases |ops|
  {
    if ops != [] {
      EndedStaysEnded(s, ops[..|ops| - 1]);
    }
  }

  // ---------- The stop ratchets ----------

  ghost predicate BoundedTrails(stops: seq<StopLoss>) {
    forall i :: 0 <= i < |stops| ==> stops[i].trailPct <= 100
  }

  /** Activating stops can only tighten the trail. */
  lemma {:induction false} TrailTightens(stops: seq<StopLoss>, profit: int)
    ensures var before, after := TightestTrail(stops), TightestTrail(Activated(stops, profit));
            before.Some? ==> after.Some? && after.value <= before.value
    decreases |stops|
  {
    if stops != [] {
      var k := |stops| - 1;
      TrailTightens(stops[..k], profit);
      assert Activated(stops, profit)[..k] == Activated(stops[..k], profit);
    }
  }

  lemma {:induction false} TrailBounded(stops: seq<StopLoss>)
    requires BoundedTrails(stops)
    ensures TightestTrail(stops).Some? ==> TightestTrail(stops).value <= 100
    decreases |stops|
  {
    if stops != [] {
      TrailBounded(stops[..|stops| - 1]);
    }
  }

  lemma TrailingStopMonotone(h: int, h': int, t: nat, t': nat)
    requires 0 < h <= h' && t' <= t <= 100
    ensures TrailingStop(h, t) <= TrailingStop(h', t')
  {
    MulOrder(h, h', 100 - t);
    MulOrder(100 - t, 100 - t', h');
    MulOrder(0, h, 100 - t);
    DivMonotone(h * (100 - t), h' * (100 - t'), 100);
  }

  /** One trail never lowers the stop when the peak rises, for all peaks, if and only if it is at most 100%. */
  lemma TrailRatchetsIff(trailPct: nat)
    ensures (forall h, h' :: 0 < h <= h' ==> TrailingStop(h, trailPct) <= TrailingStop(h', trailPct)) <==> trailPct <= 100
  {
    if trailPct <= 100 {
      forall h, h' | 0 < h <= h' ensures TrailingStop(h, trailPct) <= TrailingStop(h', trailPct) {
        TrailingStopMonotone(h, h', trailPct, trailPct);
      }
    } else {
      assert TrailingStop(100, trailPct) == 100 - trailPct;
      assert TrailingStop(200, trailPct) == 2 * (100 - trailPct);
    }
  }

  ghost predicate NotBelow(before: Option<int>, after: Option<int>) {
    before.Some? ==> after.Some? && before.value <= after.value
  }

  lemma CheckRatchets(s: Strategy, price: int)
    requires s.highest > 0 && BoundedTrails(s.stops)
    ensures var e := Check(s, price).next;
            && e.highest >= s.highest && BoundedTrails(e.stops)
            && NotBelow(EffectiveStop(s), EffectiveStop(e))
  {
    var e := Check(s, price).next;
    TrailTightens(s.stops, ProfitPct(s.entryPrice, price));
    TrailBounded(s.stops);
    if EffectiveStop(s).Some? {
      var t := TightestTrail(s.stops).value;
      assert TightestTrail(e.stops).Some? && TightestTrail(e.stops).value <= t;
      TrailingStopMonotone(s.highest, e.highest, t, TightestTrail(e.stops).value);
    }
  }

  /** With trails of at most 100% the effective stop never falls during a run. */
  lemma {:induction false} RunRatchets(s: Strategy, ops: seq<Op>)
    requires s.highest > 0 && BoundedTrails(s.stops)
    ensures var e := Run(s, ops).next;
            && e.highest >= s.highest && BoundedTrails(e.stops)
            && NotBelow(EffectiveStop(s), EffectiveStop(e))
    decreases |ops|
  {
    if ops != [] {
      var k := |ops| - 1;
      RunRatchets(s, ops[..k]);
      if ops[k].PriceCheck? {
        CheckRatchets(Run(s, ops[..k]).next, ops[k].price);
      }
    }
  }

  /** A stop sale closes everything that is left, at a price below the stop it reports. */
  lemma StopSaleClosesAll(s: Strategy, price: int, k: nat)
    requires k < |Check(s, price).sales| && Check(s, price).sales[k].StopSale?
    ensures var e := Check(s, price).next;
            && e.size == 0 && e.status == StopHit
            && EffectiveStop(e).Some? && price < EffectiveStop(e).value
  {
    TierLedger(s, price);
  }

  /** The tiers a check sells are exactly the unexecuted ones it reaches, as long as a position remains. */
  lemma CheckSellsReachedTiers(s: Strategy, price: int, i: nat)
    requires s.status == Active && i < |s.tiers|
    ensures var o := Check(s, price);
            && (forall k :: 0 <= k < |o.sales| && o.sales[k] == TierSale(i, o.sales[k].amount) ==> !s.tiers[i].executed && price >= s.tiers[i].price)
            && (AfterTiers(s, price).next.size > 0 && !s.tiers[i].executed && price >= s.tiers[i].price ==> o.next.tiers[i].executed)
  {
    TiersSellOnce(s.tiers, price, s.size, |s.tiers|);
    SoldTiersWereReached(s.tiers, price, s.size, |s.tiers|);
    ReachedTiersExecuted(s.tiers, price, s.size, |s.tiers|);
  }

  /** A check that leaves a position open has seen a price at or above the effective stop. */
  lemma OpenMeansAboveStop(s: Strategy, price: int)
    requires Check(s, price).next.status == Active && Check(s, price).next.size > 0
    ensures var stop := EffectiveStop(Check(s, price).next); stop.Some? ==> price >= stop.value
  {
  }
}
