/**
 When portfolio insurance acts, and by how much, in terms of values, prices and thresholds
 only: every rounded quantity is given by the products it lies between.
 */
module HedgeDecisions {
  import opened FixedPoint
  import opened PortfolioInsurance

  // ---------- Values ----------

  /** A book is worth the sum of its hedges, and one hedge its units times the price, over a hundred, rounded toward zero. */
  lemma BookIsWorth(m: Market, a: seq<Hedge>, b: seq<Hedge>, h: Hedge)
    ensures BookValue(m, []) == 0 && BookValue(m, a + b) == BookValue(m, a) + BookValue(m, b)
    ensures Truncated(h.amount * (if h.asset in m.prices then m.prices[h.asset] else h.entryPrice), 100, BookValue(m, [h]))
  {
    BookValueConcat(m, a, b);
    WorthOfOne(m, h);
    TruncDivMeaning(h.amount * PriceOf(m, h), 100);
  }

  /** The value that should be hedged: the configured share of the portfolio, rounded toward zero. */
  ghost predicate IsTarget(p: Policy, m: Market, target: int) {
    Truncated(m.value * p.hedgeRatioBps, 10_000, target)
  }

  lemma TargetMeaning(p: Policy, m: Market)
    ensures IsTarget(p, m, Target(p, m))
  {
    TruncDivMeaning(m.value * p.hedgeRatioBps, 10_000);
  }

  /** A reading raises the mark to the value; the drawdown is what is missing from the mark, in basis points. */
  lemma DrawdownMeaning(p: Policy, value: int)
    requires p.highWaterMark >= 0
    ensures var mark := if value > p.highWaterMark then value else p.highWaterMark;
            && Observe(p, value) == p.(highWaterMark := mark)
            && (if mark == 0 then Drawdown(p, value) == 0 else Truncated((mark - value) * 10_000, mark, Drawdown(p, value)))
  {
    var mark := Observe(p, value).highWaterMark;
    if mark > 0 {
      TruncDivMeaning((mark - value) * 10_000, mark);
    }
  }

  /** The value has fallen by less than `bps` of the mark. */
  ghost predicate FellLess(mark: int, value: int, bps: nat) {
    (mark - value) * 10_000 < bps * mark
  }

  lemma DrawdownBelowIff(p: Policy, value: int, bps: nat)
    requires value > 0
    ensures Drawdown(p, value) < bps <==> FellLess(Max(p.highWaterMark, value), value, bps)
  {
    var mark := Max(p.highWaterMark, value);
    var d := Drawdown(p, value);
    TruncDivMeaning((mark - value) * 10_000, mark);
    MulOrder(d + 1, bps, mark);
    MulOrder(bps, d, mark);
  }

  // ---------- Opening ----------

  ghost predicate AllPriced(m: Market) {
    m.holdings != [] && forall i :: 0 <= i < |m.holdings| && m.holdings[i] in m.prices ==> m.prices[m.holdings[i]] > 0
  }

  /**
   An enabled policy without hedges opens them if and only if the value has fallen by the
   threshold or more; the opened book is then worth the target, short of it only by rounding.
   */
  lemma OpensOnDrawdown(p: Policy, m: Market) returns (target: int)
    requires p.enabled && p.hedges == [] && m.value > 0 && AllPriced(m)
    ensures IsTarget(p, m, target)
    ensures var e, mark := Apply(p, m), Max(p.highWaterMark, m.value);
            && e.policy == p.(highWaterMark := mark, hedges := e.policy.hedges) && e.trades == AssetsOf(e.policy.hedges)
            && (if FellLess(mark, m.value, p.maxDrawdownBps) then e.policy.hedges == []
                else target - (|m.holdings| - 1) - Rounding(m, m.holdings) <= BookValue(m, e.policy.hedges) <= target)
  {
    target := Target(p, m);
    TargetMeaning(p, m);
    DrawdownBelowIff(p, m.value, p.maxDrawdownBps);
    var hedges := OptimalHedges(m, m.value, p.hedgeRatioBps);
    assert [] + hedges == hedges;
    if !FellLess(Max(p.highWaterMark, m.value), m.value, p.maxDrawdownBps) {
      OptimalHedgesShortfall(m, m.value, p.hedgeRatioBps);
      OptimalHedgesWorth(m, m.value, p.hedgeRatioBps);
    }
  }

  /**
   A disabled policy opens and rebalances nothing, one that is hedged already opens nothing
   more, and without hedges there is nothing to rebalance or close.
   */
  lemma OtherwiseNothing(p: Policy, m: Market)
    ensures !p.enabled || p.hedges == [] ==> Rebalance(p, m) == Effect(p, [])
    ensures p.hedges == [] ==> Recover(p, m) == Effect(p, [])
    ensures !p.enabled ==> Apply(p, m) == Effect(p, [])
    ensures p.enabled && p.hedges != [] ==> Apply(p, m) == Effect(p.(highWaterMark := Max(p.highWaterMark, m.value)), [])
  {
  }

  /** h is the hedge of one holding for the given value: as many whole units as the value buys at the price. */
  ghost predicate IsHedgeOf(m: Market, asset: nat, perAsset: int, h: Hedge) {
    && h.asset == asset && h.purpose == AssetSpecificHedge(asset) && h.amount > 0
    && h.entryPrice == (if asset in m.prices then m.prices[asset] else 1)
    && Truncated(perAsset * 100, h.entryPrice, h.amount)
  }

  /** Every share buys at least one unit of its holding. */
  ghost predicate AllAffordable(m: Market, holdings: seq<nat>, perAsset: int) {
    forall i :: 0 <= i < |holdings| ==> 0 < PriceToHedge(m, holdings[i]) <= perAsset * 100
  }

  lemma HedgeOfHolding(m: Market, asset: nat, perAsset: int)
    requires 0 < PriceToHedge(m, asset) <= perAsset * 100
    ensures |HedgeFor(m, asset, perAsset)| == 1 && IsHedgeOf(m, asset, perAsset, HedgeFor(m, asset, perAsset)[0])
  {
    TruncDivMeaning(perAsset * 100, PriceToHedge(m, asset));
    DivLower(perAsset * 100, PriceToHedge(m, asset), 1);
  }

  lemma {:induction false} OneHedgePerHolding(m: Market, holdings: seq<nat>, perAsset: int)
    requires AllAffordable(m, holdings, perAsset)
    ensures var hedges := HedgesFor(m, holdings, perAsset);
            |hedges| == |holdings| && forall i :: 0 <= i < |hedges| ==> IsHedgeOf(m, holdings[i], perAsset, hedges[i])
    decreases |holdings|
  {
    if holdings != [] {
      var k := |holdings| - 1;
      OneHedgePerHolding(m, holdings[..k], perAsset);
      HedgeOfHolding(m, holdings[k], perAsset);
    }
  }

  /** Equal shares of the asked value: when each buys a unit, one hedge per holding, in order. */
  lemma EqualShares(m: Market, total: int, ratioBps: nat) returns (share: int, perAsset: int)
    requires total > 0 && m.holdings != []
    ensures Truncated(total * ratioBps, 10_000, share) && Truncated(share, |m.holdings|, perAsset)
    ensures AllAffordable(m, m.holdings, perAsset) ==>
      var hedges := OptimalHedges(m, total, ratioBps);
      |hedges| == |m.holdings| && forall i :: 0 <= i < |hedges| ==> IsHedgeOf(m, m.holdings[i], perAsset, hedges[i])
  {
    share := TruncDiv(total * ratioBps, 10_000);
    perAsset := TruncDiv(share, |m.holdings|);
    TruncDivMeaning(total * ratioBps, 10_000);
    TruncDivMeaning(share, |m.holdings|);
    if AllAffordable(m, m.holdings, perAsset) {
      OneHedgePerHolding(m, m.holdings, perAsset);
    }
  }

  // ---------- Closing ----------

  /** Hedges of a portfolio with value are all closed if and only if it is within 500 basis points of the mark again. */
  lemma ClosesOnRecovery(p: Policy, m: Market)
    requires p.hedges != [] && m.value > 0
    ensures var mark := Max(p.highWaterMark, m.value);
            Recover(p, m) == if FellLess(mark, m.value, 500) then Effect(p.(highWaterMark := mark, hedges := []), AssetsOf(p.hedges))
                             else Effect(p.(highWaterMark := mark), [])
  {
    DrawdownBelowIff(p, m.value, 500);
  }

  // ---------- Rebalancing ----------

  /** The book is off its target by at least the threshold, relative to the target. */
  ghost predicate OffTarget(p: Policy, target: int, book: int) {
    (if target > book then target - book else book - target) * 10_000 >= p.thresholdBps * (if target > 0 then target else 1)
  }

  lemma DeltaReachesIff(p: Policy, target: int, book: int)
    ensures DeltaBps(target - book, target) >= p.thresholdBps <==> OffTarget(p, target, book)
  {
    var base := if target > 0 then target else 1;
    var d := DeltaBps(target - book, target);
    TruncDivMeaning(Abs(target - book) * 10_000, base);
    MulOrder(p.thresholdBps, d, base);
    MulOrder(d + 1, p.thresholdBps, base);
  }

  /** A rebalance changes nothing but the hedges, and those only when the book is off its target by the threshold. */
  lemma RebalancesWhenOff(p: Policy, m: Market) returns (target: int, touched: nat, head: seq<Hedge>)
    requires p.enabled && p.hedges != []
    ensures IsTarget(p, m, target)
    ensures var e, book := Rebalance(p, m), BookValue(m, p.hedges);
            && e.policy == p.(hedges := e.policy.hedges)
            && (!OffTarget(p, target, book) ==> e == Effect(p, []))
            && (OffTarget(p, target, book) && target > book ==>
                  && p.hedges <= e.policy.hedges && e.trades == AssetsOf(e.policy.hedges[|p.hedges|..])
                  && BookValue(m, e.policy.hedges) <= target
                  && (AllPriced(m) ==> target - (|m.holdings| - 1) - Rounding(m, m.holdings) <= BookValue(m, e.policy.hedges)))
            && (OffTarget(p, target, book) && target <= book ==>
                  touched <= |p.hedges| && e.trades == AssetsOf(p.hedges[..touched])
                  && |head| <= 1 && e.policy.hedges == head + p.hedges[touched..])
  {
    target, touched, head := Target(p, m), 0, [];
    var book := BookValue(m, p.hedges);
    TargetMeaning(p, m);
    DeltaReachesIff(p, target, book);
    if OffTarget(p, target, book) {
      if target > book {
        IncreaseStaysBelowTarget(p, m);
        if AllPriced(m) {
          IncreaseComesClose(p, m);
        }
        var more := OptimalHedges(m, target - book, 10_000);
        assert (p.hedges + more)[|p.hedges|..] == more;
      } else {
        touched, head := TradesAreTouched(m, p.hedges, Abs(target - book));
      }
    }
  }

  /** The trim branch, for positive prices and a nonnegative target: at or above the target, by at most one unit of one hedge. */
  lemma TrimsToTarget(p: Policy, m: Market) returns (target: int, j: nat)
    requires p.enabled && BookOk(p.hedges) && p.hedges != [] && PositivePrices(m) && m.value >= 0
    ensures IsTarget(p, m, target) && target >= 0
    ensures var book, after := BookValue(m, p.hedges), BookValue(m, Rebalance(p, m).policy.hedges);
            OffTarget(p, target, book) && target <= book ==>
              target <= after && (after > target ==> j < |p.hedges| && after - target <= (PriceOf(m, p.hedges[j]) + 98) / 100)
  {
    target, j := Target(p, m), 0;
    TargetMeaning(p, m);
    MulOrder(0, m.value, p.hedgeRatioBps);
    var book := BookValue(m, p.hedges);
    DeltaReachesIff(p, target, book);
    if OffTarget(p, target, book) && target <= book {
      var excess;
      j, excess := TrimStaysAboveTarget(p, m);
    }
  }

  /** The first n hedges were touched and reported; of them at most `head` is left, and the others are kept as they are. */
  ghost predicate Touched(hedges: seq<Hedge>, t: TrimStep, n: nat, head: seq<Hedge>) {
    && n <= |hedges| && |head| <= 1
    && t.trades == AssetsOf(hedges[..n]) && t.kept == head + hedges[n..]
    && (t.left > 0 ==> n == |hedges| && head == [])
  }

  lemma KeepOneMore(front: seq<Hedge>, h: Hedge, t: TrimStep, n: nat, head: seq<Hedge>)
    requires Touched(front, t, n, head) && t.left <= 0
    ensures Touched(front + [h], TrimStep(t.kept + [h], t.trades, t.left), n, head)
  {
    var all := front + [h];
    assert all[..n] == front[..n] && all[n..] == front[n..] + [h];
    assert (head + front[n..]) + [h] == head + (front[n..] + [h]);
  }

  lemma TouchOneMore(front: seq<Hedge>, h: Hedge, t: TrimStep, n: nat, head: seq<Hedge>, kept: seq<Hedge>, left: int)
    requires Touched(front, t, n, head) && t.left > 0 && |kept| <= 1 && (left > 0 ==> kept == [])
    ensures Touched(front + [h], TrimStep(t.kept + kept, t.trades + [h.asset], left), |front| + 1, kept)
  {
    var all := front + [h];
    assert front[..|front|] == front && all[..|front| + 1] == all;
    assert AssetsOf(all) == AssetsOf(front) + [h.asset];
  }

  /** The ids a trim reports are those of the hedges it touched, a prefix of the book; what it did not touch it keeps. */
  lemma {:induction false} TradesAreTouched(m: Market, hedges: seq<Hedge>, remaining: int) returns (n: nat, head: seq<Hedge>)
    ensures Touched(hedges, Trim(m, hedges, remaining), n, head)
    decreases |hedges|
  {
    n, head := 0, [];
    if hedges != [] {
      var k := |hedges| - 1;
      var front, h := hedges[..k], hedges[k];
      assert hedges == front + [h];
      n, head := TradesAreTouched(m, front, remaining);
      var t := Trim(m, front, remaining);
      var o := TrimOne(m, h, t.left);
      if t.left > 0 {
        TouchOneMore(front, h, t, n, head, o.kept, o.left);
        n, head := k + 1, o.kept;
      } else {
        KeepOneMore(front, h, t, n, head);
        assert t.trades + [] == t.trades;
      }
    }
  }
}
