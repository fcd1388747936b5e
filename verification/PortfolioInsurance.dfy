/**
 Portfolio insurance: a high-water mark, hedges opened on a drawdown, and rebalancing of
 the hedge book toward a share of the portfolio value.

 Prices, holdings and the portfolio value are what the risk module reports at the moment of
 the call; they are a parameter of every operation.
 */
module PortfolioInsurance {
  import opened Common
  import opened FixedPoint

  datatype Error = InvalidInsuranceConfig | InsuranceNotConfigured

  datatype Purpose = PortfolioProtection | AssetSpecificHedge(asset: nat)

  datatype Hedge = Hedge(asset: nat, amount: int, entryPrice: int, purpose: Purpose)

  datatype Policy = Policy(
    enabled: bool, maxDrawdownBps: nat, hedgeRatioBps: nat, thresholdBps: nat,
    hedges: seq<Hedge>, highWaterMark: int)

  /** Asset prices known to the risk module, the held assets in key order, and the portfolio value. */
  datatype Market = Market(prices: map<nat, int>, holdings: seq<nat>, value: int)

  // ---------- Valuation ----------

  function PriceOf(m: Market, h: Hedge): int {
    if h.asset in m.prices then m.prices[h.asset] else h.entryPrice
  }

  function Worth(m: Market, h: Hedge): int {
    TruncDiv(h.amount * PriceOf(m, h), 100)
  }

  function BookValue(m: Market, hedges: seq<Hedge>): int {
    if hedges == [] then 0 else BookValue(m, hedges[..|hedges| - 1]) + Worth(m, hedges[|hedges| - 1])
  }

  lemma {:induction false} BookValueConcat(m: Market, a: seq<Hedge>, b: seq<Hedge>)
    ensures BookValue(m, a + b) == BookValue(m, a) + BookValue(m, b)
    decreases |b|
  {
    if b == [] {
      assert a + b == a;
    } else {
      var k := |b| - 1;
      assert (a + b)[..|a + b| - 1] == a + b[..k];
      BookValueConcat(m, a, b[..k]);
    }
  }

  method ValueBook(m: Market, hedges: seq<Hedge>) returns (total: int)
    ensures total == BookValue(m, hedges)
  {
    total := 0;
    for i := 0 to |hedges|
      invariant total == BookValue(m, hedges[..i])
    {
      assert hedges[..i + 1][..i] == hedges[..i];
      total := total + TruncDiv(hedges[i].amount * PriceOf(m, hedges[i]), 100);
    }
    assert hedges[..|hedges|] == hedges;
  }

  // ---------- Opening hedges ----------

  /** The hedge of one holding for a given value: nothing when the price or the amount is not positive. */
  function HedgeFor(m: Market, asset: nat, perAsset: int): seq<Hedge> {
    var price := if asset in m.prices then m.prices[asset] else 1;
    if price <= 0 then []
    else
      var amount := TruncDiv(perAsset * 100, price);
      if amount <= 0 then [] else [Hedge(asset, amount, price, AssetSpecificHedge(asset))]
  }

  function HedgesFor(m: Market, holdings: seq<nat>, perAsset: int): seq<Hedge> {
    if holdings == [] then []
    else
      var k := |holdings| - 1;
      HedgesFor(m, holdings[..k], perAsset) + HedgeFor(m, holdings[k], perAsset)
  }

  /** Equal-weight hedges worth a share of `total`. */
  function OptimalHedges(m: Market, total: int, ratioBps: nat): seq<Hedge> {
    if total <= 0 || m.holdings == [] then []
    else HedgesFor(m, m.holdings, TruncDiv(TruncDiv(total * ratioBps, 10_000), |m.holdings|))
  }

  method BuildHedges(m: Market, holdings: seq<nat>, perAsset: int) returns (hedges: seq<Hedge>)
    ensures hedges == HedgesFor(m, holdings, perAsset)
  {
    hedges := [];
    for i := 0 to |holdings|
      invariant hedges == HedgesFor(m, holdings[..i], perAsset)
    {
      assert holdings[..i + 1][..i] == holdings[..i];
      var asset := holdings[i];
      var price := if asset in m.prices then m.prices[asset] else 1;
      if price > 0 {
        var amount := TruncDiv(perAsset * 100, price);
        if amount > 0 {
          hedges := hedges + [Hedge(asset, amount, price, AssetSpecificHedge(asset))];
        }
      }
    }
    assert holdings[..|holdings|] == holdings;
  }

  method CalculateOptimalHedges(m: Market, total: int, ratioBps: nat) returns (hedges: seq<Hedge>)
    ensures hedges == OptimalHedges(m, total, ratioBps)
  {
    if total <= 0 {
      return [];
    }
    var hedgeValue := TruncDiv(total * ratioBps, 10_000);
    var n := |m.holdings|;
    if n == 0 {
      return [];
    }
    hedges := BuildHedges(m, m.holdings, TruncDiv(hedgeValue, n));
  }

  // ---------- Trimming ----------

  /** What happens to one hedge, and how much value remains to be closed after it. */
  datatype TrimStep = TrimStep(kept: seq<Hedge>, trades: seq<nat>, left: int)

  function TrimOne(m: Market, h: Hedge, remaining: int): TrimStep {
    var worth := Worth(m, h);
    if remaining <= 0 then TrimStep([h], [], remaining)
    else if worth <= remaining then TrimStep([], [h.asset], remaining - worth)
    else
      var closed := TruncDiv(remaining * 100, Max(PriceOf(m, h), 1));
      var reduced := h.(amount := h.amount - closed);
      TrimStep(if reduced.amount > 0 then [reduced] else [], [h.asset], 0)
  }

  /** Closes hedges from the front until `remaining` of value is gone; the last one partially. */
  function Trim(m: Market, hedges: seq<Hedge>, remaining: int): TrimStep {
    if hedges == [] then TrimStep([], [], remaining)
    else
      var k := |hedges| - 1;
      var t := Trim(m, hedges[..k], remaining);
      var o := TrimOne(m, hedges[k], t.left);
      TrimStep(t.kept + o.kept, t.trades + o.trades, o.left)
  }

  method TrimHedges(m: Market, hedges: seq<Hedge>, reduce: int) returns (kept: seq<Hedge>, trades: seq<nat>)
    ensures kept == Trim(m, hedges, reduce).kept && trades == Trim(m, hedges, reduce).trades
  {
    var remaining := reduce;
    kept, trades := [], [];
    for i := 0 to |hedges|
      invariant TrimStep(kept, trades, remaining) == Trim(m, hedges[..i], reduce)
    {
      assert hedges[..i + 1][..i] == hedges[..i];
      var h := hedges[i];
      var price := PriceOf(m, h);
      var worth := TruncDiv(h.amount * price, 100);
      if remaining <= 0 {
        kept := kept + [h];
      } else if worth <= remaining {
        remaining := remaining - worth;
        trades := trades + [h.asset];
      } else {
        var closed := TruncDiv(remaining * 100, Max(price, 1));
        h := h.(amount := h.amount - closed);
        remaining := 0;
        trades := trades + [h.asset];
        if h.amount > 0 {
          kept := kept + [h];
        }
      }
    }
    assert hedges[..|hedges|] == hedges;
  }

  // ---------- Operations on a policy ----------

  datatype Effect = Effect(policy: Policy, trades: seq<nat>)

  function Observe(p: Policy, value: int): Policy {
    if value > p.highWaterMark then p.(highWaterMark := value) else p
  }

  function Drawdown(p: Policy, value: int): int {
    var mark := Observe(p, value).highWaterMark;
    if mark == 0 then 0 else TruncDiv((mark - value) * 10_000, mark)
  }

  function AssetsOf(hedges: seq<Hedge>): seq<nat> {
    seq(|hedges|, i requires 0 <= i < |hedges| => hedges[i].asset)
  }

  function Apply(p: Policy, m: Market): Effect {
    if !p.enabled then Effect(p, [])
    else
      var observed := Observe(p, m.value);
      if Drawdown(p, m.value) < p.maxDrawdownBps || p.hedges != [] then Effect(observed, [])
      else
        var hedges := OptimalHedges(m, m.value, p.hedgeRatioBps);
        Effect(observed.(hedges := observed.hedges + hedges), AssetsOf(hedges))
  }

  function Target(p: Policy, m: Market): int {
    TruncDiv(m.value * p.hedgeRatioBps, 10_000)
  }

  function DeltaBps(delta: int, target: int): int {
    TruncDiv(Abs(delta) * 10_000, if target > 0 then target else 1)
  }

  function Rebalance(p: Policy, m: Market): Effect {
    if !p.enabled || p.hedges == [] then Effect(p, [])
    else
      var delta := Target(p, m) - BookValue(m, p.hedges);
      if DeltaBps(delta, Target(p, m)) < p.thresholdBps then Effect(p, [])
      else if delta > 0 then
        var more := OptimalHedges(m, delta, 10_000);
        Effect(p.(hedges := p.hedges + more), AssetsOf(more))
      else
        var t := Trim(m, p.hedges, Abs(delta));
        Effect(p.(hedges := t.kept), t.trades)
  }

  function Recover(p: Policy, m: Market): Effect {
    if p.hedges == [] then Effect(p, [])
    else
      var observed := Observe(p, m.value);
      if Drawdown(p, m.value) >= 500 then Effect(observed, [])
      else Effect(observed.(hedges := []), AssetsOf(p.hedges))
  }

  predicate ValidConfig(maxDrawdownBps: nat, hedgeRatioBps: nat) {
    0 < maxDrawdownBps <= 10_000 && 0 < hedgeRatioBps <= 10_000
  }

  class InsuranceBook {
    var policies: map<Address, Policy>

    constructor ()
      ensures policies == map[]
    {
      policies := map[];
    }

    method Configure(user: Address, enabled: bool, maxDrawdownBps: nat, hedgeRatioBps: nat, thresholdBps: nat)
      returns (r: Result<(), Error>)
      modifies this
      ensures r.Ok? <==> 0 < maxDrawdownBps <= 10_000 && 0 < hedgeRatioBps <= 10_000
      ensures r.Err? ==> r.error == InvalidInsuranceConfig && policies == old(policies)
      ensures r.Ok? ==>
        var hedges := if user in old(policies) then old(policies)[user].hedges else [];
        var mark := if user in old(policies) then old(policies)[user].highWaterMark else 0;
        policies == old(policies)[user := Policy(enabled, maxDrawdownBps, hedgeRatioBps, thresholdBps, hedges, mark)]
    {
      if maxDrawdownBps == 0 || maxDrawdownBps > 10_000 {
        return Err(InvalidInsuranceConfig);
      }
      if hedgeRatioBps == 0 || hedgeRatioBps > 10_000 {
        return Err(InvalidInsuranceConfig);
      }
      var mark, hedges := 0, [];
      if user in policies {
        mark, hedges := policies[user].highWaterMark, policies[user].hedges;
      }
      policies := policies[user := Policy(enabled, maxDrawdownBps, hedgeRatioBps, thresholdBps, hedges, mark)];
      r := Ok(());
    }

    method CalculateDrawdown(user: Address, m: Market) returns (r: Result<int, Error>)
      modifies this
      ensures user !in old(policies) ==> r == Err(InsuranceNotConfigured) && policies == old(policies)
      ensures user in old(policies) ==>
        var p := old(policies)[user];
        r == Ok(Drawdown(p, m.value)) && policies == old(policies)[user := Observe(p, m.value)]
    {
      if user !in policies {
        return Err(InsuranceNotConfigured);
      }
      var p := policies[user];
      if m.value > p.highWaterMark {
        p := p.(highWaterMark := m.value);
        policies := policies[user := p];
      } else {
        assert policies[user := p] == policies;
      }
      if p.highWaterMark == 0 {
        return Ok(0);
      }
      r := Ok(TruncDiv((p.highWaterMark - m.value) * 10_000, p.highWaterMark));
    }

    method CheckAndApplyHedge(user: Address, m: Market) returns (r: Result<seq<nat>, Error>)
      modifies this
      ensures user !in old(policies) ==> r == Err(InsuranceNotConfigured) && policies == old(policies)
      ensures user in old(policies) ==>
        var e := Apply(old(policies)[user], m);
        r == Ok(e.trades) && policies == old(policies)[user := e.policy]
    {
      if user !in policies {
        return Err(InsuranceNotConfigured);
      }
      var p := policies[user];
      if !p.enabled {
        assert policies[user := p] == policies;
        return Ok([]);
      }
      var drawdown := CalculateDrawdown(user, m);
      if drawdown.value < p.maxDrawdownBps {
        return Ok([]);
      }
      if p.hedges != [] {
        return Ok([]);
      }
      var hedges := CalculateOptimalHedges(m, m.value, p.hedgeRatioBps);
      var observed := policies[user];
      if hedges == [] {
        assert observed.hedges + hedges == observed.hedges;
        assert policies[user := observed] == policies;
        assert AssetsOf(hedges) == [];
        return Ok([]);
      }
      policies := policies[user := observed.(hedges := observed.hedges + hedges)];
      r := Ok(AssetsOf(hedges));
    }

    method RebalanceHedges(user: Address, m: Market) returns (r: Result<seq<nat>, Error>)
      modifies this
      ensures user !in old(policies) ==> r == Err(InsuranceNotConfigured) && policies == old(policies)
      ensures user in old(policies) ==>
        var e := Rebalance(old(policies)[user], m);
        r == Ok(e.trades) && policies == old(policies)[user := e.policy]
    {
      if user !in policies {
        return Err(InsuranceNotConfigured);
      }
      var p := policies[user];
      assert policies[user := p] == policies;
      if !p.enabled || p.hedges == [] {
        return Ok([]);
      }
      var target := TruncDiv(m.value * p.hedgeRatioBps, 10_000);
      var current := ValueBook(m, p.hedges);
      var delta := target - current;
      var denominator := if target > 0 then target else 1;
      if TruncDiv(Abs(delta) * 10_000, denominator) < p.thresholdBps {
        return Ok([]);
      }
      if delta > 0 {
        var additional := CalculateOptimalHedges(m, delta, 10_000);
        policies := policies[user := p.(hedges := p.hedges + additional)];
        r := Ok(AssetsOf(additional));
      } else {
        var kept, trades := TrimHedges(m, p.hedges, Abs(delta));
        policies := policies[user := p.(hedges := kept)];
        r := Ok(trades);
      }
    }

    method RemoveHedgesIfRecovered(user: Address, m: Market) returns (r: Result<seq<nat>, Error>)
      modifies this
      ensures user !in old(policies) ==> r == Err(InsuranceNotConfigured) && policies == old(policies)
      ensures user in old(policies) ==>
        var e := Recover(old(policies)[user], m);
        r == Ok(e.trades) && policies == old(policies)[user := e.policy]
    {
      if user !in policies {
        return Err(InsuranceNotConfigured);
      }
      var p := policies[user];
      assert policies[user := p] == policies;
      if p.hedges == [] {
        return Ok([]);
      }
      var drawdown := CalculateDrawdown(user, m);
      if drawdown.value >= 500 {
        return Ok([]);
      }
      policies := policies[user := policies[user].(hedges := [])];
      r := Ok(AssetsOf(p.hedges));
    }
  }

  // ---------- The hedge book stays positive ----------

  ghost predicate BookOk(hedges: seq<Hedge>) {
    forall i :: 0 <= i < |hedges| ==> hedges[i].amount > 0 && hedges[i].entryPrice > 0
  }

  lemma {:induction false} NewHedgesOk(m: Market, holdings: seq<nat>, perAsset: int)
    ensures BookOk(HedgesFor(m, holdings, perAsset))
    decreases |holdings|
  {
    if holdings != [] {
      NewHedgesOk(m, holdings[..|holdings| - 1], perAsset);
    }
  }

  /** A partially closed hedge keeps a positive amount: less value was asked for than it is worth. */
  lemma PartialCloseLeaves(amount: int, price: int, remaining: int)
    requires amount > 0 && 0 < remaining < TruncDiv(amount * price, 100)
    ensures price > 0 && 0 <= TruncDiv(remaining * 100, price) < amount
  {
    if price <= 0 {
      MulOrder(price, 0, amount);
      DivLower(Abs(amount * price), 100, 0);
      assert false;
    }
    MulOrder(0, price, amount);
    DivBounds(amount * price, 100);
    DivLower(remaining * 100, price, 0);
    DivUpper(remaining * 100, price, amount);
  }

  lemma {:induction false} TrimKeepsBookOk(m: Market, hedges: seq<Hedge>, remaining: int)
    requires BookOk(hedges)
    ensures BookOk(Trim(m, hedges, remaining).kept)
    decreases |hedges|
  {
    if hedges != [] {
      TrimKeepsBookOk(m, hedges[..|hedges| - 1], remaining);
    }
  }

  // ---------- Opening and rebalancing never cross the target ----------

  lemma HedgeWorth(m: Market, asset: nat, perAsset: int)
    requires perAsset >= 0
    ensures BookValue(m, HedgeFor(m, asset, perAsset)) <= perAsset
  {
    var hedges := HedgeFor(m, asset, perAsset);
    if hedges != [] {
      var h := hedges[0];
      var price := h.entryPrice;
      assert PriceOf(m, h) == price && h.amount == perAsset * 100 / price;
      DivBounds(perAsset * 100, price);
      MulOrder(0, h.amount, price);
      DivUpper(h.amount * price, 100, perAsset + 1);
      assert hedges[..0] == [];
    }
  }

  lemma AddedWorth(m: Market, a: seq<Hedge>, b: seq<Hedge>, k: nat, perAsset: int)
    requires BookValue(m, a) <= k * perAsset && BookValue(m, b) <= perAsset
    ensures BookValue(m, a + b) <= (k + 1) * perAsset
  {
    BookValueConcat(m, a, b);
    assert (k + 1) * perAsset == k * perAsset + perAsset;
  }

  lemma {:induction false} HedgesWorth(m: Market, holdings: seq<nat>, perAsset: int)
    requires perAsset >= 0
    ensures BookValue(m, HedgesFor(m, holdings, perAsset)) <= |holdings| * perAsset
    decreases |holdings|
  {
    if holdings != [] {
      var k := |holdings| - 1;
      HedgeWorth(m, holdings[k], perAsset);
      HedgesWorth(m, holdings[..k], perAsset);
      AddedWorth(m, HedgesFor(m, holdings[..k], perAsset), HedgeFor(m, holdings[k], perAsset), k, perAsset);
    }
  }

  /** New hedges are worth at most the share they were asked for. */
  lemma OptimalHedgesWorth(m: Market, total: int, ratioBps: nat)
    requires total >= 0
    ensures BookValue(m, OptimalHedges(m, total, ratioBps)) <= TruncDiv(total * ratioBps, 10_000)
  {
    var share := TruncDiv(total * ratioBps, 10_000);
    MulOrder(0, total, ratioBps);
    DivLower(total * ratioBps, 10_000, 0);
    if total > 0 && m.holdings != [] {
      var n := |m.holdings|;
      DivLower(share, n, 0);
      DivBounds(share, n);
      HedgesWorth(m, m.holdings, share / n);
    }
  }

  function PriceToHedge(m: Market, asset: nat): int {
    if asset in m.prices then m.prices[asset] else 1
  }

  /** What rounding to whole units can cost per holding. */
  function Rounding(m: Market, holdings: seq<nat>): int {
    if holdings == [] then 0
    else Rounding(m, holdings[..|holdings| - 1]) + (PriceToHedge(m, holdings[|holdings| - 1]) + 98) / 100
  }

  /** Whole units bought for a value are worth that value, up to the price of one unit. */
  lemma UnitsShortfall(perAsset: int, price: int)
    requires perAsset >= 0 && price > 0
    ensures var amount := perAsset * 100 / price;
            amount >= 0 && amount * price >= 0 && amount * price / 100 >= perAsset - (price + 98) / 100
  {
    var amount := perAsset * 100 / price;
    DivLower(perAsset * 100, price, 0);
    DivBounds(perAsset * 100, price);
    DivBounds(price + 98, 100);
    MulOrder(0, amount, price);
    DivLower(amount * price, 100, perAsset - (price + 98) / 100);
  }

  lemma HedgeShortfall(m: Market, asset: nat, perAsset: int)
    requires perAsset >= 0 && PriceToHedge(m, asset) > 0
    ensures BookValue(m, HedgeFor(m, asset, perAsset)) >= perAsset - (PriceToHedge(m, asset) + 98) / 100
  {
    var price := PriceToHedge(m, asset);
    var amount := perAsset * 100 / price;
    UnitsShortfall(perAsset, price);
    if amount > 0 {
      var h := Hedge(asset, amount, price, AssetSpecificHedge(asset));
      assert HedgeFor(m, asset, perAsset) == [h] && PriceOf(m, h) == price;
      WorthOfOne(m, h);
    }
  }

  lemma AddedShortfall(m: Market, a: seq<Hedge>, b: seq<Hedge>, k: nat, perAsset: int, x: int, y: int)
    requires BookValue(m, a) >= k * perAsset - x && BookValue(m, b) >= perAsset - y
    ensures BookValue(m, a + b) >= (k + 1) * perAsset - (x + y)
  {
    BookValueConcat(m, a, b);
    assert (k + 1) * perAsset == k * perAsset + perAsset;
  }

  lemma {:induction false} HedgesShortfall(m: Market, holdings: seq<nat>, perAsset: int)
    requires perAsset >= 0 && forall i :: 0 <= i < |holdings| ==> PriceToHedge(m, holdings[i]) > 0
    ensures BookValue(m, HedgesFor(m, holdings, perAsset)) >= |holdings| * perAsset - Rounding(m, holdings)
    decreases |holdings|
  {
    if holdings != [] {
      var k := |holdings| - 1;
      HedgesShortfall(m, holdings[..k], perAsset);
      HedgeShortfall(m, holdings[k], perAsset);
      AddedShortfall(m, HedgesFor(m, holdings[..k], perAsset), HedgeFor(m, holdings[k], perAsset), k, perAsset,
                     Rounding(m, holdings[..k]), (PriceToHedge(m, holdings[k]) + 98) / 100);
    }
  }

  /** New hedges miss the share they were asked for only by rounding: less than one per holding, plus one unit each. */
  lemma OptimalHedgesShortfall(m: Market, total: int, ratioBps: nat)
    requires total > 0 && m.holdings != [] && forall i :: 0 <= i < |m.holdings| ==> PriceToHedge(m, m.holdings[i]) > 0
    ensures BookValue(m, OptimalHedges(m, total, ratioBps))
         >= TruncDiv(total * ratioBps, 10_000) - (|m.holdings| - 1) - Rounding(m, m.holdings)
  {
    var share, n := TruncDiv(total * ratioBps, 10_000), |m.holdings|;
    MulOrder(0, total, ratioBps);
    DivLower(total * ratioBps, 10_000, 0);
    DivLower(share, n, 0);
    DivBounds(share, n);
    HedgesShortfall(m, m.holdings, share / n);
  }

  /** Opening hedges never hedges more than the configured share of the portfolio, and nothing of a worthless one. */
  lemma ApplyNeverOverHedges(p: Policy, m: Market)
    requires p.hedges == []
    ensures BookValue(m, Apply(p, m).policy.hedges) <= Max(Target(p, m), 0)
    ensures m.value <= 0 ==> Apply(p, m).policy.hedges == []
  {
    if m.value > 0 {
      OptimalHedgesWorth(m, m.value, p.hedgeRatioBps);
    }
    var hedges := OptimalHedges(m, m.value, p.hedgeRatioBps);
    assert [] + hedges == hedges;
  }

  /** The increase branch: whatever the prices, the enlarged book stays at or below the target. */
  lemma IncreaseStaysBelowTarget(p: Policy, m: Market)
    requires BookValue(m, p.hedges) < Target(p, m)
    ensures BookValue(m, Rebalance(p, m).policy.hedges) <= Target(p, m)
  {
    var delta := Target(p, m) - BookValue(m, p.hedges);
    var more := OptimalHedges(m, delta, 10_000);
    OptimalHedgesWorth(m, delta, 10_000);
    assert TruncDiv(delta * 10_000, 10_000) == delta;
    BookValueConcat(m, p.hedges, more);
  }

  /** And it comes close: with prices for all holdings, only rounding separates it from the target. */
  lemma IncreaseComesClose(p: Policy, m: Market)
    requires p.enabled && p.hedges != [] && BookValue(m, p.hedges) < Target(p, m)
    requires DeltaBps(Target(p, m) - BookValue(m, p.hedges), Target(p, m)) >= p.thresholdBps
    requires m.holdings != [] && forall i :: 0 <= i < |m.holdings| ==> PriceToHedge(m, m.holdings[i]) > 0
    ensures BookValue(m, Rebalance(p, m).policy.hedges) >= Target(p, m) - (|m.holdings| - 1) - Rounding(m, m.holdings)
  {
    var delta := Target(p, m) - BookValue(m, p.hedges);
    OptimalHedgesShortfall(m, delta, 10_000);
    assert TruncDiv(delta * 10_000, 10_000) == delta;
    BookValueConcat(m, p.hedges, OptimalHedges(m, delta, 10_000));
  }

  ghost predicate PositivePrices(m: Market) {
    forall a :: a in m.prices ==> m.prices[a] > 0
  }

  /** A partial close of `remaining` leaves its value minus `remaining`, up to the price of one unit. */
  lemma PartialCloseWorth(amount: int, price: int, remaining: int)
    requires amount > 0 && price > 0 && 0 < remaining < amount * price / 100
    ensures var left := amount - remaining * 100 / price;
            && 0 < left <= amount
            && amount * price / 100 - remaining <= left * price / 100
            && left * price / 100 <= amount * price / 100 - remaining + (price + 98) / 100
  {
    var closed := remaining * 100 / price;
    var worth := amount * price / 100;
    MulOrder(0, price, amount);
    PartialCloseLeaves(amount, price, remaining);
    DivBounds(remaining * 100, price);
    DivBounds(amount * price, 100);
    var left := amount - closed;
    assert left * price == amount * price - closed * price;
    DivLower(left * price, 100, worth - remaining);
    DivBounds(price + 98, 100);
    DivUpper(left * price, 100, worth - remaining + (price + 98) / 100 + 1);
  }

  /**
   What is left after trimming: a suffix of the book, or a suffix whose first hedge was
   partially closed.
   */
  ghost predicate TrimShape(m: Market, hedges: seq<Hedge>, kept: seq<Hedge>, j: nat, excess: int) {
    && j <= |hedges|
    && ((kept == hedges[j..] && excess == 0)
        || (j < |hedges| && |kept| == |hedges| - j && kept[1..] == hedges[j + 1..]
            && kept[0] == hedges[j].(amount := kept[0].amount) && 0 < kept[0].amount <= hedges[j].amount
            && 0 <= excess <= (PriceOf(m, hedges[j]) + 98) / 100))
  }

  lemma PartialStep(m: Market, h: Hedge, remaining: int)
    requires h.amount > 0 && PriceOf(m, h) > 0 && 0 < remaining < Worth(m, h)
    ensures var o := TrimOne(m, h, remaining);
            && |o.kept| == 1 && o.left == 0
            && o.kept[0] == h.(amount := o.kept[0].amount) && 0 < o.kept[0].amount <= h.amount
            && 0 <= Worth(m, o.kept[0]) - (Worth(m, h) - remaining) <= (PriceOf(m, h) + 98) / 100
  {
    var price := PriceOf(m, h);
    MulOrder(0, price, h.amount);
    PartialCloseWorth(h.amount, price, remaining);
    MulOrder(0, h.amount - remaining * 100 / price, price);
  }

  lemma WorthOfOne(m: Market, h: Hedge)
    ensures BookValue(m, [h]) == Worth(m, h)
  {
    assert [h][..0] == [];
  }

  /** The trimmed book is worth what it should be, up to `excess`. */
  ghost predicate Trimmed(m: Market, hedges: seq<Hedge>, remaining: int, kept: seq<Hedge>, j: nat, excess: int) {
    TrimShape(m, hedges, kept, j, excess) && BookValue(m, kept) == BookValue(m, hedges) - remaining + excess
  }

  lemma KeepNext(m: Market, front: seq<Hedge>, h: Hedge, remaining: int, kept: seq<Hedge>, j: nat, excess: int)
    requires Trimmed(m, front, remaining, kept, j, excess)
    ensures Trimmed(m, front + [h], remaining, kept + [h], j, excess)
  {
    BookValueConcat(m, kept, [h]);
    BookValueConcat(m, front, [h]);
    assert (front + [h])[j..] == front[j..] + [h];
    if kept != front[j..] {
      assert (front + [h])[j + 1..] == front[j + 1..] + [h];
      assert (kept + [h])[1..] == kept[1..] + [h];
    }
  }

  lemma CloseNext(m: Market, front: seq<Hedge>, h: Hedge, remaining: int)
    requires remaining == BookValue(m, front) + Worth(m, h)
    ensures Trimmed(m, front + [h], remaining, [], |front| + 1, 0)
  {
    BookValueConcat(m, front, [h]);
    WorthOfOne(m, h);
    assert (front + [h])[|front| + 1..] == [];
  }

  lemma SplitNext(m: Market, front: seq<Hedge>, h: Hedge, remaining: int, left: Hedge)
    requires left == h.(amount := left.amount) && 0 < left.amount <= h.amount
    requires var excess := Worth(m, left) - (Worth(m, h) - (remaining - BookValue(m, front)));
             0 <= excess <= (PriceOf(m, h) + 98) / 100
    ensures var excess := Worth(m, left) - (Worth(m, h) - (remaining - BookValue(m, front)));
            Trimmed(m, front + [h], remaining, [left], |front|, excess)
  {
    BookValueConcat(m, front, [h]);
    WorthOfOne(m, h);
    WorthOfOne(m, left);
    assert (front + [h])[|front| + 1..] == [] && [left][1..] == [];
  }

  /** While value remains to be closed nothing is kept; once it is used up, the rest is kept as it is. */
  ghost predicate TrimOk(m: Market, hedges: seq<Hedge>, remaining: int, t: TrimStep, j: nat, excess: int) {
    && t.left >= 0
    && (t.left > 0 ==> t.kept == [] && t.left == remaining - BookValue(m, hedges))
    && (t.left == 0 ==> Trimmed(m, hedges, remaining, t.kept, j, excess))
  }

  function Joined(t: TrimStep, o: TrimStep): TrimStep {
    TrimStep(t.kept + o.kept, t.trades + o.trades, o.left)
  }

  lemma BookValueNext(m: Market, front: seq<Hedge>, h: Hedge)
    ensures BookValue(m, front + [h]) == BookValue(m, front) + Worth(m, h)
  {
    BookValueConcat(m, front, [h]);
    WorthOfOne(m, h);
  }

  lemma TrimNext(m: Market, front: seq<Hedge>, h: Hedge, remaining: int, t: TrimStep, j: nat, excess: int)
    returns (j': nat, excess': int)
    requires h.amount > 0 && PriceOf(m, h) > 0 && TrimOk(m, front, remaining, t, j, excess)
    ensures TrimOk(m, front + [h], remaining, Joined(t, TrimOne(m, h, t.left)), j', excess')
  {
    j', excess' := j, excess;
    if t.left == 0 {
      KeepNext(m, front, h, remaining, t.kept, j, excess);
    } else if Worth(m, h) < t.left {
      BookValueNext(m, front, h);
    } else if Worth(m, h) == t.left {
      CloseNext(m, front, h, remaining);
      j', excess' := |front| + 1, 0;
    } else {
      PartialStep(m, h, t.left);
      var left := TrimOne(m, h, t.left).kept[0];
      SplitNext(m, front, h, remaining, left);
      j', excess' := |front|, Worth(m, left) - (Worth(m, h) - t.left);
      assert t.kept + TrimOne(m, h, t.left).kept == [left];
    }
  }

  /** Trimming any book by any value ends in one of these ways. */
  lemma {:induction false} TrimWorth(m: Market, hedges: seq<Hedge>, remaining: int) returns (j: nat, excess: int)
    requires BookOk(hedges) && PositivePrices(m) && remaining >= 0
    ensures TrimOk(m, hedges, remaining, Trim(m, hedges, remaining), j, excess)
    decreases |hedges|
  {
    j, excess := 0, 0;
    if hedges != [] {
      var k := |hedges| - 1;
      var front, h := hedges[..k], hedges[k];
      assert hedges == front + [h];
      j, excess := TrimWorth(m, front, remaining);
      j, excess := TrimNext(m, front, h, remaining, Trim(m, front, remaining), j, excess);
    }
  }

  /**
   The trim branch: the reduced book stays at or above the target and exceeds it by at most
   the rounding of the one partially closed hedge; without a partial close it hits it exactly.
   */
  lemma TrimStaysAboveTarget(p: Policy, m: Market) returns (j: nat, excess: int)
    requires BookOk(p.hedges) && PositivePrices(m) && p.enabled && p.hedges != []
    requires 0 <= Target(p, m) <= BookValue(m, p.hedges)
    requires DeltaBps(Target(p, m) - BookValue(m, p.hedges), Target(p, m)) >= p.thresholdBps
    ensures TrimShape(m, p.hedges, Rebalance(p, m).policy.hedges, j, excess)
    ensures BookValue(m, Rebalance(p, m).policy.hedges) == Target(p, m) + excess
  {
    var surplus := BookValue(m, p.hedges) - Target(p, m);
    j, excess := TrimWorth(m, p.hedges, surplus);
    TrimUsedUp(m, p.hedges, surplus);
    assert Rebalance(p, m).policy.hedges == Trim(m, p.hedges, surplus).kept;
  }

  lemma TrimUsedUp(m: Market, hedges: seq<Hedge>, remaining: int)
    requires BookOk(hedges) && PositivePrices(m) && 0 <= remaining <= BookValue(m, hedges)
    ensures Trim(m, hedges, remaining).left == 0
  {
    var j, excess := TrimWorth(m, hedges, remaining);
  }

  // ---------- Every run ----------

  datatype Op =
    | Reconfigure(enabled: bool, maxDrawdownBps: nat, hedgeRatioBps: nat, thresholdBps: nat)
    | ReadDrawdown(market: Market)
    | ApplyHedge(market: Market)
    | RebalanceBook(market: Market)
    | RemoveIfRecovered(market: Market)

  function Step(p: Policy, op: Op): Policy {
    match op
    case Reconfigure(enabled, maxDrawdownBps, hedgeRatioBps, thresholdBps) =>
      if ValidConfig(maxDrawdownBps, hedgeRatioBps)
      then p.(enabled := enabled, maxDrawdownBps := maxDrawdownBps, hedgeRatioBps := hedgeRatioBps, thresholdBps := thresholdBps)
      else p
    case ReadDrawdown(m) => Observe(p, m.value)
    case ApplyHedge(m) => Apply(p, m).policy
    case RebalanceBook(m) => Rebalance(p, m).policy
    case RemoveIfRecovered(m) => Recover(p, m).policy
  }

  function Run(p: Policy, ops: seq<Op>): Policy {
    if ops == [] then p else Step(Run(p, ops[..|ops| - 1]), ops[|ops| - 1])
  }

  lemma RebalanceKeepsBookOk(p: Policy, m: Market)
    requires BookOk(p.hedges)
    ensures BookOk(Rebalance(p, m).policy.hedges)
  {
    var delta := Target(p, m) - BookValue(m, p.hedges);
    OptimalHedgesOk(m, delta, 10_000);
    TrimKeepsBookOk(m, p.hedges, Abs(delta));
  }

  lemma StepKeepsBookOk(p: Policy, op: Op)
    requires BookOk(p.hedges)
    ensures BookOk(Step(p, op).hedges) && Step(p, op).highWaterMark >= p.highWaterMark
  {
    match op {
      case ApplyHedge(m) => OptimalHedgesOk(m, m.value, p.hedgeRatioBps);
      case RebalanceBook(m) => RebalanceKeepsBookOk(p, m);
      case _ =>
    }
  }

  /** Whatever prices and values a run sees, every open hedge has a positive amount and entry price,
      and the high-water mark never falls. */
  lemma {:induction false} BookAlwaysOk(p: Policy, ops: seq<Op>)
    requires BookOk(p.hedges)
    ensures BookOk(Run(p, ops).hedges) && Run(p, ops).highWaterMark >= p.highWaterMark
    decreases |ops|
  {
    if ops != [] {
      BookAlwaysOk(p, ops[..|ops| - 1]);
      StepKeepsBookOk(Run(p, ops[..|ops| - 1]), ops[|ops| - 1]);
    }
  }

  lemma OptimalHedgesOk(m: Market, total: int, ratioBps: nat)
    ensures BookOk(OptimalHedges(m, total, ratioBps))
  {
    if total > 0 && m.holdings != [] {
      NewHedgesOk(m, m.holdings, TruncDiv(TruncDiv(total * ratioBps, 10_000), |m.holdings|));
    }
  }

  /** The drawdown of a nonnegative portfolio lies between 0 and 10000 basis points. */
  lemma DrawdownRange(p: Policy, value: int)
    requires p.highWaterMark >= 0 && value >= 0
    ensures 0 <= Drawdown(p, value) <= 10_000
    ensures Drawdown(p, value) == 10_000 <==> value == 0 && p.highWaterMark > 0
  {
    var mark := Observe(p, value).highWaterMark;
    if mark > 0 {
      var m := (mark - value) * 10_000;
      DivLower(m, mark, 0);
      if value == 0 {
        DivLower(m, mark, 10_000);
        DivUpper(m, mark, 10_001);
      } else {
        DivUpper(m, mark, 10_000);
      }
    }
  }
}
