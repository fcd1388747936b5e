/**
 Properties of one iceberg order together with the quantity it has resting on the exchange,
 over every run of fills, price updates and cancellations.
 */
module IcebergRuns {
  import opened Common
  import opened FixedPoint
  import opened IcebergOrders

  /** The order, its fill history, and what the exchange currently offers for it. */
  datatype World = World(order: Order, history: seq<FillEvent>, offered: int)

  datatype Op = Fill(amount: int, price: int) | Reprice(newPrice: int) | Cancel

  function Start(id: nat, user: Address, side: Side, total: int, visiblePct: nat, price: int, now: nat): World {
    var o := NewOrder(id, user, side, total, visiblePct, price, now);
    World(o, [], o.visible)
  }

  /** The exchange fills a positive quantity of at most what is on offer, at a positive price. */
  predicate Possible(w: World, op: Op) {
    op.Fill? ==> 0 < op.amount <= w.offered && op.price > 0 && w.order.filled >= 0
  }

  function Step(w: World, op: Op): World {
    if !Possible(w, op) then w
    else match op
      case Fill(amount, price) =>
        var r := OnFill(w.order, amount, price);
        World(r.order, WithFill(w.history, w.order.id, amount, price),
              w.offered - amount + if r.placed.Some? then r.placed.value else 0)
      case Reprice(newPrice) =>
        (match Repriced(w.order, w.order.user, newPrice)
         case Ok(c) => World(c.order, w.history, c.placed.value)
         case Err(_) => w)
      case Cancel =>
        (match Withdrawn(w.order, w.order.user)
         case Ok(o) => World(o, w.history, 0)
         case Err(_) => w)
  }

  function Run(w: World, ops: seq<Op>): World {
    if ops == [] then w else Step(Run(w, ops[..|ops| - 1]), ops[|ops| - 1])
  }

  // ---------- Whole visible portions ----------

  lemma MultipleAhead(a: int, b: int, v: int)
    requires v > 0 && 0 <= a < b && a % v == 0 && b % v == 0
    ensures a + v <= b
  {
    var i, j := a / v, b / v;
    assert a == v * i && b == v * j;
    if j <= i {
      MulOrder(j, i, v);
      assert false;
    }
    MulOrder(i + 1, j, v);
  }

  lemma NextMultiple(a: int, v: int)
    requires v > 0 && a % v == 0
    ensures (a + v) % v == 0
  {
    assert a == v * (a / v);
    assert a + v == v * (a / v + 1);
    ModOfMultiple(a / v + 1, v);
  }

  lemma ModOfMultiple(k: int, v: int)
    requires v > 0
    ensures (v * k) % v == 0
  {
    DivLower(v * k, v, k);
    DivUpper(v * k, v, k + 1);
  }

  /** What was filled before the visible portion now on offer. */
  function ChunkStart(o: Order): int {
    o.filled - o.visibleFilled
  }

  /** An order that is being filled: whole portions are done, and the rest of the current one is on offer. */
  ghost predicate Filling(w: World, portion: int) {
    var o := w.order;
    && Open(o) && 0 < o.visible && 0 <= ChunkStart(o) && ChunkStart(o) % o.visible == 0
    && 0 <= o.visibleFilled && 0 < w.offered && w.offered + o.visibleFilled == portion
    && ChunkStart(o) + portion <= o.total
  }

  /** Open with a whole portion on offer, finished, or cancelled with nothing on offer. */
  ghost predicate WholeInv(w: World) {
    var o := w.order;
    && 0 < o.visible && o.total % o.visible == 0 && 0 <= o.filled <= o.total
    && match o.status
       case Filled => o.filled == o.total && w.offered == 0
       case Cancelled => w.offered == 0 && o.filled < o.total
       case _ => Filling(w, o.visible)
  }

  lemma StepKeepsWholeInv(w: World, op: Op)
    requires WholeInv(w)
    ensures WholeInv(Step(w, op))
  {
    if op.Fill? && Possible(w, op) {
      var o := w.order;
      var start := ChunkStart(o);
      if o.visibleFilled + op.amount >= o.visible {
        NextMultiple(start, o.visible);
        if start + o.visible < o.total {
          MultipleAhead(start + o.visible, o.total, o.visible);
        }
      }
    }
  }

  lemma {:induction false} RunKeepsWholeInv(w: World, ops: seq<Op>)
    requires WholeInv(w)
    ensures WholeInv(Run(w, ops))
    decreases |ops|
  {
    if ops != [] {
      RunKeepsWholeInv(w, ops[..|ops| - 1]);
      StepKeepsWholeInv(Run(w, ops[..|ops| - 1]), ops[|ops| - 1]);
    }
  }

  lemma VisibleBelowTotal(total: int, visiblePct: nat, price: int)
    requires CreateError(total, visiblePct, price) == None
    ensures 0 < VisibleAmount(total, visiblePct) < total
  {
    MulOrder(visiblePct, MAX_VISIBLE_PCT, total);
    DivUpper(total * visiblePct, 10_000, total);
  }

  /**
   When the visible portion divides the total, every run keeps filled plus offered within
   the total, and an order that was not cancelled is Filled exactly when all of it is filled.
   */
  lemma DividingOrderIsSafe(id: nat, user: Address, side: Side, total: int, visiblePct: nat, price: int, now: nat, ops: seq<Op>)
    requires CreateError(total, visiblePct, price) == None
    requires total % VisibleAmount(total, visiblePct) == 0
    ensures var w := Run(Start(id, user, side, total, visiblePct, price, now), ops);
            && 0 <= w.offered && w.order.filled + w.offered <= total
            && (w.order.status != Cancelled ==> (w.order.status == Filled <==> w.order.filled == total))
  {
    VisibleBelowTotal(total, visiblePct, price);
    var w := Start(id, user, side, total, visiblePct, price, now);
    RunKeepsWholeInv(w, ops);
    RunKeepsSize(w, ops);
  }

  lemma {:induction false} RunKeepsSize(w: World, ops: seq<Op>)
    ensures Run(w, ops).order.total == w.order.total && Run(w, ops).order.visible == w.order.visible
    decreases |ops|
  {
    if ops != [] {
      RunKeepsSize(w, ops[..|ops| - 1]);
    }
  }

  // ---------- Any order, any run ----------

  /** The smallest multiple of v that is at least a. */
  function RoundUp(a: int, v: int): int
    requires v > 0
  {
    if a % v == 0 then a else a - a % v + v
  }

  lemma RoundUpIsMultiple(a: int, v: int)
    requires v > 0
    ensures a <= RoundUp(a, v) < a + v && RoundUp(a, v) % v == 0
  {
    var k := a / v;
    assert a == v * k + a % v;
    ModOfMultiple(k + 1, v);
    assert v * (k + 1) == v * k + v;
  }

  /** A whole portion that starts below the total ends within the total rounded up. */
  lemma WholePortionFits(start: int, total: int, v: int)
    requires v > 0 && 0 <= start < total && start % v == 0
    ensures start + v <= RoundUp(total, v)
    ensures total <= start + v ==> start + v == RoundUp(total, v)
  {
    RoundUpIsMultiple(total, v);
    MultipleAhead(start, RoundUp(total, v), v);
    if total <= start + v < RoundUp(total, v) {
      NextMultiple(start, v);
      MultipleAhead(start + v, RoundUp(total, v), v);
    }
  }

  /** At most one whole portion is under way, and it started below the total. */
  ghost predicate PortionInv(w: World) {
    var o := w.order;
    && 0 < o.visible && 0 <= ChunkStart(o) < o.total && ChunkStart(o) % o.visible == 0
    && 0 <= o.visibleFilled && 0 <= w.offered && o.visibleFilled + w.offered <= o.visible
    && (Open(o) || w.offered == 0)
  }

  lemma StepKeepsPortionInv(w: World, op: Op)
    requires PortionInv(w)
    ensures PortionInv(Step(w, op))
  {
    if op.Fill? && Possible(w, op) && w.order.visibleFilled + op.amount >= w.order.visible {
      NextMultiple(ChunkStart(w.order), w.order.visible);
    }
  }

  lemma {:induction false} RunKeepsPortionInv(w: World, ops: seq<Op>)
    requires PortionInv(w)
    ensures PortionInv(Run(w, ops))
    decreases |ops|
  {
    if ops != [] {
      RunKeepsPortionInv(w, ops[..|ops| - 1]);
      StepKeepsPortionInv(Run(w, ops[..|ops| - 1]), ops[|ops| - 1]);
    }
  }

  /** Every run of every order keeps filled plus offered within the total rounded up to whole portions. */
  lemma NeverBeyondRoundedTotal(id: nat, user: Address, side: Side, total: int, visiblePct: nat, price: int, now: nat, ops: seq<Op>)
    requires CreateError(total, visiblePct, price) == None
    ensures var w := Run(Start(id, user, side, total, visiblePct, price, now), ops);
            0 <= w.offered && w.order.filled + w.offered <= RoundUp(total, VisibleAmount(total, visiblePct))
  {
    VisibleBelowTotal(total, visiblePct, price);
    var w := Start(id, user, side, total, visiblePct, price, now);
    RunKeepsPortionInv(w, ops);
    RunKeepsSize(w, ops);
    WholePortionFits(ChunkStart(Run(w, ops).order), total, VisibleAmount(total, visiblePct));
  }

  // ---------- Any order, fills only ----------

  /** The portion on offer from a chunk start: a whole one, or the short rest. */
  function Portion(o: Order): int {
    Min(o.visible, o.total - ChunkStart(o))
  }

  ghost predicate FillInv(w: World) {
    var o := w.order;
    && 0 < o.visible && 0 <= o.filled <= o.total && 0 <= w.offered
    && 0 <= ChunkStart(o) <= o.total && ChunkStart(o) % o.visible == 0 && 0 <= o.visibleFilled
    && (if o.filled == o.total
        then w.offered == 0
             && (if o.status == Filled then o.visibleFilled == o.visible else o.status == PartiallyFilled && o.visibleFilled < o.visible)
        else Open(o) && w.offered > 0 && w.offered + o.visibleFilled == Portion(o))
    && ChunkStart(o) < o.total
  }

  lemma FillKeepsFillInv(w: World, amount: int, price: int)
    requires FillInv(w) && 0 < amount <= w.offered && price > 0
    ensures FillInv(Step(w, Fill(amount, price)))
  {
    var o := w.order;
    var start := ChunkStart(o);
    if o.visibleFilled + amount >= o.visible {
      NextMultiple(start, o.visible);
    }
  }

  ghost predicate FillsOnly(ops: seq<Op>) {
    forall i :: 0 <= i < |ops| ==> ops[i].Fill?
  }

  lemma {:induction false} FillsKeepFillInv(w: World, ops: seq<Op>)
    requires FillInv(w) && FillsOnly(ops)
    ensures FillInv(Run(w, ops))
    decreases |ops|
  {
    if ops != [] {
      var k := |ops| - 1;
      FillsKeepFillInv(w, ops[..k]);
      var before := Run(w, ops[..k]);
      if Possible(before, ops[k]) {
        FillKeepsFillInv(before, ops[k].amount, ops[k].price);
      }
    }
  }

  lemma RemainderOfLastPortion(start: int, total: int, v: int)
    requires v > 0 && 0 <= start < total <= start + v && start % v == 0
    ensures total % v == 0 <==> total == start + v
  {
    if total == start + v {
      NextMultiple(start, v);
    } else if total % v == 0 {
      MultipleAhead(start, total, v);
    }
  }

  /**
   Exactly when a completely filled order is marked Filled: a run of fills that reaches the
   total ends in Filled if and only if the visible portion divides the total.
   */
  lemma FilledIffDivides(w: World, ops: seq<Op>)
    requires FillInv(w) && FillsOnly(ops)
    requires Run(w, ops).order.filled == w.order.total
    ensures Run(w, ops).order.status == Filled <==> w.order.total % w.order.visible == 0
  {
    FillsKeepFillInv(w, ops);
    RunKeepsSize(w, ops);
    var o := Run(w, ops).order;
    RemainderOfLastPortion(ChunkStart(o), o.total, o.visible);
  }

  /** Such runs exist: filling whatever is on offer reaches the total. */
  lemma {:induction false} FillEverything(w: World, price: int) returns (ops: seq<Op>)
    requires FillInv(w) && price > 0
    ensures FillsOnly(ops) && Run(w, ops).order.filled == w.order.total
    decreases w.order.total - w.order.filled
  {
    if w.order.filled == w.order.total {
      ops := [];
    } else {
      var op := Fill(w.offered, price);
      FillKeepsFillInv(w, w.offered, price);
      var rest := FillEverything(Step(w, op), price);
      ops := [op] + rest;
      RunSplit(w, op, rest);
    }
  }

  lemma {:induction false} RunSplit(w: World, op: Op, rest: seq<Op>)
    ensures Run(w, [op] + rest) == Run(Step(w, op), rest)
    decreases |rest|
  {
    if rest == [] {
      assert [op] + rest == [op] && [op][..0] == [];
    } else {
      var k := |rest| - 1;
      assert ([op] + rest)[..k + 1] == [op] + rest[..k];
      RunSplit(w, op, rest[..k]);
    }
  }

  lemma RunNext(w: World, ops: seq<Op>, op: Op)
    ensures Run(w, ops + [op]) == Step(Run(w, ops), op)
  {
    assert (ops + [op])[..|ops|] == ops;
  }

  lemma StartFillInv(id: nat, user: Address, side: Side, total: int, visiblePct: nat, price: int, now: nat)
    requires CreateError(total, visiblePct, price) == None
    ensures FillInv(Start(id, user, side, total, visiblePct, price, now))
  {
    VisibleBelowTotal(total, visiblePct, price);
  }

  /**
   The converse of DividingOrderIsSafe: when the visible portion does not divide the total,
   some run fills everything without reaching Filled, and a price update then puts more on
   offer, up to exactly the bound of NeverBeyondRoundedTotal.
   */
  lemma NonDividingOrderOverOffers(id: nat, user: Address, side: Side, total: int, visiblePct: nat, price: int, now: nat)
    returns (ops: seq<Op>)
    requires CreateError(total, visiblePct, price) == None
    requires total % VisibleAmount(total, visiblePct) != 0
    ensures var w := Start(id, user, side, total, visiblePct, price, now);
            && Run(w, ops).order.filled == total && Run(w, ops).order.status == PartiallyFilled
            && Run(w, ops + [Reprice(price)]).offered > 0
            && total + Run(w, ops + [Reprice(price)]).offered == RoundUp(total, VisibleAmount(total, visiblePct))
  {
    var w := Start(id, user, side, total, visiblePct, price, now);
    StartFillInv(id, user, side, total, visiblePct, price, now);
    ops := FillEverything(w, price);
    FillsKeepFillInv(w, ops);
    RunKeepsSize(w, ops);
    FilledIffDivides(w, ops);
    RunNext(w, ops, Reprice(price));
    var o := Run(w, ops).order;
    WholePortionFits(ChunkStart(o), total, o.visible);
  }

  predicate Divides(v: int, total: int) {
    v != 0 && total % v == 0
  }

  /** Nothing beyond the total is filled or on offer, and Filled means filled. */
  ghost predicate Safe(w: World) {
    && w.order.filled + w.offered <= w.order.total
    && (w.order.status != Cancelled ==> (w.order.status == Filled <==> w.order.filled == w.order.total))
  }

  /** All runs of an order are safe if and only if the visible portion divides the total. */
  lemma AlwaysSafeIffDivides(id: nat, user: Address, side: Side, total: int, visiblePct: nat, price: int, now: nat)
    requires CreateError(total, visiblePct, price) == None
    ensures var w := Start(id, user, side, total, visiblePct, price, now);
            (forall ops :: Safe(Run(w, ops))) <==> Divides(VisibleAmount(total, visiblePct), total)
  {
    VisibleBelowTotal(total, visiblePct, price);
    var w := Start(id, user, side, total, visiblePct, price, now);
    if total % VisibleAmount(total, visiblePct) == 0 {
      forall ops ensures Safe(Run(w, ops)) {
        DividingOrderIsSafe(id, user, side, total, visiblePct, price, now, ops);
        RunKeepsSize(w, ops);
      }
    } else {
      var ops := NonDividingOrderOverOffers(id, user, side, total, visiblePct, price, now);
      RunKeepsSize(w, ops);
      assert !Safe(Run(w, ops));
    }
  }

  // ---------- Terms of an order ----------

  /**
   What creation accepts: positive total and price, a visible share of at most 50%, and a visible
   amount of at least 1000; the visible amount is that share of the total, rounded down.
   */
  lemma CreatesIff(id: nat, user: Address, side: Side, total: int, visiblePct: nat, price: int, now: nat)
    ensures CreateError(total, visiblePct, price) == None <==>
              total > 0 && price > 0 && 1 <= visiblePct <= 5_000 && total * visiblePct >= 10_000_000
    ensures CreateError(total, visiblePct, price) == None ==>
      var o := NewOrder(id, user, side, total, visiblePct, price, now);
      && o.id == id && o.user == user && o.side == side && o.total == total && o.price == price && o.createdAt == now
      && Truncated(total * visiblePct, 10_000, o.visible)
      && o.filled == 0 && o.visibleFilled == 0 && o.avgPrice == 0 && o.status == Active
    ensures CreateError(total, visiblePct, price).Some? ==>
      match CreateError(total, visiblePct, price).value
      case InvalidTotal => total <= 0
      case InvalidPrice => price <= 0
      case InvalidVisiblePercentage => visiblePct == 0 || visiblePct > 5_000
      case VisibleTooSmall => total * visiblePct < 10_000_000
      case _ => false
  {
    TruncDivMeaning(total * visiblePct, 10_000);
    MulOrder(0, total, visiblePct);
  }

  /** Only the owner reprices, only an open order and only to a positive price; only the owner cancels, and only an open order. */
  lemma OwnerChanges(o: Order, user: Address, newPrice: int)
    ensures var r := Repriced(o, user, newPrice);
            && (r.Ok? <==> user == o.user && (o.status == Active || o.status == PartiallyFilled) && newPrice > 0)
            && (r.Ok? ==> r.value.order.price == newPrice && r.value.order.(price := o.price) == o
                          && r.value.placed == Some(o.visible - o.visibleFilled))
    ensures var r := Withdrawn(o, user);
            && (r.Ok? <==> user == o.user && (o.status == Active || o.status == PartiallyFilled))
            && (r.Ok? ==> r.value.status == Cancelled && r.value.(status := o.status) == o)
  {
  }

  /** The price of an order is that of the last price update it accepted, or the one it was created with. */
  function LastPrice(w: World, ops: seq<Op>): int {
    if ops == [] then w.order.price
    else
      var k := |ops| - 1;
      var o := Run(w, ops[..k]).order;
      if ops[k].Reprice? && ops[k].newPrice > 0 && (o.status == Active || o.status == PartiallyFilled) then ops[k].newPrice
      else LastPrice(w, ops[..k])
  }

  lemma {:induction false} PriceOfRun(w: World, ops: seq<Op>)
    ensures Run(w, ops).order.price == LastPrice(w, ops)
    decreases |ops|
  {
    if ops != [] {
      PriceOfRun(w, ops[..|ops| - 1]);
    }
  }

  ghost predicate StatusInv(w: World) {
    && w.order.filled >= 0 && (w.order.status == Active ==> w.order.filled == 0)
    && (w.order.status == PartiallyFilled || w.order.status == Filled ==> w.order.filled > 0)
  }

  /** Over every run an order is Active if and only if nothing is filled yet and it was not cancelled. */
  lemma {:induction false} ActiveIffUnfilled(w: World, ops: seq<Op>)
    requires w.order.status == Active && w.order.filled == 0
    ensures var o := Run(w, ops).order; StatusInv(Run(w, ops)) && (o.status == Active <==> o.filled == 0 && o.status != Cancelled)
    decreases |ops|
  {
    if ops != [] {
      ActiveIffUnfilled(w, ops[..|ops| - 1]);
    }
  }

  // ---------- The average price ----------

  function FillsOf(w: World, ops: seq<Op>): seq<Op> {
    if ops == [] then []
    else
      var k := |ops| - 1;
      FillsOf(w, ops[..k]) + if ops[k].Fill? && Possible(Run(w, ops[..k]), ops[k]) then [ops[k]] else []
  }

  function Quantity(fills: seq<Op>): int {
    if fills == [] then 0
    else Quantity(fills[..|fills| - 1]) + if fills[|fills| - 1].Fill? then fills[|fills| - 1].amount else 0
  }

  /** The exact value of the fills: the sum of quantity times price. */
  function Value(fills: seq<Op>): int {
    if fills == [] then 0
    else Value(fills[..|fills| - 1]) + if fills[|fills| - 1].Fill? then fills[|fills| - 1].price * fills[|fills| - 1].amount else 0
  }

  /** After k fills totalling F, the average avg accounts for at most their value, and misses at most (k-1)(F-1) of it. */
  ghost predicate GoodAverage(avg: int, F: int, value: int, k: nat) {
    avg * F <= value && (k >= 1 ==> value - avg * F <= (k - 1) * (F - 1))
  }

  lemma NextGoodAverage(avg: int, F: int, value: int, k: nat, amount: int, price: int)
    requires GoodAverage(avg, F, value, k) && F >= 0 && avg >= 0 && amount > 0 && price > 0
    requires (k == 0 <==> F == 0) && (k == 0 ==> value == 0)
    ensures GoodAverage(NextAverage(avg, F, amount, price), F + amount, value + price * amount, k + 1)
  {
    var G, t := F + amount, avg * F + price * amount;
    MulOrder(0, avg, F);
    MulOrder(0, price, amount);
    DivBounds(t, G);
    var next := NextAverage(avg, F, amount, price);
    assert next == t / G && next * G <= t && t - next * G <= G - 1;
    if k == 0 {
      assert t == price * amount && G == amount;
      DivLower(t, G, price);
      MulOrder(price, next, G);
    } else {
      MulOrder(F - 1, G - 1, k - 1);
      assert k * (G - 1) == (k - 1) * (G - 1) + (G - 1);
    }
  }

  lemma WeightedBetween(avg: int, F: int, price: int, amount: int, lo: int, hi: int)
    requires F >= 0 && amount > 0 && lo <= price <= hi && (F > 0 ==> lo <= avg <= hi)
    ensures lo * (F + amount) <= avg * F + price * amount <= hi * (F + amount)
  {
    MulOrder(lo, price, amount);
    MulOrder(price, hi, amount);
    if F > 0 {
      MulOrder(lo, avg, F);
      MulOrder(avg, hi, F);
    }
    assert lo * (F + amount) == lo * F + lo * amount;
    assert hi * (F + amount) == hi * F + hi * amount;
  }

  lemma AverageWithin(avg: int, F: int, amount: int, price: int, lo: int, hi: int)
    requires F >= 0 && amount > 0 && 0 < lo <= price <= hi && (F > 0 ==> lo <= avg <= hi)
    ensures lo <= NextAverage(avg, F, amount, price) <= hi
  {
    var G, t := F + amount, avg * F + price * amount;
    WeightedBetween(avg, F, price, amount, lo, hi);
    MulOrder(0, lo, G);
    DivLower(t, G, lo);
    assert (hi + 1) * G == hi * G + G;
    DivUpper(t, G, hi + 1);
  }

  ghost predicate PricesWithin(fills: seq<Op>, lo: int, hi: int) {
    forall i :: 0 <= i < |fills| && fills[i].Fill? ==> lo <= fills[i].price <= hi
  }

  /** The stored totals agree with the fills that happened. */
  ghost predicate Accounts(w: World, fills: seq<Op>) {
    var o := w.order;
    && (forall i :: 0 <= i < |fills| ==> fills[i].Fill? && fills[i].amount > 0 && fills[i].price > 0)
    && o.filled == Quantity(fills) && (fills == [] <==> o.filled == 0) && o.filled >= 0 && o.avgPrice >= 0
    && |w.history| == |fills|
    && (forall i :: 0 <= i < |fills| ==> w.history[i].amount == fills[i].amount && w.history[i].price == fills[i].price)
    && (fills != [] ==> w.history[|fills| - 1].totalFilled == o.filled)
    && GoodAverage(o.avgPrice, o.filled, Value(fills), |fills|)
  }

  lemma FillAccounts(w: World, fills: seq<Op>, op: Op)
    requires Accounts(w, fills) && op.Fill? && Possible(w, op)
    ensures Accounts(Step(w, op), fills + [op])
  {
    var o := w.order;
    assert (fills + [op])[..|fills|] == fills;
    NextGoodAverage(o.avgPrice, o.filled, Value(fills), |fills|, op.amount, op.price);
    MulOrder(0, op.price, op.amount);
    MulOrder(0, o.avgPrice, o.filled);
    DivLower(o.avgPrice * o.filled + op.price * op.amount, o.filled + op.amount, 0);
  }

  lemma OtherAccounts(w: World, fills: seq<Op>, op: Op)
    requires Accounts(w, fills) && !(op.Fill? && Possible(w, op))
    ensures Accounts(Step(w, op), fills)
  {
  }

  ghost predicate Fresh(w: World) {
    w.order.filled == 0 && w.order.avgPrice == 0 && w.history == []
  }

  /**
   After k fills totalling F in any run: the filled amount is the sum of the recorded fills
   and the last recorded total; the average never exceeds the volume-weighted price, and
   undershoots the total value by at most (k-1)(F-1).
   */
  lemma {:induction false} AverageOfRun(w: World, ops: seq<Op>)
    requires Fresh(w)
    ensures Accounts(Run(w, ops), FillsOf(w, ops))
    decreases |ops|
  {
    if ops != [] {
      var k := |ops| - 1;
      AverageOfRun(w, ops[..k]);
      var before, fills := Run(w, ops[..k]), FillsOf(w, ops[..k]);
      if ops[k].Fill? && Possible(before, ops[k]) {
        FillAccounts(before, fills, ops[k]);
      } else {
        OtherAccounts(before, fills, ops[k]);
        assert fills + [] == fills;
      }
    }
  }

  lemma FillBetween(w: World, fills: seq<Op>, op: Op, lo: int, hi: int)
    requires Accounts(w, fills) && (fills != [] ==> lo <= w.order.avgPrice <= hi)
    requires op.Fill? && Possible(w, op) && 0 < lo <= op.price <= hi
    ensures lo <= Step(w, op).order.avgPrice <= hi
  {
    AverageWithin(w.order.avgPrice, w.order.filled, op.amount, op.price, lo, hi);
  }

  lemma OtherKeepsAverage(w: World, op: Op)
    requires !(op.Fill? && Possible(w, op))
    ensures Step(w, op).order.avgPrice == w.order.avgPrice
  {
  }

  lemma PricesOfPrefix(fills: seq<Op>, last: Op, lo: int, hi: int)
    requires PricesWithin(fills + [last], lo, hi) && last.Fill?
    ensures PricesWithin(fills, lo, hi) && lo <= last.price <= hi
  {
    var all := fills + [last];
    assert all[|fills|] == last;
    assert forall i :: 0 <= i < |fills| ==> all[i] == fills[i];
  }

  /** The average lies between the lowest and the highest fill price. */
  lemma {:induction false} AverageBetweenPrices(w: World, ops: seq<Op>, lo: int, hi: int)
    requires Fresh(w) && 0 < lo && PricesWithin(FillsOf(w, ops), lo, hi)
    ensures FillsOf(w, ops) != [] ==> lo <= Run(w, ops).order.avgPrice <= hi
    decreases |ops|
  {
    if ops != [] {
      var k := |ops| - 1;
      var before, fills, op := Run(w, ops[..k]), FillsOf(w, ops[..k]), ops[k];
      if op.Fill? && Possible(before, op) {
        PricesOfPrefix(fills, op, lo, hi);
        AverageBetweenPrices(w, ops[..k], lo, hi);
        AverageOfRun(w, ops[..k]);
        FillBetween(before, fills, op, lo, hi);
      } else {
        assert fills + [] == fills;
        AverageBetweenPrices(w, ops[..k], lo, hi);
        OtherKeepsAverage(before, op);
      }
    }
  }
}
