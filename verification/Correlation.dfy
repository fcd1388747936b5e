/**
 Pearson correlation of two price histories in basis points, and the per-user matrix.

 The histories come from a ring buffer of the last thirty prices; the loops over them are
 methods proved against the functions `Returns`, `Dot` and `Correlation`, and the range and
 symmetry of the coefficient are proved about those functions for all histories.
 */
module Correlation {
  import opened FixedPoint

  const CORR_SCALE := 10_000
  const RING_SIZE: nat := 30
  const KEY_FACTOR: nat := 1_000_000

  // ---------- Price history ----------

  /** The stored history of one asset: a ring of thirty slots and a running count. */
  class PriceFeed {
    var slots: map<nat, int>
    var count: nat
    ghost var recorded: seq<int>

    ghost predicate Valid()
      reads this
    {
      && count == |recorded|
      && forall i :: 0 <= i < count && count - RING_SIZE <= i ==>
           i % RING_SIZE in slots && slots[i % RING_SIZE] == recorded[i]
    }

    constructor ()
      ensures Valid() && recorded == []
    {
      slots, count, recorded := map[], 0, [];
    }

    method Record(price: int)
      requires Valid()
      modifies this
      ensures Valid() && recorded == old(recorded) + [price]
    {
      slots := slots[count % RING_SIZE := price];
      count := count + 1;
      recorded := recorded + [price];
    }

    lemma SlotOfRecent(i: nat)
      requires Valid() && i < count && i < RING_SIZE
      ensures var slot := (count + RING_SIZE - 1 - i) % RING_SIZE; slot in slots && slots[slot] == recorded[count - 1 - i]
      ensures recorded[count - 1 - i..] == [recorded[count - 1 - i]] + recorded[count - i..]
    {
      var k := count - 1 - i;
      assert (k + RING_SIZE) % RING_SIZE == k % RING_SIZE;
    }

    /** The most recent prices, oldest first: as many as asked for, recorded and still in the ring. */
    method History(window: nat) returns (prices: seq<int>)
      requires Valid()
      ensures var n := Min(Min(window, |recorded|), 30);
              prices == recorded[|recorded| - n..]
    {
      prices := [];
      if count == 0 {
        return;
      }
      var n := Min(Min(window, count), RING_SIZE);
      var i := 0;
      while i < n
        invariant 0 <= i <= n
        invariant prices == recorded[count - i..]
      {
        var slot := (count + RING_SIZE - 1 - i) % RING_SIZE;
        SlotOfRecent(i);
        if slot in slots {
          prices := [slots[slot]] + prices;
        }
        i := i + 1;
      }
    }
  }

  // ---------- Returns ----------

  function ReturnOf(prev: int, curr: int): seq<int> {
    if prev > 0 then [TruncDiv((curr - prev) * CORR_SCALE, prev)] else []
  }

  /** Relative changes between consecutive prices; a change from a non-positive price is skipped. */
  function Returns(prices: seq<int>): seq<int> {
    if |prices| < 2 then []
    else Returns(prices[..|prices| - 1]) + ReturnOf(prices[|prices| - 2], prices[|prices| - 1])
  }

  method ComputeReturns(prices: seq<int>) returns (returns_: seq<int>)
    ensures returns_ == Returns(prices)
  {
    returns_ := [];
    var i := 1;
    while i < |prices|
      invariant 1 <= i && (i <= |prices| || |prices| == 0)
      invariant i <= |prices| ==> returns_ == Returns(prices[..i])
      invariant |prices| == 0 ==> returns_ == []
    {
      var prev, curr := prices[i - 1], prices[i];
      assert prices[..i + 1][..i] == prices[..i];
      if prev > 0 {
        returns_ := returns_ + [TruncDiv((curr - prev) * CORR_SCALE, prev)];
      }
      i := i + 1;
    }
    assert |prices| > 0 ==> prices[..|prices|] == prices;
  }

  // ---------- Sums ----------

  function Sum(s: seq<int>): int {
    if s == [] then 0 else Sum(s[..|s| - 1]) + s[|s| - 1]
  }

  /** Sum of products of the deviations of two samples from given centres. */
  function Moment(a: seq<int>, b: seq<int>, ma: int, mb: int): int
    requires |a| == |b|
  {
    if a == [] then 0
    else
      var k := |a| - 1;
      Moment(a[..k], b[..k], ma, mb) + (a[k] - ma) * (b[k] - mb)
  }

  lemma {:induction false} MomentSymmetric(a: seq<int>, b: seq<int>, ma: int, mb: int)
    requires |a| == |b|
    ensures Moment(a, b, ma, mb) == Moment(b, a, mb, ma)
    decreases |a|
  {
    if a != [] {
      var k := |a| - 1;
      MomentSymmetric(a[..k], b[..k], ma, mb);
      assert (a[k] - ma) * (b[k] - mb) == (b[k] - mb) * (a[k] - ma);
    }
  }

  lemma {:induction false} MomentNonNegative(a: seq<int>, m: int)
    ensures Moment(a, a, m, m) >= 0
    ensures Moment(a, a, m, m) == 0 <==> forall i :: 0 <= i < |a| ==> a[i] == m
    decreases |a|
  {
    if a != [] {
      var k := |a| - 1;
      MomentNonNegative(a[..k], m);
      var d := a[k] - m;
      assert d * d >= 0 && (d * d == 0 <==> d == 0);
      if Moment(a, a, m, m) == 0 {
        forall i | 0 <= i < |a| ensures a[i] == m {
          assert i < k ==> a[..k][i] == a[i];
        }
      }
    }
  }

  lemma CrossProducts(A: int, B: int, C: int, x: int, y: int)
    ensures (A * (y * y)) * (B * (x * x)) == (A * B) * ((x * y) * (x * y))
    ensures (C * (x * y)) * (C * (x * y)) == (C * C) * ((x * y) * (x * y))
  {
    assert (y * y) * (x * x) == (x * y) * (x * y);
  }

  lemma MeansOfSquares(p: int, q: int, z: int)
    requires p >= 0 && q >= 0 && z * z <= p * q
    ensures 2 * z <= p + q
  {
    assert (p + q) * (p + q) - 4 * (p * q) == (p - q) * (p - q);
    assert (p - q) * (p - q) >= 0;
    assert (2 * z) * (2 * z) == 4 * (z * z);
    SquareReflects(p + q, 2 * z);
  }

  lemma Expand(A: int, B: int, C: int, x: int, y: int)
    ensures (C + x * y) * (C + x * y) == C * C + 2 * (C * (x * y)) + (x * y) * (x * y)
    ensures (A + x * x) * (B + y * y) == A * B + A * (y * y) + B * (x * x) + (x * y) * (x * y)
  {
    assert (x * x) * (y * y) == (x * y) * (x * y);
  }

  /** One more pair of deviations keeps the Cauchy-Schwarz inequality. */
  lemma CauchySchwarzStep(A: int, B: int, C: int, x: int, y: int)
    requires A >= 0 && B >= 0 && C * C <= A * B
    ensures (C + x * y) * (C + x * y) <= (A + x * x) * (B + y * y)
  {
    CrossProducts(A, B, C, x, y);
    assert (x * y) * (x * y) >= 0 && y * y >= 0 && x * x >= 0;
    MulOrder(C * C, A * B, (x * y) * (x * y));
    MulOrder(0, A, y * y);
    MulOrder(0, B, x * x);
    MeansOfSquares(A * (y * y), B * (x * x), C * (x * y));
    Expand(A, B, C, x, y);
  }

  lemma {:induction false} CauchySchwarz(a: seq<int>, b: seq<int>, ma: int, mb: int)
    requires |a| == |b|
    ensures var c := Moment(a, b, ma, mb); c * c <= Moment(a, a, ma, ma) * Moment(b, b, mb, mb)
    decreases |a|
  {
    if a != [] {
      var k := |a| - 1;
      CauchySchwarz(a[..k], b[..k], ma, mb);
      MomentNonNegative(a[..k], ma);
      MomentNonNegative(b[..k], mb);
      CauchySchwarzStep(Moment(a[..k], a[..k], ma, ma), Moment(b[..k], b[..k], mb, mb),
                        Moment(a[..k], b[..k], ma, mb), a[k] - ma, b[k] - mb);
    }
  }

  // ---------- The coefficient ----------

  function Mean(s: seq<int>): int
    requires s != []
  {
    TruncDiv(Sum(s), |s|)
  }

  /** Correlation of two equally long samples. */
  function Coefficient(a: seq<int>, b: seq<int>): int
    requires |a| == |b| >= 1
  {
    var ma, mb := Mean(a), Mean(b);
    var va, vb := Moment(a, a, ma, ma), Moment(b, b, mb, mb);
    MomentNonNegative(a, ma);
    MomentNonNegative(b, mb);
    var denominator := FloorRoot(va * vb);
    if denominator == 0 then 0 else TruncDiv(Moment(a, b, ma, mb) * CORR_SCALE, denominator)
  }

  function Correlation(pricesA: seq<int>, pricesB: seq<int>): int {
    var a, b := Returns(pricesA), Returns(pricesB);
    var n := Min(|a|, |b|);
    if Min(|pricesA|, |pricesB|) < 3 || n < 2 then 0 else Coefficient(a[..n], b[..n])
  }

  method SumOf(s: seq<int>, n: nat) returns (sum: int)
    requires n <= |s|
    ensures sum == Sum(s[..n])
  {
    sum := 0;
    for i := 0 to n
      invariant sum == Sum(s[..i])
    {
      assert s[..i + 1][..i] == s[..i];
      sum := sum + s[i];
    }
  }

  method MomentsOf(a: seq<int>, b: seq<int>, n: nat, meanA: int, meanB: int)
    returns (numerator: int, sumSqA: int, sumSqB: int)
    requires n <= |a| && n <= |b|
    ensures numerator == Moment(a[..n], b[..n], meanA, meanB)
    ensures sumSqA == Moment(a[..n], a[..n], meanA, meanA)
    ensures sumSqB == Moment(b[..n], b[..n], meanB, meanB)
  {
    numerator, sumSqA, sumSqB := 0, 0, 0;
    for i := 0 to n
      invariant numerator == Moment(a[..i], b[..i], meanA, meanB)
      invariant sumSqA == Moment(a[..i], a[..i], meanA, meanA)
      invariant sumSqB == Moment(b[..i], b[..i], meanB, meanB)
    {
      assert a[..i + 1][..i] == a[..i] && b[..i + 1][..i] == b[..i];
      var da, db := a[i] - meanA, b[i] - meanB;
      numerator := numerator + da * db;
      sumSqA := sumSqA + da * da;
      sumSqB := sumSqB + db * db;
    }
  }

  /** Two sums, three moments, one root. */
  method CalculateCorrelation(pricesA: seq<int>, pricesB: seq<int>) returns (corr: int)
    ensures corr == Correlation(pricesA, pricesB)
  {
    if Min(|pricesA|, |pricesB|) < 3 {
      return 0;
    }
    var a := ComputeReturns(pricesA);
    var b := ComputeReturns(pricesB);
    var n := Min(|a|, |b|);
    if n < 2 {
      return 0;
    }
    var sumA := SumOf(a, n);
    var sumB := SumOf(b, n);
    var meanA, meanB := TruncDiv(sumA, n), TruncDiv(sumB, n);
    var numerator, sumSqA, sumSqB := MomentsOf(a, b, n, meanA, meanB);
    MomentNonNegative(a[..n], meanA);
    MomentNonNegative(b[..n], meanB);
    MulOrder(0, sumSqA, sumSqB);
    var denominator := Isqrt(sumSqA * sumSqB);
    if denominator == 0 {
      return 0;
    }
    corr := TruncDiv(numerator * CORR_SCALE, denominator);
  }

  // ---------- What the coefficient is, by multiplication only ----------

  /** r is the change from prev to curr in basis points of prev, rounded toward zero. */
  ghost predicate IsReturn(prev: int, curr: int, r: int) {
    Truncated((curr - prev) * 10_000, prev, r)
  }

  /** Strictly increasing, and exactly the positions whose earlier price is positive. */
  ghost predicate PositivePositions(prices: seq<int>, at: seq<nat>) {
    && (forall j, k :: 0 <= j < k < |at| ==> at[j] < at[k])
    && (forall k :: 0 <= k < |at| ==> 1 <= at[k] < |prices| && prices[at[k] - 1] > 0)
    && (forall i: nat :: 1 <= i < |prices| && prices[i - 1] > 0 ==> i in at)
  }

  /** Each of rs is the return at the position listed with it. */
  ghost predicate ReturnsAt(prices: seq<int>, at: seq<nat>, rs: seq<int>) {
    && |rs| == |at| && (forall k :: 0 <= k < |at| ==> 1 <= at[k] < |prices|)
    && (forall k :: 0 <= k < |at| ==> IsReturn(prices[at[k] - 1], prices[at[k]], rs[k]))
  }

  lemma PositionsNext(front: seq<int>, last: int, at: seq<nat>)
    requires front != [] && PositivePositions(front, at)
    ensures var n := |front|;
            PositivePositions(front + [last], if front[n - 1] > 0 then at + [n] else at)
  {
    var n, prices := |front|, front + [last];
    assert forall i :: 0 <= i < n ==> front[i] == prices[i];
    if front[n - 1] > 0 {
      var longer := at + [n];
      assert longer[|at|] == n && forall i :: i in at ==> i in longer;
    }
  }

  lemma ReturnsStay(front: seq<int>, last: int, at: seq<nat>, rs: seq<int>)
    requires ReturnsAt(front, at, rs)
    ensures ReturnsAt(front + [last], at, rs)
  {
    assert forall i :: 0 <= i < |front| ==> front[i] == (front + [last])[i];
  }

  lemma ReturnsNext(front: seq<int>, last: int, at: seq<nat>, rs: seq<int>, r: int)
    requires front != [] && ReturnsAt(front, at, rs) && IsReturn(front[|front| - 1], last, r)
    ensures ReturnsAt(front + [last], at + [|front|], rs + [r])
  {
    ReturnsStay(front, last, at, rs);
  }

  lemma RelativeChange(prev: int, curr: int)
    ensures prev > 0 ==> |ReturnOf(prev, curr)| == 1 && IsReturn(prev, curr, ReturnOf(prev, curr)[0])
    ensures prev <= 0 ==> ReturnOf(prev, curr) == []
  {
    if prev > 0 {
      TruncDivMeaning((curr - prev) * CORR_SCALE, prev);
    }
  }

  /** One return, in order, for every position with a positive earlier price: the relative change there. */
  lemma {:induction false} ReturnsAreRelativeChanges(prices: seq<int>) returns (at: seq<nat>)
    ensures PositivePositions(prices, at) && ReturnsAt(prices, at, Returns(prices))
    decreases |prices|
  {
    at := [];
    if |prices| >= 2 {
      var n := |prices| - 1;
      var front, prev, curr := prices[..n], prices[n - 1], prices[n];
      at := ReturnsAreRelativeChanges(front);
      assert prices == front + [curr];
      PositionsNext(front, curr, at);
      RelativeChange(prev, curr);
      var rs, change := Returns(front), ReturnOf(prev, curr);
      assert Returns(prices) == rs + change;
      if prev > 0 {
        assert change == [change[0]];
        ReturnsNext(front, curr, at, rs, change[0]);
        at := at + [n];
      } else {
        assert rs + change == rs;
        ReturnsStay(front, curr, at, rs);
      }
    }
  }

  /** m is the mean of s, rounded toward zero. */
  ghost predicate IsMean(s: seq<int>, m: int) {
    Truncated(Sum(s), |s|, m)
  }

  lemma {:induction false} SumAdds(a: seq<int>, b: seq<int>, x: int)
    ensures Sum([]) == 0 && Sum([x]) == x && Sum(a + b) == Sum(a) + Sum(b)
    decreases |b|
  {
    assert [x][..0] == [];
    if b == [] {
      assert a + b == a;
    } else {
      var k := |b| - 1;
      assert (a + b)[..|a| + k] == a + b[..k];
      SumAdds(a, b[..k], x);
    }
  }

  lemma {:induction false} MomentAdds(a: seq<int>, b: seq<int>, c: seq<int>, d: seq<int>, ma: int, mb: int, x: int, y: int)
    requires |a| == |b| && |c| == |d|
    ensures Moment([x], [y], ma, mb) == (x - ma) * (y - mb)
    ensures Moment(a + c, b + d, ma, mb) == Moment(a, b, ma, mb) + Moment(c, d, ma, mb)
    decreases |c|
  {
    assert [x][..0] == [] && [y][..0] == [];
    if c == [] {
      assert a + c == a && b + d == b;
    } else {
      var k := |c| - 1;
      assert (a + c)[..|a| + k] == a + c[..k] && (b + d)[..|b| + k] == b + d[..k];
      MomentAdds(a, b, c[..k], d[..k], ma, mb, x, y);
    }
  }

  /**
   The coefficient between its extremes: with the rounded means, the mixed moment over the
   floor root of the product of the squared ones, in basis points, rounded toward zero.
   */
  lemma CoefficientMeaning(a: seq<int>, b: seq<int>) returns (ma: int, mb: int, d: int)
    requires |a| == |b| >= 1
    ensures IsMean(a, ma) && IsMean(b, mb)
    ensures var product := Moment(a, a, ma, ma) * Moment(b, b, mb, mb); 0 <= d && d * d <= product < (d + 1) * (d + 1)
    ensures if d == 0 then Coefficient(a, b) == 0 else Truncated(Moment(a, b, ma, mb) * 10_000, d, Coefficient(a, b))
  {
    ma, mb := Mean(a), Mean(b);
    TruncDivMeaning(Sum(a), |a|);
    TruncDivMeaning(Sum(b), |b|);
    MomentNonNegative(a, ma);
    MomentNonNegative(b, mb);
    MulOrder(0, Moment(a, a, ma, ma), Moment(b, b, mb, mb));
    d := FloorRoot(Moment(a, a, ma, ma) * Moment(b, b, mb, mb));
    if d > 0 {
      TruncDivMeaning(Moment(a, b, ma, mb) * CORR_SCALE, d);
    }
  }

  /** Two price histories correlate by their first returns, as many as both have; fewer than two returns give 0. */
  lemma CorrelationOfReturns(pricesA: seq<int>, pricesB: seq<int>, n: nat)
    requires n <= |Returns(pricesA)| && n <= |Returns(pricesB)| && (n == |Returns(pricesA)| || n == |Returns(pricesB)|)
    ensures Correlation(pricesA, pricesB)
         == if n < 2 then 0 else Coefficient(Returns(pricesA)[..n], Returns(pricesB)[..n])
  {
    ReturnsLength(pricesA);
    ReturnsLength(pricesB);
  }

  lemma QuotientBound(c: int, d: int)
    requires d > 0 && -d <= c <= d
    ensures -CORR_SCALE <= TruncDiv(c * CORR_SCALE, d) <= CORR_SCALE
  {
    var m := Abs(c * CORR_SCALE);
    assert m <= CORR_SCALE * d;
    DivUpper(m, d, CORR_SCALE + 1);
  }

  lemma CoefficientRange(a: seq<int>, b: seq<int>)
    requires |a| == |b| >= 1
    ensures -CORR_SCALE <= Coefficient(a, b) <= CORR_SCALE
  {
    var ma, mb := Mean(a), Mean(b);
    var c, va, vb := Moment(a, b, ma, mb), Moment(a, a, ma, ma), Moment(b, b, mb, mb);
    MomentNonNegative(a, ma);
    MomentNonNegative(b, mb);
    CauchySchwarz(a, b, ma, mb);
    var d := FloorRoot(va * vb);
    if d > 0 {
      // c * c <= va * vb < (d + 1) * (d + 1), so |c| <= d.
      assert Abs(c) * Abs(c) == c * c;
      if Abs(c) > d {
        SquareMonotone(d + 1, Abs(c));
        assert false;
      }
      QuotientBound(c, d);
    }
  }

  lemma CoefficientSymmetric(a: seq<int>, b: seq<int>)
    requires |a| == |b| >= 1
    ensures Coefficient(a, b) == Coefficient(b, a)
  {
    var ma, mb := Mean(a), Mean(b);
    MomentSymmetric(a, b, ma, mb);
    var va, vb := Moment(a, a, ma, ma), Moment(b, b, mb, mb);
    assert va * vb == vb * va;
  }

  /** For all price histories the coefficient is in [-10000, 10000] and symmetric. */
  lemma CorrelationRangeAndSymmetry(pricesA: seq<int>, pricesB: seq<int>)
    ensures -10_000 <= Correlation(pricesA, pricesB) <= 10_000
    ensures Correlation(pricesA, pricesB) == Correlation(pricesB, pricesA)
  {
    var a, b := Returns(pricesA), Returns(pricesB);
    var n := Min(|a|, |b|);
    if n >= 2 {
      CoefficientRange(a[..n], b[..n]);
      CoefficientSymmetric(a[..n], b[..n]);
    }
  }

  ghost predicate Varies(s: seq<int>) {
    s != [] && exists i :: 0 <= i < |s| && s[i] != Mean(s)
  }

  lemma FullScale(v: int)
    requires v > 0
    ensures FloorRoot(v * v) == v && TruncDiv(v * CORR_SCALE, v) == CORR_SCALE
  {
    assert (v + 1) * (v + 1) == v * v + 2 * v + 1;
    FloorRootUnique(v * v, v);
    DivLower(v * CORR_SCALE, v, CORR_SCALE);
    DivUpper(v * CORR_SCALE, v, CORR_SCALE + 1);
  }

  lemma SelfCoefficient(a: seq<int>)
    requires a != []
    ensures Coefficient(a, a) == if Varies(a) then CORR_SCALE else 0
  {
    var v := Moment(a, a, Mean(a), Mean(a));
    MomentNonNegative(a, Mean(a));
    if v > 0 {
      FullScale(v);
    } else {
      assert FloorRoot(0) == 0;
    }
  }

  function Negated(a: seq<int>): (n: seq<int>)
    ensures |n| == |a|
  {
    seq(|a|, i requires 0 <= i < |a| => -a[i])
  }

  lemma {:induction false} SumOfNegated(a: seq<int>)
    ensures Sum(Negated(a)) == -Sum(a)
    decreases |a|
  {
    if a != [] {
      var k := |a| - 1;
      assert Negated(a)[..k] == Negated(a[..k]);
      SumOfNegated(a[..k]);
    }
  }

  lemma {:induction false} MomentOfNegated(a: seq<int>, m: int)
    ensures Moment(a, Negated(a), m, -m) == -Moment(a, a, m, m)
    ensures Moment(Negated(a), Negated(a), -m, -m) == Moment(a, a, m, m)
    decreases |a|
  {
    if a != [] {
      var k := |a| - 1;
      assert Negated(a)[..k] == Negated(a[..k]);
      MomentOfNegated(a[..k], m);
      var d := a[k] - m;
      assert d * (-d) == -(d * d) && (-d) * (-d) == d * d;
      assert Negated(a)[k] - (-m) == -d;
    }
  }

  /** Returns that mirror each other score exactly -10000, unless none leaves the mean: rounding toward zero keeps the mirror exact. */
  lemma MirrorCoefficient(a: seq<int>)
    requires a != []
    ensures Coefficient(a, Negated(a)) == if Varies(a) then -10_000 else 0
  {
    var n, m := Negated(a), Mean(a);
    SumOfNegated(a);
    assert Mean(n) == -m;
    MomentOfNegated(a, m);
    MomentNonNegative(a, m);
    var v := Moment(a, a, m, m);
    if v > 0 {
      FullScale(v);
      assert Moment(a, n, m, -m) * CORR_SCALE == -(v * CORR_SCALE);
      MulOrder(0, v, CORR_SCALE);
    } else {
      assert FloorRoot(0) == 0;
    }
  }

  /** Against itself an asset scores exactly 10000, unless none of its returns leaves the mean. */
  lemma SelfCorrelation(prices: seq<int>)
    ensures Correlation(prices, prices) == if Varies(Returns(prices)) then 10_000 else 0
  {
    var a := Returns(prices);
    ReturnsLength(prices);
    assert a[..|a|] == a;
    if |a| == 1 {
      MeanOfOne(a);
    } else if |a| >= 2 {
      SelfCoefficient(a);
    }
  }

  lemma MeanOfOne(a: seq<int>)
    requires |a| == 1
    ensures Mean(a) == a[0] && !Varies(a)
  {
    assert a[..0] == [];
    assert Sum(a) == a[0];
    assert TruncDiv(a[0], 1) == a[0];
  }

  lemma {:induction false} ReturnsLength(prices: seq<int>)
    ensures |Returns(prices)| <= |prices|
    ensures |prices| > 0 ==> |Returns(prices)| < |prices|
    decreases |prices|
  {
    if |prices| >= 2 {
      ReturnsLength(prices[..|prices| - 1]);
    }
  }

  // ---------- The matrix ----------

  function PairKey(a: nat, b: nat): nat {
    a * KEY_FACTOR + b
  }

  /** The key identifies every ordered pair of ids below n if and only if n is at most one million. */
  lemma PairKeyIdentifiesIff(n: nat)
    ensures (forall a: nat, b: nat, c: nat, d: nat :: a < n && b < n && c < n && d < n && PairKey(a, b) == PairKey(c, d)
               ==> a == c && b == d)
            <==> n <= 1_000_000
  {
    if n > KEY_FACTOR {
      PairKeyCollision();
    }
  }

  /** The first pair of ids that shares its key with another. */
  lemma PairKeyCollision()
    ensures PairKey(0, 1_000_000) == PairKey(1, 0)
  {
  }

  type Histories = map<nat, seq<int>>

  function HistoryOf(h: Histories, id: nat): seq<int> {
    if id in h then h[id] else []
  }

  function PairCorrelation(h: Histories, a: nat, b: nat): int {
    Correlation(HistoryOf(h, a), HistoryOf(h, b))
  }

  /** What the matrix tabulates: a number for every two ids. */
  type Measure = (nat, nat) -> int

  function Measured(h: Histories): Measure {
    (a: nat, b: nat) => PairCorrelation(h, a, b)
  }

  ghost predicate Symmetric(c: Measure) {
    forall a, b :: c(a, b) == c(b, a)
  }

  /** Sets the entry of a pair in both orders. */
  function WithPair(c: Measure, m: map<nat, int>, a: nat, b: nat): map<nat, int> {
    m[PairKey(a, b) := c(a, b)][PairKey(b, a) := c(a, b)]
  }

  /** The matrix after the pairs (i, i + 1) to (i, j - 1) were added to m. */
  function RowAfter(c: Measure, assets: seq<nat>, m: map<nat, int>, i: nat, j: nat): map<nat, int>
    requires i < j <= |assets|
  {
    if j == i + 1 then m else WithPair(c, RowAfter(c, assets, m, i, j - 1), assets[i], assets[j - 1])
  }

  /** The matrix after the first i rows. */
  function RowsAfter(c: Measure, assets: seq<nat>, i: nat): map<nat, int>
    requires i <= |assets|
  {
    if i == 0 then map[] else RowAfter(c, assets, RowsAfter(c, assets, i - 1), i - 1, |assets|)
  }

  function Matrix(c: Measure, assets: seq<nat>): map<nat, int> {
    RowsAfter(c, assets, |assets|)
  }

  method BuildCorrelationMatrix(h: Histories, assets: seq<nat>) returns (m: map<nat, int>)
    ensures m == Matrix(Measured(h), assets) && InRange(m)
    ensures KeysApart(assets) ==> AllPairs(Measured(h), assets, m)
  {
    ghost var c := Measured(h);
    m := map[];
    for i := 0 to |assets|
      invariant m == RowsAfter(c, assets, i)
    {
      for j := i + 1 to |assets|
        invariant m == RowAfter(c, assets, RowsAfter(c, assets, i), i, j)
      {
        var a, b := assets[i], assets[j];
        var corr := CalculateCorrelation(HistoryOf(h, a), HistoryOf(h, b));
        m := m[PairKey(a, b) := corr];
        m := m[PairKey(b, a) := corr];
      }
    }
    MatrixInRange(h, assets);
    if KeysApart(assets) {
      MeasuredSymmetric(h);
      ApartMeansRight(c, assets);
    }
  }

  /** Every entry is a coefficient. */
  ghost predicate InRange(m: map<nat, int>) {
    forall k :: k in m ==> -10_000 <= m[k] <= 10_000
  }

  lemma {:induction false} RowInRange(c: Measure, assets: seq<nat>, m: map<nat, int>, i: nat, j: nat)
    requires i < j <= |assets| && InRange(m) && forall a, b :: -CORR_SCALE <= c(a, b) <= CORR_SCALE
    ensures InRange(RowAfter(c, assets, m, i, j))
  {
    if j > i + 1 {
      RowInRange(c, assets, m, i, j - 1);
    }
  }

  lemma {:induction false} RowsInRange(c: Measure, assets: seq<nat>, i: nat)
    requires i <= |assets| && forall a, b :: -CORR_SCALE <= c(a, b) <= CORR_SCALE
    ensures InRange(RowsAfter(c, assets, i))
  {
    if i > 0 {
      RowsInRange(c, assets, i - 1);
      RowInRange(c, assets, RowsAfter(c, assets, i - 1), i - 1, |assets|);
    }
  }

  /** Whatever the asset ids, every entry of the matrix lies in [-10000, 10000]. */
  lemma MatrixInRange(h: Histories, assets: seq<nat>)
    ensures InRange(Matrix(Measured(h), assets))
  {
    var c := Measured(h);
    forall a: nat, b: nat ensures -CORR_SCALE <= c(a, b) <= CORR_SCALE {
      CorrelationRangeAndSymmetry(HistoryOf(h, a), HistoryOf(h, b));
    }
    RowsInRange(c, assets, |assets|);
  }

  ghost predicate HasPair(c: Measure, m: map<nat, int>, a: nat, b: nat) {
    PairKey(a, b) in m && m[PairKey(a, b)] == c(a, b)
  }

  /** Two positions of the list. */
  predicate IsPair(assets: seq<nat>, p: nat, q: nat) {
    p < |assets| && q < |assets| && p != q
  }

  /** The entry for every two listed assets is their correlation. */
  ghost predicate AllPairs(c: Measure, assets: seq<nat>, m: map<nat, int>) {
    forall p: nat, q: nat :: IsPair(assets, p, q) ==> HasPair(c, m, assets[p], assets[q])
  }

  /** No two different ordered pairs of listed ids share a key. */
  ghost predicate KeysApart(assets: seq<nat>) {
    forall p: nat, q: nat, r: nat, s: nat {:trigger SameIfSameKey(assets[p], assets[q], assets[r], assets[s])} ::
      IsPair(assets, p, q) && IsPair(assets, r, s) ==> SameIfSameKey(assets[p], assets[q], assets[r], assets[s])
  }

  predicate SameIfSameKey(a: nat, b: nat, u: nat, v: nat) {
    PairKey(a, b) == PairKey(u, v) ==> a == u && b == v
  }

  /** Setting a pair keeps the entry of every pair whose key it does not share. */
  lemma SetPair(c: Measure, m: map<nat, int>, a: nat, b: nat, u: nat, v: nat)
    requires SameIfSameKey(a, b, u, v) && SameIfSameKey(b, a, u, v) && SameIfSameKey(b, a, a, b)
    requires c(a, b) == c(b, a)
    ensures var m' := WithPair(c, m, a, b);
            HasPair(c, m', a, b) && HasPair(c, m', b, a) && (HasPair(c, m, u, v) ==> HasPair(c, m', u, v))
  {
  }

  /** The pair comes before (i, j) in the order of the loops. */
  predicate Visited(p: nat, q: nat, i: nat, j: nat) {
    p < q && (p < i || (p == i && q < j))
  }

  ghost predicate Covers(c: Measure, assets: seq<nat>, m: map<nat, int>, i: nat, j: nat) {
    forall p: nat, q: nat :: IsPair(assets, p, q) && Visited(p, q, i, j) ==>
      HasPair(c, m, assets[p], assets[q]) && HasPair(c, m, assets[q], assets[p])
  }

  lemma CoversNext(c: Measure, assets: seq<nat>, m: map<nat, int>, i: nat, j: nat)
    requires Symmetric(c) && KeysApart(assets) && i < j < |assets| && Covers(c, assets, m, i, j)
    ensures Covers(c, assets, WithPair(c, m, assets[i], assets[j]), i, j + 1)
  {
    var a, b := assets[i], assets[j];
    assert IsPair(assets, i, j) && IsPair(assets, j, i);
    forall p: nat, q: nat | IsPair(assets, p, q) && Visited(p, q, i, j + 1)
      ensures HasPair(c, WithPair(c, m, a, b), assets[p], assets[q])
      ensures HasPair(c, WithPair(c, m, a, b), assets[q], assets[p])
    {
      assert IsPair(assets, q, p);
      assert Visited(p, q, i, j) || (p == i && q == j);
      SetPair(c, m, a, b, assets[p], assets[q]);
      SetPair(c, m, a, b, assets[q], assets[p]);
    }
  }

  lemma {:induction false} RowCovers(c: Measure, assets: seq<nat>, m: map<nat, int>, i: nat, j: nat)
    requires Symmetric(c) && KeysApart(assets) && i < j <= |assets| && Covers(c, assets, m, i, i + 1)
    ensures Covers(c, assets, RowAfter(c, assets, m, i, j), i, j)
  {
    if j > i + 1 {
      var before := RowAfter(c, assets, m, i, j - 1);
      assert Covers(c, assets, before, i, j - 1) by {
        RowCovers(c, assets, m, i, j - 1);
      }
      var after := WithPair(c, before, assets[i], assets[j - 1]);
      assert Covers(c, assets, after, i, j) by {
        CoversNext(c, assets, before, i, j - 1);
      }
      assert RowAfter(c, assets, m, i, j) == after;
    }
  }

  lemma {:induction false} RowsCover(c: Measure, assets: seq<nat>, i: nat)
    requires Symmetric(c) && KeysApart(assets) && i <= |assets|
    ensures Covers(c, assets, RowsAfter(c, assets, i), i, i + 1)
  {
    if i > 0 {
      RowsCover(c, assets, i - 1);
      RowCovers(c, assets, RowsAfter(c, assets, i - 1), i - 1, |assets|);
    }
  }

  lemma ApartMeansRight(c: Measure, assets: seq<nat>)
    requires Symmetric(c) && KeysApart(assets)
    ensures AllPairs(c, assets, Matrix(c, assets))
  {
    RowsCover(c, assets, |assets|);
    forall p: nat, q: nat | IsPair(assets, p, q) ensures HasPair(c, Matrix(c, assets), assets[p], assets[q]) {
      var n := |assets|;
      assert IsPair(assets, q, p) && (Visited(p, q, n, n + 1) || Visited(q, p, n, n + 1));
    }
  }

  const SWING: seq<int> := [100, 200, 100]

  /** Two assets with the same swinging prices correlate fully. */
  lemma SwingCorrelates()
    ensures Correlation(SWING, SWING) == CORR_SCALE
  {
    assert SWING[..2] == [100, 200] && SWING[..2][..1] == [100];
    var a := Returns(SWING);
    assert Returns(SWING[..2]) == [10_000];
    assert a == [10_000, -5_000];
    var first := a[..1];
    assert first == [10_000] && first[..0] == [];
    assert Sum(first) == 10_000;
    assert Sum(a) == 5_000;
    assert Mean(a) == 2_500 && a[0] != Mean(a);
    SelfCorrelation(SWING);
  }

  /** Different ordered pairs that share a key involve an asset of which the first pair knows nothing. */
  lemma SharedKeyBringsThird(a: nat, b: nat, u: nat, v: nat)
    requires !SameIfSameKey(a, b, u, v)
    ensures !((u == a || u == b) && (v == a || v == b))
  {
  }

  /** A market in which only two assets have prices. */
  function OnlySwings(a: nat, b: nat): Histories {
    map[a := SWING, b := SWING]
  }

  lemma OnlyThePairCorrelates(a: nat, b: nat, u: nat, v: nat)
    requires !SameIfSameKey(a, b, u, v)
    ensures PairCorrelation(OnlySwings(a, b), a, b) == CORR_SCALE && PairCorrelation(OnlySwings(a, b), u, v) == 0
  {
    SwingCorrelates();
    SharedKeyBringsThird(a, b, u, v);
  }

  /** If two different pairs share a key, no matrix at all serves a market in which only the first pair has prices. */
  lemma SharedKeyFails(assets: seq<nat>, m: map<nat, int>, p: nat, q: nat, r: nat, s: nat)
    requires IsPair(assets, p, q) && IsPair(assets, r, s)
    requires !SameIfSameKey(assets[p], assets[q], assets[r], assets[s])
    ensures !AllPairs(Measured(OnlySwings(assets[p], assets[q])), assets, m)
  {
    var a, b, u, v := assets[p], assets[q], assets[r], assets[s];
    var c := Measured(OnlySwings(a, b));
    OnlyThePairCorrelates(a, b, u, v);
    assert c(a, b) == CORR_SCALE && c(u, v) == 0;
    assert !(HasPair(c, m, a, b) && HasPair(c, m, u, v));
  }

  lemma MeasuredSymmetric(h: Histories)
    ensures Symmetric(Measured(h))
  {
    forall a: nat, b: nat ensures Measured(h)(a, b) == Measured(h)(b, a) {
      CorrelationRangeAndSymmetry(HistoryOf(h, a), HistoryOf(h, b));
    }
  }

  ghost predicate MatrixRight(h: Histories, assets: seq<nat>) {
    AllPairs(Measured(h), assets, Matrix(Measured(h), assets))
  }

  /**
   Exactly when the matrix is right: for all price histories every two listed positions find
   their correlation in it, if and only if no two different pairs of listed ids share a key.
   */
  lemma MatrixRightIff(assets: seq<nat>)
    ensures (forall h: Histories :: MatrixRight(h, assets)) <==> KeysApart(assets)
  {
    if KeysApart(assets) {
      forall h: Histories ensures MatrixRight(h, assets) {
        RightWhenApart(h, assets);
      }
    } else {
      var h := FailingMarket(assets);
    }
  }

  lemma RightWhenApart(h: Histories, assets: seq<nat>)
    requires KeysApart(assets)
    ensures MatrixRight(h, assets)
  {
    MeasuredSymmetric(h);
    ApartMeansRight(Measured(h), assets);
  }

  lemma FailingMarket(assets: seq<nat>) returns (h: Histories)
    requires !KeysApart(assets)
    ensures !MatrixRight(h, assets)
  {
    var p: nat, q: nat, r: nat, s: nat :| IsPair(assets, p, q) && IsPair(assets, r, s)
      && !SameIfSameKey(assets[p], assets[q], assets[r], assets[s]);
    h := OnlySwings(assets[p], assets[q]);
    SharedKeyFails(assets, Matrix(Measured(h), assets), p, q, r, s);
  }

  /** Lists of ids below one million are such lists. */
  lemma SmallIdsAreApart(assets: seq<nat>)
    requires forall i :: 0 <= i < |assets| ==> assets[i] < 1_000_000
    ensures KeysApart(assets)
  {
    forall p: nat, q: nat, r: nat, s: nat | IsPair(assets, p, q) && IsPair(assets, r, s)
      ensures SameIfSameKey(assets[p], assets[q], assets[r], assets[s])
    {
      PairKeyIdentifiesIff(KEY_FACTOR);
    }
  }
}
