/**
 Risk-adjusted provider score: a trailing window of resolved returns and a Sharpe-style
 quotient of its mean and standard deviation, in basis points.
 */
module RiskScore {
  import opened FixedPoint

  const SCALE := 10_000

  datatype HistoricReturn = HistoricReturn(bps: int, timestamp: nat)

  /** `Panic` is the aborted call: a division by zero inside the contract. */
  datatype ScoreResult = InsufficientData | Score(score: int) | Panic

  // ---------- The trailing window ----------

  /** The last w elements, or all of them when there are fewer. */
  function LastOf<T>(s: seq<T>, w: nat): seq<T> {
    if |s| <= w then s else s[|s| - w..]
  }

  class ReturnWindow {
    var returns_: seq<HistoricReturn>

    constructor ()
      ensures returns_ == []
    {
      returns_ := [];
    }

    /** Appends one outcome and drops the oldest ones beyond the window size. */
    method Record(ret: HistoricReturn, windowSize: nat)
      modifies this
      ensures returns_ == LastOf(old(returns_) + [ret], windowSize)
    {
      var kept := returns_ + [ret];
      ghost var full := kept;
      while |kept| > windowSize
        invariant |kept| <= |full| && kept == full[|full| - |kept|..]
        invariant |full| <= windowSize ==> kept == full
        invariant |full| > windowSize ==> |kept| >= windowSize
      {
        kept := kept[1..];
      }
      returns_ := kept;
    }
  }

  /** One recorded outcome together with the window size configured at that moment. */
  datatype Recording = Recording(ret: HistoricReturn, windowSize: nat)

  function Outcomes(run: seq<Recording>): seq<HistoricReturn> {
    seq(|run|, i requires 0 <= i < |run| => run[i].ret)
  }

  /** The stored window after a whole run of recordings. */
  function WindowAfter(run: seq<Recording>): seq<HistoricReturn> {
    if run == [] then []
    else
      var k := |run| - 1;
      LastOf(WindowAfter(run[..k]) + [run[k].ret], run[k].windowSize)
  }

  ghost predicate IsSuffix<T>(s: seq<T>, full: seq<T>) {
    |s| <= |full| && s == full[|full| - |s|..]
  }

  /** However the window size is changed, the stored window is a suffix of everything recorded. */
  lemma {:induction false} WindowIsSuffix(run: seq<Recording>)
    ensures IsSuffix(WindowAfter(run), Outcomes(run))
    decreases |run|
  {
    if run != [] {
      var k := |run| - 1;
      WindowIsSuffix(run[..k]);
      assert Outcomes(run) == Outcomes(run[..k]) + [run[k].ret];
    }
  }

  /** Under one fixed size w it is exactly the last w outcomes. */
  lemma {:induction false} FixedWindow(run: seq<Recording>, w: nat)
    requires forall i :: 0 <= i < |run| ==> run[i].windowSize == w
    ensures WindowAfter(run) == LastOf(Outcomes(run), w)
    ensures |WindowAfter(run)| == if |run| < w then |run| else w
    decreases |run|
  {
    if run != [] {
      var k := |run| - 1;
      FixedWindow(run[..k], w);
      assert Outcomes(run) == Outcomes(run[..k]) + [run[k].ret];
    }
  }

  // ---------- The score ----------

  function FpMul(a: int, b: int): int {
    TruncDiv(a * b, SCALE)
  }

  function FpDiv(a: int, b: int): int
    requires b != 0
  {
    TruncDiv(a * SCALE, b)
  }

  function Sum(r: seq<HistoricReturn>): int {
    if r == [] then 0 else Sum(r[..|r| - 1]) + r[|r| - 1].bps
  }

  function Mean(r: seq<HistoricReturn>): int
    requires r != []
  {
    TruncDiv(Sum(r), |r|)
  }

  function SquaredDeviation(bps: int, mean: int): (d: nat)
  {
    var diff := bps - mean;
    assert diff * diff >= 0;
    FpMul(diff, diff)
  }

  function Spread(r: seq<HistoricReturn>, mean: int): nat {
    if r == [] then 0 else Spread(r[..|r| - 1], mean) + SquaredDeviation(r[|r| - 1].bps, mean)
  }

  function Variance(r: seq<HistoricReturn>): nat
    requires |r| >= 2
  {
    Spread(r, Mean(r)) / (|r| - 1)
  }

  function Quotient(mean: int, variance: nat): int {
    FpDiv(mean, FloorRoot(variance * SCALE) + 1)
  }

  function RiskAdjustedScore(r: seq<HistoricReturn>, minSample: nat): ScoreResult {
    if |r| < minSample then InsufficientData
    else if |r| < 2 then Panic
    else Score(Quotient(Mean(r), Variance(r)))
  }

  method SumReturns(r: seq<HistoricReturn>) returns (sum: int)
    ensures sum == Sum(r)
  {
    sum := 0;
    for i := 0 to |r|
      invariant sum == Sum(r[..i])
    {
      assert r[..i + 1][..i] == r[..i];
      sum := sum + r[i].bps;
    }
    assert r[..|r|] == r;
  }

  method SumSquaredDeviations(r: seq<HistoricReturn>, mean: int) returns (sum: nat)
    ensures sum == Spread(r, mean)
  {
    sum := 0;
    for i := 0 to |r|
      invariant sum == Spread(r[..i], mean)
    {
      assert r[..i + 1][..i] == r[..i];
      var diff := r[i].bps - mean;
      assert diff * diff >= 0;
      sum := sum + FpMul(diff, diff);
    }
    assert r[..|r|] == r;
  }

  /** The scoring entry point; empty and one-element windows reach a division by zero. */
  method ComputeRiskAdjustedScore(r: seq<HistoricReturn>, minSample: nat) returns (result: ScoreResult)
    ensures result == RiskAdjustedScore(r, minSample)
    ensures result.Score? <==> |r| >= minSample && |r| >= 2
    ensures result.Panic? <==> minSample <= |r| < 2
  {
    if |r| < minSample {
      return InsufficientData;
    }
    if |r| == 0 {
      return Panic;
    }
    var sum := SumReturns(r);
    var mean := TruncDiv(sum, |r|);
    var sumDiffSq := SumSquaredDeviations(r, mean);
    if |r| - 1 == 0 {
      return Panic;
    }
    var variance := TruncDiv(sumDiffSq, |r| - 1);
    var stdDev := Isqrt(variance * SCALE);
    assert FloorRoot(0) == 0;
    result := Score(FpDiv(mean, stdDev + 1));
  }

  /** The exact sum of squared deviations. */
  function SumSquares(r: seq<HistoricReturn>, mean: int): int {
    if r == [] then 0
    else SumSquares(r[..|r| - 1], mean) + (r[|r| - 1].bps - mean) * (r[|r| - 1].bps - mean)
  }

  lemma {:induction false} SpreadBounds(r: seq<HistoricReturn>, mean: int)
    ensures SCALE * Spread(r, mean) <= SumSquares(r, mean) <= SCALE * Spread(r, mean) + (SCALE - 1) * |r|
    decreases |r|
  {
    if r != [] {
      SpreadBounds(r[..|r| - 1], mean);
      var d := r[|r| - 1].bps - mean;
      assert d * d >= 0;
      DivBounds(d * d, SCALE);
    }
  }

  /** The variance is the sample variance at scale 10000, short of it by less than 2 plus a share of rounding. */
  lemma VarianceBounds(r: seq<HistoricReturn>)
    requires |r| >= 2
    ensures var n, q := |r| - 1, SumSquares(r, Mean(r));
            SCALE * (n * Variance(r)) <= q < SCALE * (n * Variance(r) + n) + SCALE * (n + 1)
  {
    var n, spread := |r| - 1, Spread(r, Mean(r));
    SpreadBounds(r, Mean(r));
    DivBounds(spread, n);
  }

  lemma {:induction false} SumAdds(a: seq<HistoricReturn>, b: seq<HistoricReturn>, x: HistoricReturn)
    ensures Sum([]) == 0 && Sum([x]) == x.bps && Sum(a + b) == Sum(a) + Sum(b)
    decreases |b|
  {
    assert [x][..0] == [];
    if b == [] {
      assert a + b == a;
    } else {
      var k := |b| - 1;
      assert (a + b)[..|a| + k] == a + b[..k];
      SumAdds(a, b[..k], x);
    }
  }

  /** Squared deviations from the mean at scale 10000, each rounded down, and their sum. */
  ghost predicate IsSpread(r: seq<HistoricReturn>, mean: int, spread: int) {
    if r == [] then spread == 0
    else
      var d := r[|r| - 1].bps - mean;
      exists last: int :: Truncated(d * d, 10_000, last) && IsSpread(r[..|r| - 1], mean, spread - last)
  }

  lemma {:induction false} SpreadMeaning(r: seq<HistoricReturn>, mean: int)
    ensures IsSpread(r, mean, Spread(r, mean))
    decreases |r|
  {
    if r != [] {
      var k := |r| - 1;
      var d := r[k].bps - mean;
      SpreadMeaning(r[..k], mean);
      TruncDivMeaning(d * d, SCALE);
      assert Truncated(d * d, 10_000, SquaredDeviation(r[k].bps, mean));
    }
  }

  /**
   What the score is, by multiplication only: the mean over the deviation plus one, at scale
   10000, where the deviation is the floor root of the sample variance at that scale.
   */
  lemma ScoreMeaning(r: seq<HistoricReturn>, minSample: nat) returns (mean: int, spread: int, variance: int, deviation: int)
    requires |r| >= 2 && |r| >= minSample
    ensures Truncated(Sum(r), |r|, mean) && IsSpread(r, mean, spread) && Truncated(spread, |r| - 1, variance)
    ensures 0 <= deviation && deviation * deviation <= variance * 10_000 < (deviation + 1) * (deviation + 1)
    ensures RiskAdjustedScore(r, minSample).Score?
    ensures Truncated(mean * 10_000, deviation + 1, RiskAdjustedScore(r, minSample).score)
  {
    mean, spread, variance := Mean(r), Spread(r, Mean(r)), Variance(r);
    deviation := FloorRoot(variance * SCALE);
    TruncDivMeaning(Sum(r), |r|);
    SpreadMeaning(r, mean);
    DivBounds(spread, |r| - 1);
    TruncDivMeaning(mean * SCALE, deviation + 1);
  }

  /** Zero or the sign of the mean, and never more than 10000 times the mean. */
  lemma QuotientBounds(mean: int, variance: nat)
    ensures var q := Quotient(mean, variance);
            && Abs(q) <= SCALE * Abs(mean)
            && (q > 0 ==> mean > 0) && (q < 0 ==> mean < 0)
  {
    var d := FloorRoot(variance * SCALE) + 1;
    var m := Abs(mean * SCALE);
    assert m == SCALE * Abs(mean);
    MulOrder(1, d, m + 1);
    DivUpper(m, d, m + 1);
    DivLower(m, d, 0);
  }

  lemma DivAntitone(m: nat, d: int, d': int)
    requires 0 < d <= d'
    ensures m / d' <= m / d
  {
    DivBounds(m, d');
    assert m / d' >= 0 by { DivLower(m, d', 0); }
    MulOrder(d, d', m / d');
    DivLower(m, d, m / d');
  }

  /** For any mean, more variance brings the score closer to zero. */
  lemma VarianceShrinksScore(mean: int, variance: nat, larger: nat)
    requires variance <= larger
    ensures Abs(Quotient(mean, larger)) <= Abs(Quotient(mean, variance))
  {
    FloorRootMonotone(variance * SCALE, larger * SCALE);
    DivAntitone(Abs(mean * SCALE), FloorRoot(variance * SCALE) + 1, FloorRoot(larger * SCALE) + 1);
    DivLower(Abs(mean * SCALE), FloorRoot(variance * SCALE) + 1, 0);
    DivLower(Abs(mean * SCALE), FloorRoot(larger * SCALE) + 1, 0);
  }

  /** More variance never scores higher, for all variances, if and only if the mean is not negative. */
  lemma VarianceNeverHelpsIff(mean: int)
    ensures (forall variance: nat, larger: nat :: variance <= larger ==> Quotient(mean, larger) <= Quotient(mean, variance))
            <==> mean >= 0
  {
    if mean >= 0 {
      forall variance: nat, larger: nat | variance <= larger ensures Quotient(mean, larger) <= Quotient(mean, variance) {
        VarianceShrinksScore(mean, variance, larger);
        QuotientBounds(mean, variance);
        QuotientBounds(mean, larger);
      }
    } else {
      FloorRootUnique(10_000, 100);
      assert Quotient(mean, 0) == SCALE * mean;
      DivUpper(SCALE * -mean, 101, SCALE * -mean);
      assert Quotient(mean, 1) > Quotient(mean, 0);
    }
  }

  lemma {:induction false} SumBounds(r: seq<HistoricReturn>, lo: int, hi: int)
    requires forall i :: 0 <= i < |r| ==> lo <= r[i].bps <= hi
    ensures lo * |r| <= Sum(r) <= hi * |r|
    decreases |r|
  {
    if r != [] {
      var k := |r| - 1;
      SumBounds(r[..k], lo, hi);
      assert lo * |r| == lo * k + lo && hi * |r| == hi * k + hi;
    }
  }

  /** The truncated mean stays between the smallest and the largest outcome. */
  lemma MeanBounds(r: seq<HistoricReturn>, lo: int, hi: int)
    requires r != []
    requires forall i :: 0 <= i < |r| ==> lo <= r[i].bps <= hi
    ensures lo <= Mean(r) <= hi
  {
    SumBounds(r, lo, hi);
    var n, s := |r|, Sum(r);
    if s >= 0 {
      DivLower(s, n, lo);
      MulOrder(hi + 1, hi + 1, n);
      assert hi * n + n == (hi + 1) * n;
      DivUpper(s, n, hi + 1);
    } else {
      assert -lo * n >= -s >= -hi * n;
      DivLower(-s, n, -hi);
      assert -lo * n + n == (-lo + 1) * n;
      DivUpper(-s, n, -lo + 1);
    }
  }

  lemma {:induction false} NoSpread(r: seq<HistoricReturn>, c: int)
    requires forall i :: 0 <= i < |r| ==> r[i].bps == c
    ensures Spread(r, c) == 0
    decreases |r|
  {
    if r != [] {
      NoSpread(r[..|r| - 1], c);
      assert (c - c) * (c - c) == 0;
    }
  }

  /** A provider who always returns c scores the most that mean allows: exactly 10000 * c. */
  lemma SteadyScore(r: seq<HistoricReturn>, minSample: nat, c: int)
    requires |r| >= 2 && |r| >= minSample
    requires forall i :: 0 <= i < |r| ==> r[i].bps == c
    ensures RiskAdjustedScore(r, minSample) == Score(SCALE * c)
  {
    MeanBounds(r, c, c);
    NoSpread(r, c);
    assert FloorRoot(0) == 0;
    assert Variance(r) == 0;
  }
}
