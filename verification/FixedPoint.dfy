/** Integer arithmetic as the contracts do it: truncating division and Newton square roots. */
module FixedPoint {

  function Abs(a: int): (r: nat)
    ensures r == a || r == -a
  {
    if a < 0 then -a else a
  }

  function Min(a: int, b: int): int {
    if a < b then a else b
  }

  function Max(a: int, b: int): int {
    if a < b then b else a
  }

  /** Division that rounds toward zero, as the contracts' `/` does. */
  function TruncDiv(a: int, b: int): int
    requires b != 0
  {
    if (a < 0) == (b < 0) then Abs(a) / Abs(b) else -(Abs(a) / Abs(b))
  }

  lemma DivBounds(a: int, b: int)
    requires b > 0
    ensures b * (a / b) <= a < b * (a / b) + b
  {
  }

  lemma MulOrder(u: int, v: int, b: int)
    requires b >= 0
    ensures u <= v ==> u * b <= v * b
  {
    if u <= v {
      assert (v - u) * b >= 0;
    }
  }

  lemma DivLower(a: int, b: int, k: int)
    requires b > 0 && k * b <= a
    ensures k <= a / b
  {
    DivBounds(a, b);
    MulOrder(a / b + 1, k, b);
  }

  lemma DivUpper(a: int, b: int, k: int)
    requires b > 0 && a < k * b
    ensures a / b < k
  {
    DivBounds(a, b);
    MulOrder(k, a / b, b);
  }

  /** q is a / b rounded toward zero, for a positive divisor. */
  ghost predicate Truncated(a: int, b: int, q: int) {
    if a >= 0 then q >= 0 && q * b <= a < q * b + b else q <= 0 && q * b - b < a <= q * b
  }

  /** Truncating division against its definition by multiplication. */
  lemma TruncDivMeaning(a: int, b: int)
    requires b > 0
    ensures Truncated(a, b, TruncDiv(a, b))
  {
    var q := Abs(a) / b;
    DivBounds(Abs(a), b);
    DivLower(Abs(a), b, 0);
    assert (-q) * b == -(b * q) && q * b == b * q;
  }

  lemma DivMonotone(a: int, a': int, b: int)
    requires b > 0 && a <= a'
    ensures a / b <= a' / b
  {
    DivBounds(a, b);
    DivLower(a', b, a / b);
  }

  lemma SquareMonotone(u: int, v: int)
    requires 0 <= u <= v
    ensures u * u <= v * v
  {
    assert v * v - u * u == (v - u) * (v + u);
  }

  lemma SquareReflects(u: int, v: int)
    requires 0 <= u && v * v <= u * u
    ensures v <= u
  {
    if u < v {
      SquareMonotone(u + 1, v);
      assert false;
    }
  }

  /** The largest integer whose square does not exceed n. */
  function FloorRoot(n: nat): (r: nat)
    ensures r * r <= n < (r + 1) * (r + 1)
  {
    if n == 0 then 0
    else
      var r := FloorRoot(n - 1);
      if (r + 1) * (r + 1) <= n then r + 1 else r
  }

  lemma FloorRootUnique(n: nat, r: nat)
    requires r * r <= n < (r + 1) * (r + 1)
    ensures r == FloorRoot(n)
  {
    var s := FloorRoot(n);
    if r < s {
      SquareMonotone(r + 1, s);
    } else if s < r {
      SquareMonotone(s + 1, r);
    }
  }

  lemma FloorRootMonotone(n: nat, m: nat)
    requires n <= m
    ensures FloorRoot(n) <= FloorRoot(m)
  {
    var r, s := FloorRoot(n), FloorRoot(m);
    if s < r {
      SquareMonotone(s + 1, r);
    }
  }

  ghost predicate AtLeastRoot(n: int, x: int) {
    n < (x + 1) * (x + 1)
  }

  lemma SquareOfSum(s: int, t: int)
    ensures (s + t) * (s + t) >= 4 * (s * t)
  {
    var d := s - t;
    assert d * d >= 0;
    assert (s + t) * (s + t) == d * d + 4 * (s * t);
  }

  /** The inequality of arithmetic and geometric means, on integers. */
  lemma MeansInequality(n: int, s: int, t: int, m: int)
    requires 0 <= s + t <= 2 * m && n < s * t
    ensures n < m * m
  {
    SquareMonotone(s + t, 2 * m);
    SquareOfSum(s, t);
    assert (2 * m) * (2 * m) == 4 * (m * m);
  }

  /** A Newton step from any positive guess never lands below the floor root. */
  lemma NewtonStep(n: nat, x: int)
    requires x > 0
    ensures AtLeastRoot(n, (x + n / x) / 2)
  {
    DivBounds(n, x);
    var k := n / x;
    assert x * k + x == x * (k + 1);
    MeansInequality(n, x, k + 1, (x + k) / 2 + 1);
  }

  /** When the step no longer decreases the guess, the guess is the root. */
  lemma NewtonStop(n: nat, x: int)
    requires x > 0 && AtLeastRoot(n, x) && (x + n / x) / 2 >= x
    ensures x == FloorRoot(n)
  {
    DivBounds(n, x);
    MulOrder(x, n / x, x);
    FloorRootUnique(n, x);
  }

  lemma NewtonPositive(n: int, y: int)
    requires n > 0 && y >= 0 && AtLeastRoot(n, y)
    ensures y > 0
  {
  }

  /** Newton's iteration, started above the root, stops exactly at it. */
  method Isqrt(n: int) returns (x: int)
    ensures n <= 0 ==> x == 0
    ensures n > 0 ==> x == FloorRoot(n)
  {
    if n <= 0 {
      return 0;
    }
    x := n;
    var y := (x + 1) / 2;
    assert n / n == 1;
    NewtonStep(n, n);
    assert AtLeastRoot(n, n);
    while y < x
      invariant 0 < x && y == (x + n / x) / 2
      invariant AtLeastRoot(n, x) && AtLeastRoot(n, y)
      decreases x
    {
      NewtonPositive(n, y);
      x := y;
      y := (x + n / x) / 2;
      NewtonStep(n, x);
    }
    NewtonStop(n, x);
  }
}
