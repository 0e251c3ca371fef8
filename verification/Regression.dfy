/** Least squares over the reals: the line fit behind the heatmap predictor's velocity.

    Products go through `Mul`, so that proofs about sums are linear in its values; the algebra of
    products is in the scalar lemmas at the top. */
module Regression {

  function Mul(a: real, b: real): real {
    a * b
  }

  // ---------------------------------------------------------------- scalar algebra

  lemma MulZero(a: real)
    ensures Mul(0.0, a) == 0.0 == Mul(a, 0.0)
  {
  }

  lemma MulNext(n: real, a: real)
    ensures Mul(n + 1.0, a) == Mul(n, a) + a
  {
  }

  lemma MulAdd(a: real, b: real, c: real)
    ensures Mul(a, b + c) == Mul(a, b) + Mul(a, c)
  {
  }

  lemma SquareSign(a: real)
    ensures Mul(a, a) >= 0.0
    ensures Mul(a, a) == 0.0 ==> a == 0.0
  {
    if a > 0.0 {
      PositiveSquare(a);
    } else if a < 0.0 {
      PositiveSquare(-a);
      assert Mul(-a, -a) == Mul(a, a);
    }
  }

  lemma PositiveSquare(a: real)
    requires a > 0.0
    ensures Mul(a, a) > 0.0
  {
    MulLess(0.0, a, a);
    MulZero(a);
  }

  lemma MulLess(a: real, b: real, d: real)
    requires a < b && d > 0.0
    ensures Mul(a, d) < Mul(b, d)
  {
  }

  lemma SquareOfDifference(a: real, b: real)
    ensures Mul(a - b, a - b) == Mul(a, a) - 2.0 * Mul(a, b) + Mul(b, b)
  {
  }

  lemma SquareOfSum(a: real, b: real)
    ensures Mul(a + b, a + b) == Mul(a, a) + 2.0 * Mul(a, b) + Mul(b, b)
  {
  }

  lemma MulAssoc(a: real, b: real, c: real)
    ensures Mul(a, Mul(b, c)) == Mul(Mul(a, b), c)
  {
  }

  lemma MulComm(a: real, b: real)
    ensures Mul(a, b) == Mul(b, a)
  {
  }

  lemma MulSub(a: real, b: real, c: real)
    ensures Mul(a, b - c) == Mul(a, b) - Mul(a, c)
  {
  }

  lemma MulCancel(a: real, b: real)
    requires Mul(a, b) == 0.0 && a != 0.0
    ensures b == 0.0
  {
  }

  lemma DivMul(a: real, b: real)
    requires b != 0.0
    ensures Mul(a / b, b) == a
  {
  }

  // `root` is the non-negative square root.
  ghost predicate IsRoot(root: real -> real) {
    forall a :: a >= 0.0 ==> root(a) >= 0.0 && Mul(root(a), root(a)) == a
  }

  // ---------------------------------------------------------------- sums

  function Sum(s: seq<real>): real {
    if s == [] then 0.0 else Sum(s[..|s| - 1]) + s[|s| - 1]
  }

  function Dot(s: seq<real>, t: seq<real>): real
    requires |s| == |t|
  {
    if s == [] then 0.0 else Dot(s[..|s| - 1], t[..|t| - 1]) + Mul(s[|s| - 1], t[|t| - 1])
  }

  function Denom(d: seq<real>): real {
    Mul(|d| as real, Dot(d, d)) - Mul(Sum(d), Sum(d))
  }

  function Numer(d: seq<real>, x: seq<real>): real
    requires |d| == |x|
  {
    Mul(|d| as real, Dot(d, x)) - Mul(Sum(d), Sum(x))
  }

  // ---------------------------------------------------------------- the denominator

  // The squared distances from v to every element.
  ghost function SqTo(d: seq<real>, v: real): real {
    if d == [] then 0.0 else SqTo(d[..|d| - 1], v) + Mul(v - d[|d| - 1], v - d[|d| - 1])
  }

  // The squared differences over all pairs.
  ghost function PairSq(d: seq<real>): real {
    if d == [] then 0.0 else PairSq(d[..|d| - 1]) + SqTo(d[..|d| - 1], d[|d| - 1])
  }

  ghost predicate AllEqual(d: seq<real>) {
    forall i, j :: 0 <= i < |d| && 0 <= j < |d| ==> d[i] == d[j]
  }

  lemma {:induction false} SqToSums(d: seq<real>, v: real)
    ensures SqTo(d, v) == Mul(|d| as real, Mul(v, v)) - 2.0 * Mul(v, Sum(d)) + Dot(d, d)
  {
    hide Mul;
    if d != [] {
      var init, e := d[..|d| - 1], d[|d| - 1];
      SqToSums(init, v);
      SquareOfDifference(v, e);
      MulNext(|init| as real, Mul(v, v));
      MulAdd(v, Sum(init), e);
      assert |d| as real == |init| as real + 1.0;
    } else {
      MulZero(Mul(v, v));
      MulZero(v);
    }
  }

  lemma {:induction false} DenomIsPairSq(d: seq<real>)
    ensures Denom(d) == PairSq(d)
  {
    hide Mul;
    if d != [] {
      var init, e := d[..|d| - 1], d[|d| - 1];
      var n, s1, s2 := |init| as real, Sum(init), Dot(init, init);
      DenomIsPairSq(init);
      SqToSums(init, e);
      assert |d| as real == n + 1.0;
      MulNext(n, s2 + Mul(e, e));
      MulAdd(n, s2, Mul(e, e));
      SquareOfSum(s1, e);
      MulComm(e, s1);
    } else {
      MulZero(0.0);
    }
  }

  lemma {:induction false} SqToZero(d: seq<real>, v: real)
    ensures SqTo(d, v) >= 0.0
    ensures SqTo(d, v) == 0.0 <==> forall i :: 0 <= i < |d| ==> d[i] == v
  {
    hide Mul;
    if d != [] {
      SqToZero(d[..|d| - 1], v);
      SquareSign(v - d[|d| - 1]);
      MulZero(0.0);
      assert forall i :: 0 <= i < |d| - 1 ==> d[i] == d[..|d| - 1][i];
    }
  }

  lemma {:induction false} PairSqZero(d: seq<real>)
    ensures PairSq(d) >= 0.0
    ensures PairSq(d) == 0.0 <==> AllEqual(d)
  {
    if d != [] {
      var init := d[..|d| - 1];
      PairSqZero(init);
      SqToZero(init, d[|d| - 1]);
      assert forall i :: 0 <= i < |init| ==> d[i] == init[i];
    }
  }

  /** The denominator is never negative, and zero exactly when all stamps are equal. */
  lemma DenomZeroIffAllEqual(d: seq<real>)
    ensures Denom(d) >= 0.0
    ensures Denom(d) == 0.0 <==> AllEqual(d)
  {
    DenomIsPairSq(d);
    PairSqZero(d);
  }

  // ---------------------------------------------------------------- residuals

  // The squared residual of the line a + b * d over the points (d[i], x[i]).
  ghost function Residual(d: seq<real>, x: seq<real>, a: real, b: real): real
    requires |d| == |x|
  {
    if d == [] then 0.0
    else
      var r := x[|x| - 1] - a - Mul(b, d[|d| - 1]);
      Residual(d[..|d| - 1], x[..|x| - 1], a, b) + Mul(r, r)
  }

  // The sum of squares of p + q * d.
  ghost function Quad(d: seq<real>, p: real, q: real): real {
    if d == [] then 0.0
    else
      var v := p + Mul(q, d[|d| - 1]);
      Quad(d[..|d| - 1], p, q) + Mul(v, v)
  }

  // The two error sums that the normal equations make zero.
  ghost function Err0(d: seq<real>, x: seq<real>, a: real, b: real): real
    requires |d| == |x|
  {
    Sum(x) - Mul(|d| as real, a) - Mul(b, Sum(d))
  }

  ghost function Err1(d: seq<real>, x: seq<real>, a: real, b: real): real
    requires |d| == |x|
  {
    Dot(d, x) - Mul(a, Sum(d)) - Mul(b, Dot(d, d))
  }

  lemma ErrStep(d: seq<real>, x: seq<real>, a: real, b: real)
    requires |d| == |x| > 0
    ensures var e, y := d[|d| - 1], x[|x| - 1];
            var r := y - a - Mul(b, e);
            && Err0(d, x, a, b) == Err0(d[..|d| - 1], x[..|x| - 1], a, b) + r
            && Err1(d, x, a, b) == Err1(d[..|d| - 1], x[..|x| - 1], a, b) + Mul(e, r)
  {
    hide Mul;
    var e, y := d[|d| - 1], x[|x| - 1];
    var d', x' := d[..|d| - 1], x[..|x| - 1];
    assert |d| as real == |d'| as real + 1.0;
    MulNext(|d'| as real, a);
    MulAdd(b, Sum(d'), e);
    MulAdd(a, Sum(d'), e);
    MulAdd(b, Dot(d', d'), Mul(e, e));
    MulSub(e, y - a, Mul(b, e));
    MulSub(e, y, a);
    MulComm(a, e);
    SwapInner(b, e);
  }

  lemma SwapInner(b: real, e: real)
    ensures Mul(e, Mul(b, e)) == Mul(b, Mul(e, e))
  {
  }

  lemma ShiftStep(p: real, q: real, e: real, r: real, v: real, e0: real, e1: real)
    requires v == p + Mul(q, e)
    ensures Mul(r - v, r - v) - 2.0 * Mul(p, e0) - 2.0 * Mul(q, e1)
            == Mul(r, r) - 2.0 * Mul(p, e0 + r) - 2.0 * Mul(q, e1 + Mul(e, r)) + Mul(v, v)
  {
  }

  // Moving the line by (p, q) changes the residual by the two error sums and a square.
  lemma {:induction false} ResidualShift(d: seq<real>, x: seq<real>, a: real, b: real, p: real, q: real)
    requires |d| == |x|
    ensures Residual(d, x, a + p, b + q)
            == Residual(d, x, a, b) - 2.0 * Mul(p, Err0(d, x, a, b)) - 2.0 * Mul(q, Err1(d, x, a, b)) + Quad(d, p, q)
  {
    hide Mul, Err0, Err1;
    if d != [] {
      var e, y := d[|d| - 1], x[|x| - 1];
      var d', x' := d[..|d| - 1], x[..|x| - 1];
      var r, v := y - a - Mul(b, e), p + Mul(q, e);
      ResidualShift(d', x', a, b, p, q);
      ErrStep(d, x, a, b);
      MulAdd(e, b, q);
      MulComm(e, b + q);
      MulComm(e, b);
      MulComm(e, q);
      assert y - (a + p) - Mul(b + q, e) == r - v;
      ShiftStep(p, q, e, r, v, Err0(d', x', a, b), Err1(d', x', a, b));
    } else {
      NoErrors(d, x, a, b);
      MulZero(p);
      MulZero(q);
    }
  }

  lemma NoErrors(d: seq<real>, x: seq<real>, a: real, b: real)
    requires d == [] && x == []
    ensures Err0(d, x, a, b) == 0.0 && Err1(d, x, a, b) == 0.0
  {
  }

  lemma {:induction false} QuadZero(d: seq<real>, p: real, q: real)
    ensures Quad(d, p, q) >= 0.0
    ensures Quad(d, p, q) == 0.0 ==> forall i :: 0 <= i < |d| ==> p + Mul(q, d[i]) == 0.0
  {
    hide Mul;
    if d != [] {
      QuadZero(d[..|d| - 1], p, q);
      SquareSign(p + Mul(q, d[|d| - 1]));
      assert forall i :: 0 <= i < |d| - 1 ==> d[i] == d[..|d| - 1][i];
    }
  }

  function Slope(d: seq<real>, x: seq<real>): real
    requires |d| == |x| && Denom(d) != 0.0
  {
    Numer(d, x) / Denom(d)
  }

  function Intercept(d: seq<real>, x: seq<real>): real
    requires |d| == |x| > 0 && Denom(d) != 0.0
  {
    (Sum(x) - Mul(Slope(d, x), Sum(d))) / |d| as real
  }

  lemma NormalAlgebra(n: real, s1: real, s2: real, sx: real, sdx: real, a: real, b: real)
    requires n > 0.0 && Mul(b, Mul(n, s2) - Mul(s1, s1)) == Mul(n, sdx) - Mul(s1, sx) && Mul(a, n) == sx - Mul(b, s1)
    ensures sx - Mul(n, a) - Mul(b, s1) == 0.0
    ensures sdx - Mul(a, s1) - Mul(b, s2) == 0.0
  {
  }

  // The fitted line satisfies both normal equations.
  lemma NormalEquations(d: seq<real>, x: seq<real>)
    requires |d| == |x| > 0 && Denom(d) != 0.0
    ensures Err0(d, x, Intercept(d, x), Slope(d, x)) == 0.0
    ensures Err1(d, x, Intercept(d, x), Slope(d, x)) == 0.0
  {
    hide Mul, Sum, Dot;
    var b := Slope(d, x);
    DivMul(Numer(d, x), Denom(d));
    DivMul(Sum(x) - Mul(b, Sum(d)), |d| as real);
    NormalAlgebra(|d| as real, Sum(d), Dot(d, d), Sum(x), Dot(d, x), Intercept(d, x), b);
  }

  /** The fitted line has the least squared residual of all lines, and is the only one that has it. */
  lemma LeastSquares(d: seq<real>, x: seq<real>, a: real, b: real)
    requires |d| == |x| > 0 && Denom(d) != 0.0
    ensures Residual(d, x, Intercept(d, x), Slope(d, x)) <= Residual(d, x, a, b)
    ensures Residual(d, x, Intercept(d, x), Slope(d, x)) == Residual(d, x, a, b) ==> b == Slope(d, x) && a == Intercept(d, x)
  {
    hide Mul, Residual, Slope, Intercept, Err0, Err1, Quad, Denom;
    var a0, b0 := Intercept(d, x), Slope(d, x);
    NormalEquations(d, x);
    ResidualShift(d, x, a0, b0, a - a0, b - b0);
    QuadZero(d, a - a0, b - b0);
    MulZero(a - a0);
    MulZero(b - b0);
    assert a0 + (a - a0) == a && b0 + (b - b0) == b;
    if Quad(d, a - a0, b - b0) == 0.0 {
      TwoRoots(d, a - a0, b - b0);
    }
  }

  // A line that vanishes at two different places is zero.
  lemma TwoRoots(d: seq<real>, p: real, q: real)
    requires |d| > 0 && Denom(d) != 0.0 && forall i :: 0 <= i < |d| ==> p + Mul(q, d[i]) == 0.0
    ensures p == 0.0 && q == 0.0
  {
    hide Mul, Denom;
    DenomZeroIffAllEqual(d);
    var i, j :| 0 <= i < |d| && 0 <= j < |d| && d[i] != d[j];
    MulSub(q, d[i], d[j]);
    MulComm(q, d[i] - d[j]);
    MulCancel(d[i] - d[j], q);
    MulZero(d[i]);
  }

  lemma {:induction false} ExactLine(d: seq<real>, x: seq<real>, a: real, b: real)
    requires |d| == |x| && forall i :: 0 <= i < |d| ==> x[i] == a + Mul(b, d[i])
    ensures Residual(d, x, a, b) == 0.0
  {
    hide Mul;
    if d != [] {
      ExactLine(d[..|d| - 1], x[..|x| - 1], a, b);
      MulZero(0.0);
    }
  }

  lemma {:induction false} ResidualNonNegative(d: seq<real>, x: seq<real>, a: real, b: real)
    requires |d| == |x|
    ensures Residual(d, x, a, b) >= 0.0
  {
    hide Mul;
    if d != [] {
      ResidualNonNegative(d[..|d| - 1], x[..|x| - 1], a, b);
      SquareSign(x[|x| - 1] - a - Mul(b, d[|d| - 1]));
    }
  }

  /** Points on a line give back that line's slope. */
  lemma SlopeOfLine(d: seq<real>, x: seq<real>, a: real, b: real)
    requires |d| == |x| > 0 && Denom(d) != 0.0 && forall i :: 0 <= i < |d| ==> x[i] == a + Mul(b, d[i])
    ensures Slope(d, x) == b
  {
    hide Mul, Slope, Intercept, Denom, Residual;
    ExactLine(d, x, a, b);
    LeastSquares(d, x, a, b);
    ResidualNonNegative(d, x, Intercept(d, x), Slope(d, x));
  }
}
