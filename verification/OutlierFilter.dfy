/** `PointCloudFilter::removeOutliers`: drops points whose mean neighbour distance is more than
    `factor` standard deviations above average. At most a 1 / (1 + factor^2) share can go. */
module OutlierFilter {
  import opened Regression

  const SELF_DISTANCE := 0.000001

  // Mean distance to the neighbours, given by their squared distances; near-zero ones are "self".
  ghost function FarSum(sq: seq<real>, root: real -> real): real {
    if sq == [] then 0.0 else FarSum(sq[..|sq| - 1], root) + if root(sq[|sq| - 1]) > SELF_DISTANCE then root(sq[|sq| - 1]) else 0.0
  }

  ghost function FarCount(sq: seq<real>, root: real -> real): nat {
    if sq == [] then 0 else FarCount(sq[..|sq| - 1], root) + if root(sq[|sq| - 1]) > SELF_DISTANCE then 1 else 0
  }

  ghost function MeanDistance(sq: seq<real>, root: real -> real): real {
    if FarCount(sq, root) > 0 then FarSum(sq, root) / FarCount(sq, root) as real else 0.0
  }

  ghost function MeanDistances(knn: seq<seq<real>>, root: real -> real): (d: seq<real>)
    ensures |d| == |knn|
  {
    seq(|knn|, i requires 0 <= i < |knn| => MeanDistance(knn[i], root))
  }

  // The points at or below the threshold, in order.
  function Keep<P>(points: seq<P>, d: seq<real>, threshold: real): seq<P>
    requires |d| == |points|
  {
    if points == [] then []
    else Keep(points[..|points| - 1], d[..|d| - 1], threshold) + if d[|d| - 1] <= threshold then [points[|points| - 1]] else []
  }

  ghost predicate IsThreshold(d: seq<real>, factor: real, threshold: real) {
    exists mean, stddev ::
      && d != []
      && Mul(|d| as real, mean) == Sum(d)
      && stddev >= 0.0 && Mul(|d| as real, Mul(stddev, stddev)) == SqTo(d, mean)
      && threshold == mean + Mul(factor, stddev)
  }

  ghost predicate IsFiltered<P>(points: seq<P>, d: seq<real>, factor: real, kept: seq<P>)
    requires |d| == |points|
  {
    exists threshold :: IsThreshold(d, factor, threshold) && kept == Keep(points, d, threshold)
  }

  // `knn[i]`: squared distances from point i to its nearest neighbours, as the index answers.
  method RemoveOutliers<P>(points: seq<P>, knn: seq<seq<real>>, factor: real, root: real -> real) returns (kept: seq<P>)
    requires |knn| == |points| && IsRoot(root)
    ensures if points == [] then kept == [] else IsFiltered(points, MeanDistances(knn, root), factor, kept)
  {
    if points == [] {
      return [];
    }
    var d := ComputeMeanDistances(knn, root);
    var n := |d| as real;
    var sum := 0.0;
    for i := 0 to |d|
      invariant sum == Sum(d[..i])
    {
      assert d[..i + 1][..i] == d[..i];
      sum := sum + d[i];
    }
    assert d[..|d|] == d;
    var mean := sum / n;
    var variance := SquaredDeviation(d, mean);
    SqToZero(d, mean);
    hide Mul, Sum, SqTo, Keep;
    VarianceSign(variance, n);
    DivMul(sum, n);
    DivMul(variance, n);
    MulComm(n, mean);
    variance := variance / n;
    MulComm(n, variance);
    var stddev := root(variance);
    var threshold := mean + Mul(factor, stddev);
    assert IsThreshold(d, factor, threshold);
    kept := FilterPoints(points, d, threshold);
  }

  lemma VarianceSign(v: real, n: real)
    requires v >= 0.0 && n > 0.0
    ensures v / n >= 0.0
  {
  }

  method ComputeMeanDistances(knn: seq<seq<real>>, root: real -> real) returns (d: seq<real>)
    ensures d == MeanDistances(knn, root)
  {
    d := [];
    for i := 0 to |knn|
      invariant |d| == i && forall j :: 0 <= j < i ==> d[j] == MeanDistance(knn[j], root)
    {
      var sum, valid := 0.0, 0;
      var neighbors := knn[i];
      for k := 0 to |neighbors|
        invariant sum == FarSum(neighbors[..k], root) && valid == FarCount(neighbors[..k], root)
      {
        assert neighbors[..k + 1][..k] == neighbors[..k];
        var dist := root(neighbors[k]);
        if dist > SELF_DISTANCE {
          sum, valid := sum + dist, valid + 1;
        }
      }
      assert neighbors[..|neighbors|] == neighbors;
      d := d + [if valid > 0 then sum / valid as real else 0.0];
    }
  }

  method SquaredDeviation(d: seq<real>, mean: real) returns (variance: real)
    ensures variance == SqTo(d, mean)
  {
    hide Mul;
    variance := 0.0;
    for i := 0 to |d|
      invariant variance == SqTo(d[..i], mean)
    {
      assert d[..i + 1][..i] == d[..i];
      SquareSwap(d[i], mean);
      variance := variance + Mul(d[i] - mean, d[i] - mean);
    }
    assert d[..|d|] == d;
  }

  lemma SquareSwap(a: real, b: real)
    ensures Mul(a - b, a - b) == Mul(b - a, b - a)
  {
  }

  method FilterPoints<P>(points: seq<P>, d: seq<real>, threshold: real) returns (kept: seq<P>)
    requires |d| == |points|
    ensures kept == Keep(points, d, threshold)
  {
    kept := [];
    for i := 0 to |points|
      invariant kept == Keep(points[..i], d[..i], threshold)
    {
      assert points[..i + 1][..i] == points[..i] && d[..i + 1][..i] == d[..i];
      if d[i] <= threshold {
        kept := kept + [points[i]];
      }
    }
    assert points[..|points|] == points && d[..|d|] == d;
  }

  // ---------------------------------------------------------------- what mean and threshold are

  // The distances that count: those beyond a micrometre, as the points see them.
  ghost function Far(sq: seq<real>, root: real -> real): seq<real> {
    if sq == [] then []
    else Far(sq[..|sq| - 1], root) + if root(sq[|sq| - 1]) > 0.000001 then [root(sq[|sq| - 1])] else []
  }

  lemma {:induction false} FarSums(sq: seq<real>, root: real -> real)
    ensures FarSum(sq, root) == Sum(Far(sq, root)) && FarCount(sq, root) == |Far(sq, root)|
  {
    if sq != [] {
      FarSums(sq[..|sq| - 1], root);
      var far := Far(sq[..|sq| - 1], root);
      assert far + [] == far;
      assert (far + [root(sq[|sq| - 1])])[..|far|] == far;
    }
  }

  /** A point's mean distance is the one number from which its true distances to the neighbours, root by root,
      deviate least in the squares; zero without any. */
  lemma MeanIsCentre(sq: seq<real>, root: real -> real, v: real)
    ensures Far(sq, root) == [] ==> MeanDistance(sq, root) == 0.0
    ensures Far(sq, root) != [] ==> SqTo(Far(sq, root), MeanDistance(sq, root)) <= SqTo(Far(sq, root), v)
    ensures Far(sq, root) != [] && SqTo(Far(sq, root), MeanDistance(sq, root)) == SqTo(Far(sq, root), v) ==> v == MeanDistance(sq, root)
  {
    var d, mean := Far(sq, root), MeanDistance(sq, root);
    FarSums(sq, root);
    if d != [] {
      var n := |d| as real;
      DivMul(Sum(d), n);
      MulComm(n, mean);
      ShiftedDeviation(d, mean, mean - v);
      assert mean - (mean - v) == v;
      SquareSign(mean - v);
      hide Sum, SqTo, Far, FarSum, FarCount, MeanDistance;
      CountTimesSquare(n, Mul(mean - v, mean - v));
    }
  }

  lemma CountTimesSquare(n: real, q: real)
    requires n >= 1.0 && q >= 0.0
    ensures Mul(n, q) >= q
  {
  }

  /** Two distances a < b lie one standard deviation from their mean on either side: both points stay exactly
      when the factor is at least one. */
  lemma TwoDistances<P>(p: P, q: P, a: real, b: real, factor: real, kept: seq<P>)
    requires a < b && IsFiltered([p, q], [a, b], factor, kept)
    ensures kept == [p, q] <==> factor >= 1.0
    ensures -1.0 <= factor < 1.0 ==> kept == [p]
  {
    var d, half := [a, b], (b - a) * 0.5;
    var t :| IsThreshold(d, factor, t) && kept == Keep([p, q], d, t);
    var mean, s :|
      && d != []
      && Mul(|d| as real, mean) == Sum(d)
      && s >= 0.0 && Mul(|d| as real, Mul(s, s)) == SqTo(d, mean)
      && t == mean + Mul(factor, s);
    assert d[..1] == [a] && d[..1][..0] == [];
    assert Sum(d[..1]) == a && Sum(d) == a + b;
    assert mean == a + half && mean == b - half;
    assert SqTo(d[..1], mean) == Mul(mean - a, mean - a) && SqTo(d, mean) == Mul(half, half) + Mul(-half, -half);
    SameRoot(s, half);
    assert t == mean + Mul(factor, half);
    KeepTwo(p, q, a, b, t);
    FactorOne(factor, half);
  }

  lemma SameRoot(s: real, half: real)
    requires s >= 0.0 && half > 0.0 && Mul(2.0, Mul(s, s)) == Mul(half, half) + Mul(-half, -half)
    ensures s == half
  {
    assert Mul(s, s) == Mul(half, half);
    if s < half {
      SquareOrder(s, half);
    } else if half < s {
      SquareOrder(half, s);
    }
  }

  lemma SquareOrder(a: real, b: real)
    requires 0.0 <= a < b
    ensures Mul(a, a) < Mul(b, b)
  {
    MulLess(a, b, b);
    MulComm(a, b);
    if a > 0.0 {
      MulLess(a, b, a);
    } else {
      MulZero(b);
    }
  }

  lemma KeepTwo<P>(p: P, q: P, a: real, b: real, t: real)
    ensures Keep([p, q], [a, b], t) == (if a <= t then [p] else []) + (if b <= t then [q] else [])
  {
    assert [p, q][..1] == [p] && [a, b][..1] == [a];
    assert [p][..0] == [] && [a][..0] == [];
    assert Keep([p], [a], t) == if a <= t then [p] else [];
  }

  lemma FactorOne(k: real, half: real)
    requires half > 0.0
    ensures Mul(k, half) >= half <==> k >= 1.0
    ensures Mul(k, half) >= -half <==> k >= -1.0
  {
    MulOne(half);
    MulComm(half, 1.0);
    NegateOne(half);
    if k < 1.0 { MulLess(k, 1.0, half); } else if k > 1.0 { MulLess(1.0, k, half); }
    if k < -1.0 { MulLess(k, -1.0, half); } else if k > -1.0 { MulLess(-1.0, k, half); }
  }

  lemma NegateOne(a: real)
    ensures Mul(-1.0, a) == -a
  {
  }

  // ---------------------------------------------------------------- how many can be removed

  ghost function CountAbove(d: seq<real>, t: real): nat {
    if d == [] then 0 else CountAbove(d[..|d| - 1], t) + if d[|d| - 1] <= t then 0 else 1
  }

  lemma {:induction false} KeptCount<P>(points: seq<P>, d: seq<real>, t: real)
    requires |d| == |points|
    ensures |Keep(points, d, t)| + CountAbove(d, t) == |points|
  {
    if points != [] {
      KeptCount(points[..|points| - 1], d[..|d| - 1], t);
    }
  }

  // The indices at or below the threshold, in order.
  ghost function KeptAt(d: seq<real>, t: real): seq<nat> {
    if d == [] then [] else KeptAt(d[..|d| - 1], t) + if d[|d| - 1] <= t then [|d| - 1] else []
  }

  lemma {:induction false} KeptAtMembers(d: seq<real>, t: real)
    ensures forall i: nat :: i in KeptAt(d, t) <==> i < |d| && d[i] <= t
  {
    if d != [] {
      KeptAtMembers(d[..|d| - 1], t);
      assert forall i: nat :: i in KeptAt(d, t) <==> i in KeptAt(d[..|d| - 1], t) || (i == |d| - 1 && d[i] <= t);
    }
  }

  lemma {:induction false} KeptAtAscends(d: seq<real>, t: real)
    ensures forall k :: 0 <= k < |KeptAt(d, t)| ==> KeptAt(d, t)[k] < |d|
    ensures forall k, l :: 0 <= k < l < |KeptAt(d, t)| ==> KeptAt(d, t)[k] < KeptAt(d, t)[l]
  {
    if d != [] {
      KeptAtAscends(d[..|d| - 1], t);
    }
  }

  lemma {:induction false} KeptAtPoints<P>(points: seq<P>, d: seq<real>, t: real)
    requires |d| == |points|
    ensures |KeptAt(d, t)| == |Keep(points, d, t)|
    ensures forall k :: 0 <= k < |KeptAt(d, t)| ==> KeptAt(d, t)[k] < |points| && Keep(points, d, t)[k] == points[KeptAt(d, t)[k]]
  {
    if points != [] {
      KeptAtPoints(points[..|points| - 1], d[..|d| - 1], t);
    }
  }

  /** What is kept is a subsequence, in the original order, of exactly the points at or below the threshold. */
  lemma KeptInOrder<P>(points: seq<P>, d: seq<real>, t: real) returns (at: seq<nat>)
    requires |d| == |points|
    ensures |at| == |Keep(points, d, t)|
    ensures forall k :: 0 <= k < |at| ==> at[k] < |points| && Keep(points, d, t)[k] == points[at[k]]
    ensures forall k, l :: 0 <= k < l < |at| ==> at[k] < at[l]
    ensures forall i: nat :: i < |points| ==> (i in at <==> d[i] <= t)
  {
    hide KeptAt, Keep;
    KeptAtPoints(points, d, t);
    KeptAtAscends(d, t);
    KeptAtMembers(d, t);
    at := KeptAt(d, t);
  }

  // Every value above t contributes at least (t - v)^2 to the squared distances from v.
  lemma {:induction false} AboveContribute(d: seq<real>, v: real, t: real)
    requires t >= v
    ensures SqTo(d, v) >= Mul(CountAbove(d, t) as real, Mul(t - v, t - v))
  {
    hide Mul;
    if d != [] {
      var init, e := d[..|d| - 1], d[|d| - 1];
      var c := CountAbove(init, t);
      AboveContribute(init, v, t);
      SquareSign(v - e);
      if e > t {
        SquareMono(t - v, e - v);
        SquareSwap(e, v);
        MulNext(c as real, Mul(t - v, t - v));
        assert CountAbove(d, t) as real == c as real + 1.0;
      }
    } else {
      MulZero(Mul(t - v, t - v));
    }
  }

  lemma SquareMono(a: real, b: real)
    requires 0.0 <= a < b
    ensures Mul(a, a) <= Mul(b, b)
  {
  }

  // Around the mean, moving the centre by u adds n * u^2.
  lemma ShiftedDeviation(d: seq<real>, mean: real, u: real)
    requires Mul(|d| as real, mean) == Sum(d)
    ensures SqTo(d, mean - u) == SqTo(d, mean) + Mul(|d| as real, Mul(u, u))
  {
    hide Mul;
    var n := |d| as real;
    SqToSums(d, mean);
    SqToSums(d, mean - u);
    SquareOfDifference(mean, u);
    MulSub(n, Mul(mean, mean), 2.0 * Mul(mean, u));
    MulAdd(n, Mul(mean, mean) - 2.0 * Mul(mean, u), Mul(u, u));
    MulSub(Sum(d), mean, u);
    MulComm(Sum(d), mean - u);
    MulComm(Sum(d), mean);
    ShiftCross(n, mean, u, Sum(d));
  }

  lemma ShiftCross(n: real, mean: real, u: real, s1: real)
    requires Mul(n, mean) == s1
    ensures Mul(n, 2.0 * Mul(mean, u)) == 2.0 * Mul(s1, u)
  {
  }

  /** Cantelli's bound on the code's own mean and deviation: with a positive factor, the removed points
      number at most n / (1 + factor^2), so at least one point stays. */
  lemma FewAreRemoved<P>(points: seq<P>, d: seq<real>, factor: real, kept: seq<P>)
    requires |d| == |points| > 0 && factor > 0.0 && IsFiltered(points, d, factor, kept)
    ensures Mul((|points| - |kept|) as real, 1.0 + Mul(factor, factor)) <= |points| as real
    ensures |kept| >= 1
  {
    var t :| IsThreshold(d, factor, t) && kept == Keep(points, d, t);
    KeptCount(points, d, t);
    var mean, s :|
      && d != []
      && Mul(|d| as real, mean) == Sum(d)
      && s >= 0.0 && Mul(|d| as real, Mul(s, s)) == SqTo(d, mean)
      && t == mean + Mul(factor, s);
    var r, n := CountAbove(d, t) as real, |d| as real;
    hide Mul, SqTo, Sum, Keep, CountAbove;
    if s == 0.0 {
      MulZero(factor);
      MulZero(0.0);
      MulZero(n);
      NoDeviation(d, mean);
      MulZero(1.0 + Mul(factor, factor));
    } else {
      var u := s / factor;
      DivMul(s, factor);
      ShiftedDeviation(d, mean, u);
      PositiveFraction(s, factor, u);
      MulNonNegative(factor, s);
      AboveContribute(d, mean - u, t);
      CantelliAlgebra(r, n, factor, s, u, t - (mean - u));
    }
    SquareSign(factor);
    BoundBelow(r, n, factor);
  }

  lemma PositiveFraction(s: real, k: real, u: real)
    requires s > 0.0 && k > 0.0 && Mul(u, k) == s
    ensures u > 0.0
  {
  }

  lemma MulNonNegative(a: real, b: real)
    requires a >= 0.0 && b >= 0.0
    ensures Mul(a, b) >= 0.0
  {
  }

  // All values equal the mean, so none is above it.
  lemma NoDeviation(d: seq<real>, mean: real)
    requires SqTo(d, mean) == 0.0
    ensures CountAbove(d, mean) == 0
  {
    SqToZero(d, mean);
    NoneAbove(d, mean);
  }

  lemma {:induction false} NoneAbove(d: seq<real>, t: real)
    requires forall i :: 0 <= i < |d| ==> d[i] <= t
    ensures CountAbove(d, t) == 0
  {
    if d != [] {
      NoneAbove(d[..|d| - 1], t);
    }
  }

  lemma CantelliAlgebra(r: real, n: real, k: real, s: real, u: real, w: real)
    requires k > 0.0 && u > 0.0 && s == Mul(u, k) && w == Mul(k, s) + u
    requires Mul(r, Mul(w, w)) <= Mul(n, Mul(s, s)) + Mul(n, Mul(u, u))
    ensures Mul(r, 1.0 + Mul(k, k)) <= n
  {
  }

  lemma MulOne(a: real)
    ensures Mul(a, 1.0) == a
  {
  }

  lemma BoundBelow(r: real, n: real, k: real)
    requires r >= 0.0 && n > 0.0 && k > 0.0 && Mul(r, 1.0 + Mul(k, k)) <= n
    ensures r < n
  {
    PositiveSquare(k);
    MulAdd(r, 1.0, Mul(k, k));
    MulOne(r);
    hide Mul;
    if r > 0.0 {
      MulLess(0.0, Mul(k, k), r);
      MulComm(Mul(k, k), r);
      MulZero(r);
    }
  }
}
