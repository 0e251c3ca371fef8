/** `HeatmapPredictorNode`: one track's observation window and its velocity estimate. */
module HeatmapPredictor {
  import opened Regression

  datatype Observation = Observation(x: real, y: real, stamp: real)

  const MIN_DENOM := 0.000000001
  const MAX_SPEED := 2.0

  // Stamps relative to the first observation.
  function Offsets(h: seq<Observation>): (d: seq<real>)
    ensures |d| == |h|
  {
    seq(|h|, i requires 0 <= i < |h| => h[i].stamp - h[0].stamp)
  }

  function Xs(h: seq<Observation>): (x: seq<real>)
    ensures |x| == |h|
  {
    seq(|h|, i requires 0 <= i < |h| => h[i].x)
  }

  function Ys(h: seq<Observation>): (y: seq<real>)
    ensures |y| == |h|
  {
    seq(|h|, i requires 0 <= i < |h| => h[i].y)
  }

  function NormSq(vx: real, vy: real): real {
    Mul(vx, vx) + Mul(vy, vy)
  }

  // (vx, vy) is (ux, uy) scaled down to the speed limit, if it is over it.
  ghost predicate Clamped(ux: real, uy: real, vx: real, vy: real) {
    if NormSq(ux, uy) <= MAX_SPEED * MAX_SPEED
    then vx == ux && vy == uy
    else NormSq(vx, vy) == MAX_SPEED * MAX_SPEED && exists k :: 0.0 < k < 1.0 && vx == Mul(ux, k) && vy == Mul(uy, k)
  }

  /** The velocity the code estimates for a history. */
  ghost predicate Estimated(h: seq<Observation>, vx: real, vy: real)
    requires h != []
  {
    var d := Offsets(h);
    if Denom(d) < MIN_DENOM
    then vx == 0.0 && vy == 0.0
    else Clamped(Slope(d, Xs(h)), Slope(d, Ys(h)), vx, vy)
  }

  // Observations from stamp `cutoff` on, the older ones at the front dropped.
  function Trimmed(h: seq<Observation>, cutoff: real): seq<Observation> {
    if h == [] || !(h[0].stamp < cutoff) then h else Trimmed(h[1..], cutoff)
  }

  // The speed limit.
  method Clamp(ux: real, uy: real, root: real -> real) returns (vx: real, vy: real)
    requires IsRoot(root)
    ensures Clamped(ux, uy, vx, vy)
  {
    NormNonNegative(ux, uy);
    var speed := root(NormSq(ux, uy));
    SpeedLimit(speed, NormSq(ux, uy));
    vx, vy := ux, uy;
    hide Mul, NormSq;
    if speed > MAX_SPEED {
      var scale := MAX_SPEED / speed;
      ScaleDown(ux, uy, speed, scale);
      vx, vy := Mul(ux, scale), Mul(uy, scale);
    }
  }

  lemma NormNonNegative(vx: real, vy: real)
    ensures NormSq(vx, vy) >= 0.0
  {
  }

  // Comparing the speed with the limit is comparing the squares.
  lemma SpeedLimit(speed: real, norm: real)
    requires speed >= 0.0 && Mul(speed, speed) == norm
    ensures speed <= MAX_SPEED <==> norm <= MAX_SPEED * MAX_SPEED
  {
    LimitSquare();
    MulComm(speed, MAX_SPEED);
    hide Mul;
    if speed > MAX_SPEED {
      MulLess(MAX_SPEED, speed, speed);
      MulLess(MAX_SPEED, speed, MAX_SPEED);
    } else if 0.0 < speed < MAX_SPEED {
      MulLess(speed, MAX_SPEED, speed);
      MulLess(speed, MAX_SPEED, MAX_SPEED);
    } else if speed == 0.0 {
      MulZero(0.0);
    }
  }

  lemma ScaleDown(ux: real, uy: real, speed: real, k: real)
    requires speed > MAX_SPEED && Mul(speed, speed) == NormSq(ux, uy) && k == MAX_SPEED / speed
    ensures 0.0 < k < 1.0 && NormSq(Mul(ux, k), Mul(uy, k)) == MAX_SPEED * MAX_SPEED
  {
  }

  lemma LimitSquare()
    ensures Mul(MAX_SPEED, MAX_SPEED) == MAX_SPEED * MAX_SPEED
  {
  }

  /** The estimate never exceeds the walking speed limit. */
  lemma NeverTooFast(h: seq<Observation>, vx: real, vy: real)
    requires h != [] && Estimated(h, vx, vy)
    ensures Mul(vx, vx) + Mul(vy, vy) <= 4.0
  {
  }

  // The history of an obstacle moving with constant velocity.
  ghost predicate Uniform(h: seq<Observation>, px: real, py: real, ux: real, uy: real)
    requires h != []
  {
    forall i :: 0 <= i < |h| ==>
                  && h[i].x == px + Mul(ux, h[i].stamp - h[0].stamp)
                  && h[i].y == py + Mul(uy, h[i].stamp - h[0].stamp)
  }

  lemma UniformSlopes(h: seq<Observation>, px: real, py: real, ux: real, uy: real)
    requires h != [] && Uniform(h, px, py, ux, uy) && Denom(Offsets(h)) >= MIN_DENOM
    ensures Slope(Offsets(h), Xs(h)) == ux && Slope(Offsets(h), Ys(h)) == uy
  {
    hide Mul, Slope, Denom;
    SlopeOfLine(Offsets(h), Xs(h), px, ux);
    SlopeOfLine(Offsets(h), Ys(h), py, uy);
  }

  /** Uniform motion is recovered exactly when the obstacle stands still, or keeps to the speed limit while
      the denominator reaches its threshold; below it the code reports no velocity. */
  lemma UniformMotionRecovered(h: seq<Observation>, px: real, py: real, ux: real, uy: real, vx: real, vy: real)
    requires h != [] && Uniform(h, px, py, ux, uy) && Estimated(h, vx, vy)
    ensures vx == ux && vy == uy <==>
              || (Denom(Offsets(h)) >= 0.000000001 && Mul(ux, ux) + Mul(uy, uy) <= 4.0)
              || (ux == 0.0 && uy == 0.0)
  {
    hide Mul, Slope, Denom, Clamped, Uniform;
    ClampedKeeps(ux, uy, vx, vy);
    assert MAX_SPEED * MAX_SPEED == 4.0 && NormSq(ux, uy) == Mul(ux, ux) + Mul(uy, uy);
    hide NormSq;
    if Denom(Offsets(h)) >= MIN_DENOM {
      UniformSlopes(h, px, py, ux, uy);
    }
  }

  /** Uniform motion over the limit comes out at the limit, in its own direction. */
  lemma FastMotionKeepsDirection(h: seq<Observation>, px: real, py: real, ux: real, uy: real, vx: real, vy: real)
    requires h != [] && Uniform(h, px, py, ux, uy) && Estimated(h, vx, vy)
    requires Denom(Offsets(h)) >= 0.000000001 && Mul(ux, ux) + Mul(uy, uy) > 4.0
    ensures Mul(vx, vx) + Mul(vy, vy) == 4.0
    ensures Mul(vx, uy) == Mul(vy, ux) && Mul(vx, ux) + Mul(vy, uy) > 0.0
  {
    UniformSlopes(h, px, py, ux, uy);
    assert NormSq(ux, uy) == Mul(ux, ux) + Mul(uy, uy);
    var k :| 0.0 < k < 1.0 && vx == Mul(ux, k) && vy == Mul(uy, k);
    SameDirection(ux, uy, k);
    hide Mul, Slope, Denom, Uniform;
  }

  lemma SameDirection(ux: real, uy: real, k: real)
    requires k > 0.0 && Mul(ux, ux) + Mul(uy, uy) > 4.0
    ensures Mul(Mul(ux, k), uy) == Mul(Mul(uy, k), ux)
    ensures Mul(Mul(ux, k), ux) + Mul(Mul(uy, k), uy) > 0.0
  {
    assert Mul(Mul(ux, k), ux) + Mul(Mul(uy, k), uy) == Mul(Mul(ux, ux) + Mul(uy, uy), k);
    MulLess(0.0, Mul(ux, ux) + Mul(uy, uy), k);
    MulZero(k);
  }

  // The speed limit changes exactly the velocities over it.
  lemma ClampedKeeps(ux: real, uy: real, vx: real, vy: real)
    ensures NormSq(0.0, 0.0) <= MAX_SPEED * MAX_SPEED
    ensures Clamped(ux, uy, vx, vy) ==> (vx == ux && vy == uy <==> NormSq(ux, uy) <= MAX_SPEED * MAX_SPEED)
  {
    hide Mul;
    MulZero(0.0);
  }

  /** Below it genuine motion is lost: two sightings of an obstacle that moves at 1 m/s, taken less than
      about 30 microseconds apart, give no velocity. */
  lemma FastSightings(t: real, vx: real, vy: real)
    requires Mul(t, t) < 0.000000001
    ensures var h := [Observation(0.0, 0.0, 0.0), Observation(t, 0.0, t)];
            Uniform(h, 0.0, 0.0, 1.0, 0.0) && (Estimated(h, vx, vy) ==> vx == 0.0 && vy == 0.0)
  {
    var h := [Observation(0.0, 0.0, 0.0), Observation(t, 0.0, t)];
    var d := Offsets(h);
    assert d == [0.0, t];
    TwoOffsets(t);
    hide Denom, Clamped;
  }

  lemma TwoOffsets(t: real)
    ensures Denom([0.0, t]) == Mul(t, t)
  {
    var d := [0.0, t];
    assert d[..1] == [0.0] && d[..1][..0] == [];
    assert Sum(d[..1]) == 0.0 && Sum(d) == t;
    assert Dot(d[..1], d[..1]) == Mul(0.0, 0.0) && Dot(d, d) == Mul(t, t);
  }

  // Some observation older than `cutoff` stands behind a fresh one.
  ghost predicate OldBehindFresh(h: seq<Observation>, cutoff: real) {
    exists i, j :: 0 <= i < j < |h| && h[i].stamp >= cutoff && h[j].stamp < cutoff
  }

  /** Trimming keeps exactly the observations inside the window unless an old one stands behind a fresh
      one; with the stamps in order none does. */
  lemma {:induction false} TrimKeepsWindow(h: seq<Observation>, cutoff: real)
    ensures (forall o :: o in Trimmed(h, cutoff) <==> o in h && o.stamp >= cutoff) <==> !OldBehindFresh(h, cutoff)
    ensures (forall i, j :: 0 <= i < j < |h| ==> h[i].stamp <= h[j].stamp) ==> !OldBehindFresh(h, cutoff)
  {
    if h != [] && h[0].stamp < cutoff {
      assert h == [h[0]] + h[1..];
      TrimKeepsWindow(h[1..], cutoff);
      OldBehindTail(h, cutoff);
    } else if h != [] && exists j :: 0 < j < |h| && h[j].stamp < cutoff {
      var j :| 0 < j < |h| && h[j].stamp < cutoff;
      assert h[j] in Trimmed(h, cutoff) && OldBehindFresh(h, cutoff);
    }
  }

  /** Two observations out of order: the older one is outside the window and stays. */
  lemma TrimStops(newer: Observation, older: Observation, cutoff: real)
    requires older.stamp < cutoff <= newer.stamp
    ensures Trimmed([newer, older], cutoff) == [newer, older] && OldBehindFresh([newer, older], cutoff)
  {
    assert [newer, older][0].stamp >= cutoff && [newer, older][1].stamp < cutoff;
  }

  lemma OldBehindTail(h: seq<Observation>, cutoff: real)
    requires h != [] && h[0].stamp < cutoff
    ensures OldBehindFresh(h, cutoff) <==> OldBehindFresh(h[1..], cutoff)
  {
    if OldBehindFresh(h, cutoff) {
      var i, j :| 0 <= i < j < |h| && h[i].stamp >= cutoff && h[j].stamp < cutoff;
      assert h[1..][i - 1] == h[i] && h[1..][j - 1] == h[j];
    }
  }

  // ---------------------------------------------------------------- the track

  class TrackedObstacle {
    var history: seq<Observation>
    var velocityX: real
    var velocityY: real
    var lastSeen: real

    constructor ()
      ensures history == [] && velocityX == 0.0 && velocityY == 0.0
    {
      history, velocityX, velocityY, lastSeen := [], 0.0, 0.0, 0.0;
    }

    // With a negative window even the new observation is trimmed away; a threshold of zero would then
    // read the front of an empty history.
    method UpdateTrack(x: real, y: real, stamp: real, window: real, minObservations: int, root: real -> real)
      requires IsRoot(root) && (window >= 0.0 || minObservations >= 1)
      modifies this
      ensures history == Trimmed(old(history) + [Observation(x, y, stamp)], stamp - window) && lastSeen == stamp
      ensures window >= 0.0 ==> history != [] && history[|history| - 1] == Observation(x, y, stamp)
      ensures if |history| >= minObservations then Estimated(history, velocityX, velocityY)
              else velocityX == old(velocityX) && velocityY == old(velocityY)
    {
      history := history + [Observation(x, y, stamp)];
      lastSeen := stamp;
      var cutoff := stamp - window;
      while history != [] && history[0].stamp < cutoff
        invariant Trimmed(history, cutoff) == Trimmed(old(history) + [Observation(x, y, stamp)], cutoff)
        invariant if history == [] then window < 0.0 else history[|history| - 1] == Observation(x, y, stamp)
        invariant lastSeen == stamp && velocityX == old(velocityX) && velocityY == old(velocityY)
        decreases |history|
      {
        history := history[1..];
      }
      if |history| >= minObservations {
        EstimateVelocity(root);
      }
    }

    method EstimateVelocity(root: real -> real)
      requires history != [] && IsRoot(root)
      modifies this`velocityX, this`velocityY
      ensures Estimated(history, velocityX, velocityY)
    {
      var sumDt, sumDt2, sumX, sumY, sumDtX, sumDtY := Accumulate();
      ghost var d := Offsets(history);
      DenomZeroIffAllEqual(d);
      hide Mul, Sum, Dot, Clamped, Offsets, Xs, Ys, AllEqual;
      var n := |history| as real;
      var denom := Mul(n, sumDt2) - Mul(sumDt, sumDt);
      assert denom == Denom(d);
      var magnitude := if denom < 0.0 then -denom else denom;
      if magnitude < MIN_DENOM {
        velocityX, velocityY := 0.0, 0.0;
        return;
      }
      var vx := (Mul(n, sumDtX) - Mul(sumDt, sumX)) / denom;
      var vy := (Mul(n, sumDtY) - Mul(sumDt, sumY)) / denom;
      velocityX, velocityY := Clamp(vx, vy, root);
    }

    // The loop over the history.
    method Accumulate() returns (sumDt: real, sumDt2: real, sumX: real, sumY: real, sumDtX: real, sumDtY: real)
      requires history != []
      ensures var d := Offsets(history);
              && sumDt == Sum(d) && sumDt2 == Dot(d, d)
              && sumX == Sum(Xs(history)) && sumY == Sum(Ys(history))
              && sumDtX == Dot(d, Xs(history)) && sumDtY == Dot(d, Ys(history))
    {
      hide Mul;
      var t0 := history[0].stamp;
      sumDt, sumDt2, sumX, sumY, sumDtX, sumDtY := 0.0, 0.0, 0.0, 0.0, 0.0, 0.0;
      ghost var d, xs, ys := Offsets(history), Xs(history), Ys(history);
      for k := 0 to |history|
        invariant sumDt == Sum(d[..k]) && sumDt2 == Dot(d[..k], d[..k])
        invariant sumX == Sum(xs[..k]) && sumY == Sum(ys[..k])
        invariant sumDtX == Dot(d[..k], xs[..k]) && sumDtY == Dot(d[..k], ys[..k])
      {
        var obs := history[k];
        var dt := obs.stamp - t0;
        assert d[..k + 1][..k] == d[..k] && xs[..k + 1][..k] == xs[..k] && ys[..k + 1][..k] == ys[..k];
        sumDt := sumDt + dt;
        sumDt2 := sumDt2 + Mul(dt, dt);
        sumX := sumX + obs.x;
        sumY := sumY + obs.y;
        sumDtX := sumDtX + Mul(dt, obs.x);
        sumDtY := sumDtY + Mul(dt, obs.y);
      }
      assert d[..|d|] == d && xs[..|xs|] == xs && ys[..|ys|] == ys;
    }
  }
}
