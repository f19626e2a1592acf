/**
 * The arithmetic of the wheel of prompts (pages/WheelGame.tsx): the angular
 * delta of one pointer move, the throw at release, the friction of one
 * animation frame and the choice of the winning slice. JavaScript numbers are
 * modelled as reals, so IEEE rounding is not part of the model.
 */
module WheelPhysics {

  /** Per-frame multiplicative decay of the velocity while coasting. */
  const Friction: real := 0.994
  /** Below this speed (degrees per frame) coasting stops. */
  const StopThreshold: real := 0.05
  /** A release faster than this throws the wheel; a slower one settles at once. */
  const ReleaseThreshold: real := 0.5
  const ThrowMultiplier: real := 2.5
  const MaxSpeed: real := 100.0
  const FullTurn: real := 360.0
  const HalfTurn: real := 180.0

  /** A bound on the frames any coast from a speed of at most MaxSpeed can last. */
  const MaxCoastFrames: nat := 333167

  function Abs(x: real): real
  {
    if x < 0.0 then -x else x
  }

  /** `Math.trunc`. */
  function Trunc(x: real): int
  {
    if x >= 0.0 then x.Floor else -((-x).Floor)
  }

  /** JavaScript's `a % b`: the remainder of truncating division, with the sign of `a`. */
  function JsRemainder(a: real, b: real): real
    requires b != 0.0
  {
    a - b * Trunc(a / b) as real
  }

  /** `Math.round`: halves round up. */
  function JsRound(x: real): int
  {
    (x + 0.5).Floor
  }

  // ---------------------------------------------------------------- outcome

  /** `((rotation % 360) + 360) % 360`. */
  function NormalizedRotation(rotation: real): real
  {
    JsRemainder(JsRemainder(rotation, FullTurn) + FullTurn, FullTurn)
  }

  /** How far clockwise of slice 0's centre the fixed needle points: `(360 - normalized) % 360`. */
  function EffectiveAngle(rotation: real): real
  {
    JsRemainder(FullTurn - NormalizedRotation(rotation), FullTurn)
  }

  /** The double remainder is the floor-based remainder, a value in [0, 360). */
  lemma NormalizedRotationIsFloorMod(rotation: real)
    ensures NormalizedRotation(rotation) == rotation - FullTurn * (rotation / FullTurn).Floor as real
    ensures 0.0 <= NormalizedRotation(rotation) < FullTurn
  {
    var q := rotation / FullTurn;
    var t := JsRemainder(rotation, FullTurn);
    if rotation >= 0.0 {
      assert Trunc(q) == q.Floor;
      assert 0.0 <= t < FullTurn;
      assert Trunc((t + FullTurn) / FullTurn) == 1;
    } else {
      var m := (-q).Floor;
      assert Trunc(q) == -m;
      assert t == rotation + FullTurn * m as real;
      if t == 0.0 {
        assert q == -(m as real);
        assert q.Floor == -m;
        assert Trunc((t + FullTurn) / FullTurn) == 1;
      } else {
        assert -FullTurn < t < 0.0;
        assert q.Floor == -m - 1;
        assert Trunc((t + FullTurn) / FullTurn) == 0;
      }
    }
  }

  lemma EffectiveAngleRange(rotation: real)
    ensures 0.0 <= EffectiveAngle(rotation) < FullTurn
    ensures EffectiveAngle(rotation) == if NormalizedRotation(rotation) == 0.0 then 0.0
                                        else FullTurn - NormalizedRotation(rotation)
  {
    NormalizedRotationIsFloorMod(rotation);
    var n := NormalizedRotation(rotation);
    if n == 0.0 {
      assert Trunc((FullTurn - n) / FullTurn) == 1;
    } else {
      assert Trunc((FullTurn - n) / FullTurn) == 0;
    }
  }

  lemma QuotientBelowCount(e: real, n: nat)
    requires n >= 1 && 0.0 <= e < FullTurn
    ensures 0.0 <= e / (FullTurn / n as real) < n as real
  {
    var w := FullTurn / n as real;
    assert w * n as real == FullTurn;
    assert w > 0.0;
    var x := e / w;
    assert x * w == e;
  }

  /**
   * The winning slice: `Math.round(effectiveAngle / degreesPerSlice) % n`. Both
   * operands of `%` are non-negative, where JavaScript's remainder and Dafny's
   * agree. The index always lies in [0, n), so the `|| options[0]` fallback of
   * the source is never taken.
   */
  function WinningIndex(rotation: real, n: nat): (i: nat)
    requires n >= 1
    ensures i < n
  {
    EffectiveAngleRange(rotation);
    QuotientBelowCount(EffectiveAngle(rotation), n);
    JsRound(EffectiveAngle(rotation) / (FullTurn / n as real)) % n
  }

  /** The winning index depends on the rotation only modulo a full turn. */
  lemma {:induction false} WinningIndexPeriodic(rotation: real, k: int, n: nat)
    requires n >= 1
    ensures WinningIndex(rotation + FullTurn * k as real, n) == WinningIndex(rotation, n)
  {
    var r' := rotation + FullTurn * k as real;
    NormalizedRotationIsFloorMod(rotation);
    NormalizedRotationIsFloorMod(r');
    assert r' / FullTurn == rotation / FullTurn + k as real;
    assert (r' / FullTurn).Floor == (rotation / FullTurn).Floor + k;
    assert NormalizedRotation(r') == NormalizedRotation(rotation);
  }

  /** An unturned wheel selects slice 0. */
  lemma WinningIndexAtRest(n: nat)
    requires n >= 1
    ensures WinningIndex(0.0, n) == 0
  {
    NormalizedRotationIsFloorMod(0.0);
    EffectiveAngleRange(0.0);
  }

  /**
   * The needle points into the winning slice: slice i spans
   * [i*w - w/2, i*w + w/2) clockwise of slice 0's centre, with w = 360/n,
   * and the part of slice 0 just below a full turn wraps around.
   */
  lemma WinningSliceUnderNeedle(rotation: real, n: nat)
    requires n >= 1
    ensures var w := FullTurn / n as real;
            var e := EffectiveAngle(rotation);
            var i := WinningIndex(rotation, n) as real;
            (i * w - w / 2.0 <= e < i * w + w / 2.0) || (i == 0.0 && FullTurn - w / 2.0 <= e)
  {
    var w := FullTurn / n as real;
    var e := EffectiveAngle(rotation);
    EffectiveAngleRange(rotation);
    QuotientBelowCount(e, n);
    var k := JsRound(e / w);
    NearestCentre(e, w, k);
    assert WinningIndex(rotation, n) == k % n;
    SliceOfNearestCentre(e, w, n, k);
  }

  /** Reducing the nearest centre's index modulo `n` folds the centre at a full turn back onto slice 0. */
  lemma SliceOfNearestCentre(e: real, w: real, n: nat, k: int)
    requires n >= 1 && w == FullTurn / n as real && 0.0 <= e < FullTurn
    requires 0.0 <= e / w < n as real && k == JsRound(e / w)
    requires k as real * w - w / 2.0 <= e < k as real * w + w / 2.0
    ensures var i := (k % n) as real;
            (i * w - w / 2.0 <= e < i * w + w / 2.0) || (i == 0.0 && FullTurn - w / 2.0 <= e)
  {
    assert 0 <= k <= n;
    if k == n {
      assert k % n == 0;
      assert n as real * w == FullTurn;
    } else {
      assert k % n == k;
    }
  }

  /** Rounding `e / w` picks the multiple of `w` nearest to `e`, halves going up. */
  lemma NearestCentre(e: real, w: real, k: int)
    requires w > 0.0 && k == JsRound(e / w)
    ensures k as real * w - w / 2.0 <= e < k as real * w + w / 2.0
  {
    var x := e / w;
    assert x * w == e;
    assert k as real - 0.5 <= x < k as real + 0.5;
    MultiplyBounds(k as real - 0.5, x, k as real + 0.5, w);
    assert (k as real - 0.5) * w == k as real * w - w / 2.0;
    assert (k as real + 0.5) * w == k as real * w + w / 2.0;
  }

  lemma MultiplyBounds(lo: real, x: real, hi: real, w: real)
    requires lo <= x < hi && w > 0.0
    ensures lo * w <= x * w < hi * w
  {
  }

  /** Ties between two slices go to the higher index: with 8 slices, -22.5 degrees selects slice 1, +22.5 selects slice 0. */
  lemma WinningIndexTies()
    ensures WinningIndex(-22.5, 8) == 1
    ensures WinningIndex(22.5, 8) == 0
  {
    NormalizedRotationIsFloorMod(-22.5);
    assert (-22.5 / FullTurn).Floor == -1;
    EffectiveAngleRange(-22.5);
    assert EffectiveAngle(-22.5) == 22.5;
    assert JsRound(22.5 / (FullTurn / 8.0)) == 1;
    NormalizedRotationIsFloorMod(22.5);
    assert (22.5 / FullTurn).Floor == 0;
    EffectiveAngleRange(22.5);
    assert EffectiveAngle(22.5) == 337.5;
    assert JsRound(337.5 / (FullTurn / 8.0)) == 8;
  }

  // ---------------------------------------------------------------- gesture

  /** The move delta: the raw angle difference, brought back by one turn when it exceeds half a turn. */
  function MoveDelta(lastAngle: real, currentAngle: real): real
  {
    var raw := currentAngle - lastAngle;
    var d := if raw > HalfTurn then raw - FullTurn else raw;
    if d < -HalfTurn then d + FullTurn else d
  }

  /** The range `getAngle` returns: `atan2` in degrees plus 90. */
  predicate IsPointerAngle(a: real)
  {
    -90.0 < a <= 270.0
  }

  /** For two pointer angles the delta is the raw difference up to one turn, in [-180, 180]. */
  lemma MoveDeltaRange(lastAngle: real, currentAngle: real)
    requires IsPointerAngle(lastAngle) && IsPointerAngle(currentAngle)
    ensures -HalfTurn <= MoveDelta(lastAngle, currentAngle) <= HalfTurn
    ensures var raw := currentAngle - lastAngle;
            var d := MoveDelta(lastAngle, currentAngle);
            d == raw || d == raw - FullTurn || d == raw + FullTurn
  {
  }

  /** The delta is the shortest turn between the two angles: no other equivalent turn is smaller. */
  lemma MoveDeltaIsShortestTurn(lastAngle: real, currentAngle: real, k: int)
    requires IsPointerAngle(lastAngle) && IsPointerAngle(currentAngle)
    ensures Abs(MoveDelta(lastAngle, currentAngle)) <= Abs(currentAngle - lastAngle + FullTurn * k as real)
  {
    MoveDeltaRange(lastAngle, currentAngle);
    var d := MoveDelta(lastAngle, currentAngle);
    var raw := currentAngle - lastAngle;
    var j := if d == raw then k else if d == raw - FullTurn then k + 1 else k - 1;
    assert raw + FullTurn * k as real == d + FullTurn * j as real;
    if j >= 1 {
      assert FullTurn * j as real >= FullTurn;
    } else if j <= -1 {
      assert FullTurn * j as real <= -FullTurn;
    }
  }

  /** Moving back undoes a move: the delta is antisymmetric, also at exactly half a turn. */
  lemma MoveDeltaAntisymmetric(a: real, b: real)
    requires IsPointerAngle(a) && IsPointerAngle(b)
    ensures MoveDelta(b, a) == -MoveDelta(a, b)
  {
  }

  /** Crossing the seam at the left of the wheel gives a small delta, not nearly a full turn. */
  lemma MoveDeltaAcrossSeam()
    ensures MoveDelta(269.0, -89.0) == 2.0
    ensures MoveDelta(-89.0, 269.0) == -2.0
  {
  }

  // ---------------------------------------------------------------- release

  /** The velocity a fast release leaves: the last delta times 2.5, clamped to [-100, 100]. */
  function ThrownVelocity(v: real): (t: real)
    ensures Abs(t) <= MaxSpeed
    ensures (t > 0.0 <==> v > 0.0) && (t < 0.0 <==> v < 0.0)
    ensures Abs(t) <= ThrowMultiplier * Abs(v)
    ensures Abs(t) < MaxSpeed ==> t == ThrowMultiplier * v
  {
    var t := v * ThrowMultiplier;
    if t > MaxSpeed then MaxSpeed
    else if t < -MaxSpeed then -MaxSpeed
    else t
  }

  // ---------------------------------------------------------------- coasting

  /** The velocity after one coasting frame: friction, then the stop rule. */
  function Coasted(v: real): (w: real)
    ensures Abs(w) <= Friction * Abs(v)
    ensures (v >= 0.0 ==> w >= 0.0) && (v <= 0.0 ==> w <= 0.0)
    ensures w == 0.0 || Abs(w) >= StopThreshold
    ensures w == 0.0 <==> Friction * Abs(v) < StopThreshold
  {
    var f := v * Friction;
    if Abs(f) < StopThreshold then 0.0 else f
  }

  /** The velocity after `frames` coasting frames. */
  function CoastVelocity(v: real, frames: nat): real
    decreases frames
  {
    if frames == 0 then v else CoastVelocity(Coasted(v), frames - 1)
  }

  /** The rotation gained over `frames` coasting frames: each frame adds the velocity before friction. */
  function CoastDistance(v: real, frames: nat): real
    decreases frames
  {
    if frames == 0 then 0.0 else v + CoastDistance(Coasted(v), frames - 1)
  }

  lemma {:induction false} CoastOneMore(v: real, frames: nat)
    ensures CoastVelocity(v, frames + 1) == Coasted(CoastVelocity(v, frames))
    ensures CoastDistance(v, frames + 1) == CoastDistance(v, frames) + CoastVelocity(v, frames)
    decreases frames
  {
    if frames > 0 {
      CoastOneMore(Coasted(v), frames - 1);
    }
  }

  /** A coast never reverses: the distance covered has the sign of the initial velocity. */
  lemma {:induction false} CoastKeepsDirection(v: real, frames: nat)
    ensures v >= 0.0 ==> CoastDistance(v, frames) >= 0.0
    ensures v <= 0.0 ==> CoastDistance(v, frames) <= 0.0
    decreases frames
  {
    if frames > 0 {
      CoastKeepsDirection(Coasted(v), frames - 1);
    }
  }

  /**
   * The bound behind termination, after `done` coasting frames: the speed
   * times 1 + (1 - Friction) * done is at most MaxSpeed, and a speed that
   * survived a frame is at least StopThreshold.
   */
  ghost predicate DecayBounded(v: real, done: nat)
  {
    && Abs(v) * (1.0 + (1.0 - Friction) * done as real) <= MaxSpeed
    && (done > 0 ==> v == 0.0 || Abs(v) >= StopThreshold)
  }

  /** One more frame keeps the bound. */
  lemma DecayBoundStep(v: real, done: nat)
    requires DecayBounded(v, done)
    ensures DecayBounded(Coasted(v), done + 1)
  {
    var a := Abs(v);
    var d := 1.0 + (1.0 - Friction) * done as real;
    var w := Abs(Coasted(v));
    assert 1.0 + (1.0 - Friction) * (done + 1) as real == d + 0.006;
    assert d >= 1.0;
    MultiplyMonotone(w, Friction * a, d + 0.006);
    assert Friction * a * (d + 0.006) == a * (Friction * d + Friction * 0.006);
    assert Friction * d + Friction * 0.006 <= d;
    MultiplyMonotone(Friction * d + Friction * 0.006, d, a);
    assert a * d <= MaxSpeed;
    assert w * (d + 0.006) <= Friction * a * (d + 0.006);
    assert (Friction * d + Friction * 0.006) * a <= d * a;
    assert w * (d + 0.006) <= MaxSpeed;
  }

  lemma MultiplyMonotone(x: real, y: real, c: real)
    requires x <= y && c >= 0.0
    ensures x * c <= y * c
  {
  }

  /** Under the bound, a wheel still moving after `done` frames has done fewer than MaxCoastFrames. */
  lemma DecayBoundLimitsFrames(v: real, done: nat)
    requires DecayBounded(v, done) && done > 0 && v != 0.0
    ensures done < MaxCoastFrames
  {
    var d := 1.0 + (1.0 - Friction) * done as real;
    MultiplyMonotone(StopThreshold, Abs(v), d);
  }

  lemma {:induction false} SettlesWithin(v: real, done: nat, left: nat)
    requires DecayBounded(v, done)
    requires done + left == MaxCoastFrames
    ensures CoastVelocity(v, left) == 0.0
    decreases left
  {
    if v != 0.0 && done > 0 {
      DecayBoundLimitsFrames(v, done);
    }
    if left > 0 {
      DecayBoundStep(v, done);
      SettlesWithin(Coasted(v), done + 1, left - 1);
    }
  }

  /** From any speed up to MaxSpeed, coasting comes to rest within MaxCoastFrames frames. */
  lemma CoastSettles(v: real)
    requires Abs(v) <= MaxSpeed
    ensures CoastVelocity(v, MaxCoastFrames) == 0.0
  {
    SettlesWithin(v, 0, MaxCoastFrames);
  }
}
