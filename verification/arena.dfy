/**
 * The simulator's geometry and timing as pure functions over exact reals:
 * the configured constants, the clamp that keeps a movement target inside
 * the arena, headings taken modulo 360, the signed turn delta, and the
 * progress/interpolation used by every animation tick.
 */
module Arena {

  const RobotSize: real := 20.0
  /** Linear speed, in pixels per second. */
  const RobotSpeed: real := 50.0
  /** Angular speed, in degrees per second. */
  const TurnSpeed: real := 90.0
  const MapWidth: real := 600.0
  const MapHeight: real := 500.0

  const StartX: real := 250.0
  const StartY: real := 250.0
  const StartAngle: real := 0.0

  function Min(a: real, b: real): real { if a <= b then a else b }
  function Max(a: real, b: real): real { if a >= b then a else b }

  /** `max(lo, min(hi, v))`: the point of [lo, hi] nearest to v. */
  function Clamp(lo: real, hi: real, v: real): (r: real)
    requires lo <= hi
    ensures lo <= r <= hi
    ensures lo <= v <= hi ==> r == v
    ensures v < lo ==> r == lo
    ensures v > hi ==> r == hi
  {
    Max(lo, Min(hi, v))
  }

  /** The box the robot's centre may occupy: the map shrunk by the robot's size on every side. */
  predicate InArena(x: real, y: real) {
    RobotSize <= x <= MapWidth - RobotSize && RobotSize <= y <= MapHeight - RobotSize
  }

  /** The unclamped end point of a straight move: `(cosA, sinA)` is the heading's unit vector, screen y grows downwards. */
  function RawTarget(x: real, y: real, cosA: real, sinA: real, duration: real, direction: real): (real, real) {
    var dist := RobotSpeed * duration;
    (x + cosA * dist * direction, y - sinA * dist * direction)
  }

  /**
   * The target of a straight move, `direction` being +1 (forward) or -1 (backward):
   * the raw end point clamped coordinate by coordinate into the arena box.
   * Clamping never moves a raw point that is already inside.
   */
  function MoveTarget(x: real, y: real, cosA: real, sinA: real, duration: real, direction: real): (t: (real, real))
    ensures InArena(t.0, t.1)
    ensures var raw := RawTarget(x, y, cosA, sinA, duration, direction);
            InArena(raw.0, raw.1) ==> t == raw
    ensures var raw := RawTarget(x, y, cosA, sinA, duration, direction);
            (raw.0 < RobotSize ==> t.0 == RobotSize) && (raw.0 > MapWidth - RobotSize ==> t.0 == MapWidth - RobotSize)
            && (raw.1 < RobotSize ==> t.1 == RobotSize) && (raw.1 > MapHeight - RobotSize ==> t.1 == MapHeight - RobotSize)
  {
    var raw := RawTarget(x, y, cosA, sinA, duration, direction);
    (Clamp(RobotSize, MapWidth - RobotSize, raw.0), Clamp(RobotSize, MapHeight - RobotSize, raw.1))
  }

  /** Python's `a % 360` on floats: the remainder carries the divisor's sign. */
  function Mod360(a: real): (r: real)
    ensures 0.0 <= r < 360.0
  {
    a - 360.0 * ((a / 360.0).Floor as real)
  }

  /** Two angles are congruent when they differ by a whole number of turns. */
  predicate Congruent(a: real, b: real, k: int) {
    a - b == 360.0 * k as real
  }

  /** `a % 360` is the unique representative of a's class in [0, 360). */
  lemma Mod360Unique(a: real, b: real, k: int)
    requires 0.0 <= b < 360.0 && Congruent(a, b, k)
    ensures Mod360(a) == b
  {
    assert a / 360.0 == k as real + b / 360.0;
    assert (a / 360.0).Floor == k;
  }

  /** `a % 360` differs from a by a whole number of turns. */
  lemma Mod360Congruent(a: real)
    ensures Congruent(a, Mod360(a), (a / 360.0).Floor)
  {
  }

  lemma Mod360OfNormal(a: real)
    requires 0.0 <= a < 360.0
    ensures Mod360(a) == a
  {
    Mod360Unique(a, a, 0);
  }

  /** The heading a turn aims for: `direction` is +1 (left) or -1 (right). */
  function TurnTarget(angle: real, duration: real, direction: real): (t: real)
    ensures 0.0 <= t < 360.0
  {
    Mod360(angle + TurnSpeed * duration * direction)
  }

  /** The target heading is the commanded total rotation added to the heading, taken modulo 360. */
  lemma TurnTargetCongruent(angle: real, duration: real, direction: real)
    ensures Congruent(angle + TurnSpeed * duration * direction, TurnTarget(angle, duration, direction),
                      ((angle + TurnSpeed * duration * direction) / 360.0).Floor)
  {
    Mod360Congruent(angle + TurnSpeed * duration * direction);
  }

  /**
   * The rotation an animated turn performs: `(target - start) % 360`, less a full
   * turn when that exceeds 180. It lies in (-180, 180] and brings `start` onto `target`.
   */
  function TurnDelta(start: real, target: real): (d: real)
    ensures -180.0 < d <= 180.0
  {
    var diff := Mod360(target - start);
    if diff > 180.0 then diff - 360.0 else diff
  }

  /** Adding the delta to the start heading lands, modulo 360, on the target heading. */
  lemma {:induction false} TurnDeltaReachesTarget(start: real, target: real)
    requires 0.0 <= target < 360.0
    ensures Mod360(start + TurnDelta(start, target)) == target
  {
    var k := ((target - start) / 360.0).Floor;
    Mod360Congruent(target - start);
    if Mod360(target - start) > 180.0 {
      Mod360Unique(start + TurnDelta(start, target), target, -k - 1);
    } else {
      Mod360Unique(start + TurnDelta(start, target), target, -k);
    }
  }

  /**
   * The delta is the shortest signed arc: any rotation in (-180, 180] that brings
   * `start` onto `target` modulo 360 is the delta itself.
   */
  lemma {:induction false} TurnDeltaIsShortest(start: real, target: real, other: real, k: int)
    requires 0.0 <= target < 360.0
    requires -180.0 < other <= 180.0 && Congruent(start + other, target, k)
    ensures other == TurnDelta(start, target)
  {
    var d := TurnDelta(start, target);
    var j := ((target - start) / 360.0).Floor;
    Mod360Congruent(target - start);
    var m := if Mod360(target - start) > 180.0 then -j - 1 else -j;
    assert Congruent(start + d, target, m);
    assert other - d == 360.0 * (k - m) as real;
    assert -360.0 < other - d < 360.0;
    assert k - m == 0;
  }

  /**
   * Three seconds of left turn from heading 0 aim at 270 degrees, and the
   * animation gets there by turning 90 degrees to the right.
   */
  lemma ThreeSecondLeftTurn()
    ensures TurnTarget(0.0, 3.0, 1.0) == 270.0
    ensures TurnDelta(0.0, TurnTarget(0.0, 3.0, 1.0)) == -90.0
  {
    Mod360Unique(270.0, 270.0, 0);
  }

  /** Five seconds of left turn from heading 0 are a full turn and a quarter: 90 degrees to the left. */
  lemma FiveSecondLeftTurn()
    ensures TurnTarget(0.0, 5.0, 1.0) == 90.0
    ensures TurnDelta(0.0, TurnTarget(0.0, 5.0, 1.0)) == 90.0
  {
    Mod360Unique(450.0, 90.0, 1);
    Mod360Unique(90.0, 90.0, 0);
  }

  /** Four seconds of left turn from heading 0 are a full turn, which the animation does not show at all. */
  lemma FourSecondLeftTurn()
    ensures TurnTarget(0.0, 4.0, 1.0) == 0.0
    ensures TurnDelta(0.0, TurnTarget(0.0, 4.0, 1.0)) == 0.0
  {
    Mod360Unique(360.0, 0.0, 1);
    Mod360Unique(0.0, 0.0, 0);
  }

  /** The heading part-way through a turn: the start heading plus the fraction `p` of the delta, modulo 360. */
  function TurnHeading(start: real, delta: real, p: real): (a: real)
    ensures 0.0 <= a < 360.0
  {
    Mod360(start + delta * p)
  }

  /**
   * A turn is continuous at both ends: at progress 0 the heading is the start
   * heading, and at progress 1 it is already the target heading that the
   * final snap then sets exactly.
   */
  lemma TurnHeadingEnds(start: real, target: real)
    requires 0.0 <= start < 360.0 && 0.0 <= target < 360.0
    ensures TurnHeading(start, TurnDelta(start, target), 0.0) == start
    ensures TurnHeading(start, TurnDelta(start, target), 1.0) == target
  {
    Mod360OfNormal(start);
    TurnDeltaReachesTarget(start, target);
  }

  /** `min(elapsed / duration, 1.0)`; Python raises `ZeroDivisionError` for a zero duration. */
  function Progress(elapsed: real, duration: real): (p: real)
    requires duration != 0.0
    ensures p <= 1.0
    ensures duration > 0.0 && elapsed >= 0.0 ==> 0.0 <= p
    ensures duration > 0.0 ==> (p == 1.0 <==> elapsed >= duration)
    ensures duration < 0.0 && elapsed >= 0.0 ==> p <= 0.0
  {
    Min(elapsed / duration, 1.0)
  }

  /** `a + (b - a) * p`. */
  function Lerp(a: real, b: real, p: real): (r: real)
    ensures p == 0.0 ==> r == a
    ensures p == 1.0 ==> r == b
  {
    a + (b - a) * p
  }

  /** For progress in [0, 1] the interpolated value lies between its two ends. */
  lemma LerpBetween(a: real, b: real, p: real)
    requires 0.0 <= p <= 1.0
    ensures Min(a, b) <= Lerp(a, b, p) <= Max(a, b)
  {
    var step := (b - a) * p;
    if a <= b {
      ScaleWithin(b - a, p, step);
    } else {
      ScaleWithin(a - b, p, -step);
    }
  }

  /** A fraction `p` in [0, 1] of a non-negative `d` lies between 0 and `d`. */
  lemma ScaleWithin(d: real, p: real, part: real)
    requires 0.0 <= d && 0.0 <= p <= 1.0 && part == d * p
    ensures 0.0 <= part <= d
  {
    assert d * p <= d * 1.0 by {
      assert d * (1.0 - p) >= 0.0;
    }
  }

  /** Interpolating between two points of the arena at progress in [0, 1] stays in the arena. */
  lemma LerpInArena(sx: real, sy: real, tx: real, ty: real, p: real)
    requires InArena(sx, sy) && InArena(tx, ty) && 0.0 <= p <= 1.0
    ensures InArena(Lerp(sx, tx, p), Lerp(sy, ty, p))
  {
    LerpBetween(sx, tx, p);
    LerpBetween(sy, ty, p);
  }
}
