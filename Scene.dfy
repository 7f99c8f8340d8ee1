/**
 * Value types shared by the combat pipeline: optional values, vectors,
 * symbolic rotations, lifetimes, and the handful of Unity math helpers the
 * core relies on (RoundToInt, the integer Clamp, Clamp01, Lerp, the
 * approximate Vector3 comparison and Random.Range's range).
 */
module Scene {

  datatype Option<+T> = None | Some(value: T)

  datatype Vec3 = Vec3(x: real, y: real, z: real)
  {
    function Plus(o: Vec3): Vec3 { Vec3(x + o.x, y + o.y, z + o.z) }
    function Times(k: real): Vec3 { Vec3(x * k, y * k, z * k) }
    function SqrMagnitude(): real { x * x + y * y + z * z }
  }

  /** A point of the unit circle, (cos a, sin a); the trigonometry itself is not modelled. */
  datatype Vec2 = Vec2(x: real, z: real)

  const Zero := Vec3(0.0, 0.0, 0.0)
  const Up := Vec3(0.0, 1.0, 0.0)

  /**
   * Rotations are kept symbolic: quaternion arithmetic is not modelled, only
   * how each rotation was composed.
   */
  datatype Rotation =
    | Identity
    | Authored(id: int)                         // a rotation coming from the scene
    | Euler(angles: Vec3)                       // Quaternion.Euler(angles)
    | YawOfLook(yaw: real, forward: Vec3)       // Euler(0, yaw, 0) * LookRotation(forward)
    | Then(first: Rotation, euler: Vec3)        // first * Euler(euler), i.e. Transform.Rotate
    | LookingAt(target: Vec3)                   // Transform.LookAt(target)

  /** The part of a Transform the core reads: position, rotation and forward axis. */
  datatype Pose = Pose(position: Vec3, rotation: Rotation, forward: Vec3)

  /** A float that may be Mathf.Infinity. */
  datatype Lifetime = Finite(seconds: real) | Infinite

  /**
   * Mathf.RoundToInt, which is Math.Round: round to the nearest integer,
   * halves to the even neighbour.
   */
  function RoundToInt(x: real): (r: int)
    ensures (r as real) - 0.5 <= x <= (r as real) + 0.5
    ensures x - (x.Floor as real) < 0.5 ==> r == x.Floor
    ensures x - (x.Floor as real) > 0.5 ==> r == x.Floor + 1
    ensures x == (r as real) + 0.5 || x == (r as real) - 0.5 ==> r % 2 == 0
  {
    var f := x.Floor;
    var frac := x - f as real;
    if frac < 0.5 then f
    else if frac > 0.5 then f + 1
    else if f % 2 == 0 then f else f + 1
  }

  /** Mathf.Clamp on ints: below min gives min, otherwise above max gives max. */
  function ClampInt(value: int, min: int, max: int): (r: int)
    ensures min <= max ==> min <= r <= max
    ensures min <= value <= max ==> r == value
    ensures value < min ==> r == min
    ensures min <= max && value > max ==> r == max
  {
    if value < min then min else if value > max then max else value
  }

  function Clamp01(t: real): (r: real)
    ensures 0.0 <= r <= 1.0
    ensures 0.0 <= t <= 1.0 ==> r == t
  {
    if t < 0.0 then 0.0 else if t > 1.0 then 1.0 else t
  }

  /** Mathf.Lerp, a + (b - a) * Clamp01(t): the interpolation parameter is clamped to [0, 1]. */
  function Lerp(a: real, b: real, t: real): (r: real)
    ensures a >= b ==> b <= r <= a
    ensures a <= b ==> a <= r <= b
    ensures t <= 0.0 ==> r == a
    ensures t >= 1.0 ==> r == b
    ensures 0.0 <= t <= 1.0 ==> r == a + (b - a) * t
  {
    BetweenEnds(a, b, Clamp01(t));
    if t <= 0.0 then a
    else if t >= 1.0 then b
    else a + (b - a) * t
  }

  /** Lerp moves monotonically from a to b as t grows. */
  lemma LerpMonotone(a: real, b: real, t1: real, t2: real)
    requires t1 <= t2
    ensures a <= b ==> Lerp(a, b, t1) <= Lerp(a, b, t2)
    ensures a >= b ==> Lerp(a, b, t1) >= Lerp(a, b, t2)
  {
    ScaleIsMonotone(a, b, Clamp01(t1), Clamp01(t2));
  }

  /** Moving along from a towards b by a growing factor moves in b's direction. */
  lemma ScaleIsMonotone(a: real, b: real, s1: real, s2: real)
    requires s1 <= s2
    ensures a <= b ==> a + (b - a) * s1 <= a + (b - a) * s2
    ensures a >= b ==> a + (b - a) * s1 >= a + (b - a) * s2
  {
    var k, d := b - a, s2 - s1;
    assert k * s2 == k * s1 + k * d;
    if k >= 0.0 {
      assert k * d >= 0.0;
    } else {
      assert (-k) * d >= 0.0;
    }
  }

  /** Moving from a towards b by a factor in [0, 1] stays between a and b. */
  lemma BetweenEnds(a: real, b: real, s: real)
    requires 0.0 <= s <= 1.0
    ensures a <= b ==> a <= a + (b - a) * s <= b
    ensures a >= b ==> b <= a + (b - a) * s <= a
  {
    ScaleIsMonotone(a, b, 0.0, s);
    ScaleIsMonotone(a, b, s, 1.0);
  }

  /** Unity's Vector3 equality is approximate: the squared distance is below 9.99999944e-11. */
  predicate ApproximatelyZero(v: Vec3)
  {
    v.SqrMagnitude() < 0.0000000000999999944
  }

  /** Random.Range(min, max) on floats returns a value between the bounds, both included. */
  predicate InRange(x: real, min: real, max: real)
  {
    if min <= max then min <= x <= max else max <= x <= min
  }
}
