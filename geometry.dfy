/**
 * Positions as THREE.Vector3 values with exact real coordinates, and the two
 * vector operations the animation relies on: `distanceTo` and `lerp`.
 */
module Geometry {

  datatype Vec3 = Vec3(x: real, y: real, z: real)

  function Add(a: Vec3, b: Vec3): Vec3
  {
    Vec3(a.x + b.x, a.y + b.y, a.z + b.z)
  }

  /** Square of `a.distanceTo(b)`: comparing it with `d * d` avoids the square root. */
  function DistSq(a: Vec3, b: Vec3): (r: real)
    ensures r >= 0.0
  {
    NonNegativeSquare(a.x - b.x);
    NonNegativeSquare(a.y - b.y);
    NonNegativeSquare(a.z - b.z);
    (a.x - b.x) * (a.x - b.x) + (a.y - b.y) * (a.y - b.y) + (a.z - b.z) * (a.z - b.z)
  }

  lemma NonNegativeSquare(d: real)
    ensures d * d >= 0.0
  {
    if d < 0.0 {
      assert d * d == (-d) * (-d);
    }
  }

  /** The threshold of every "has it moved" test in the animation loop. */
  const Epsilon: real := 0.01

  /** `a.distanceTo(b) > 0.01`. */
  predicate Apart(a: Vec3, b: Vec3)
  {
    DistSq(a, b) > Epsilon * Epsilon
  }

  /** `a.clone().lerp(b, t)`: the point a fraction `t` of the way from `a` to `b`. */
  function Lerp(a: Vec3, b: Vec3, t: real): (r: Vec3)
    ensures t == 0.0 ==> r == a
    ensures t == 1.0 ==> r == b
  {
    Vec3(a.x + t * (b.x - a.x), a.y + t * (b.y - a.y), a.z + t * (b.z - a.z))
  }

  lemma ScaledSquare(d: real, k: real)
    ensures (k * d) * (k * d) == (k * k) * (d * d)
  {
  }

  /**
   * A lerp step by `t` leaves `(1 - t)^2` of the squared distance to the goal:
   * the animation approaches its target geometrically, never overshooting.
   */
  lemma {:induction false} LerpShrinks(a: Vec3, b: Vec3, t: real)
    ensures DistSq(Lerp(a, b, t), b) == (1.0 - t) * (1.0 - t) * DistSq(a, b)
  {
    var r := Lerp(a, b, t);
    var k := 1.0 - t;
    var dx, dy, dz := a.x - b.x, a.y - b.y, a.z - b.z;
    var ex, ey, ez := r.x - b.x, r.y - b.y, r.z - b.z;
    assert ex * ex == (k * k) * (dx * dx) by { LerpCoord(a.x, b.x, t); }
    assert ey * ey == (k * k) * (dy * dy) by { LerpCoord(a.y, b.y, t); }
    assert ez * ez == (k * k) * (dz * dz) by { LerpCoord(a.z, b.z, t); }
    Distribute(k * k, dx * dx, dy * dy, dz * dz);
    assert DistSq(r, b) == ex * ex + ey * ey + ez * ez;
    assert DistSq(a, b) == dx * dx + dy * dy + dz * dz;
  }

  /** One coordinate of `LerpShrinks`. */
  lemma LerpCoord(a: real, b: real, t: real)
    ensures (a + t * (b - a) - b) * (a + t * (b - a) - b) == ((1.0 - t) * (1.0 - t)) * ((a - b) * (a - b))
  {
    assert a + t * (b - a) - b == (1.0 - t) * (a - b);
    ScaledSquare(a - b, 1.0 - t);
  }

  lemma Distribute(c: real, x: real, y: real, z: real)
    ensures c * x + c * y + c * z == c * (x + y + z)
  {
  }
}
