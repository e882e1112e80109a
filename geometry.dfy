/**
 * Scene geometry used by the patrol: positions are exact real vectors, with
 * `y` the height above the ground plane.
 */
module Geometry {

  datatype Vec3 = Vec3(x: real, y: real, z: real)

  /**
   * Component-wise linear interpolation `a + (b - a) * t` (Vector3.Lerp).
   * The amount is not clamped: a `t` above 1 lies beyond `b`.
   */
  function Lerp(a: Vec3, b: Vec3, t: real): (r: Vec3)
    ensures t == 0.0 ==> r == a
    ensures t == 1.0 ==> r == b
    ensures a == b ==> r == a
  {
    Vec3(a.x + (b.x - a.x) * t, a.y + (b.y - a.y) * t, a.z + (b.z - a.z) * t)
  }

  /**
   * The squared distance between two points measured on the ground plane
   * (x and z only). No square root is taken, so it is compared with squared
   * radii.
   */
  function Distance(p: Vec3, q: Vec3): (r: real)
    ensures r >= 0.0
    ensures p.x == q.x && p.z == q.z ==> r == 0.0
  {
    var a := p.x - q.x;
    var b := p.z - q.z;
    SumOfSquares(a, b);
    a * a + b * b
  }

  /** A sum of two squares is non-negative. */
  lemma SumOfSquares(a: real, b: real)
    ensures a * a + b * b >= 0.0
  {
    Square(a);
    Square(b);
  }

  /** A square is non-negative. */
  lemma Square(a: real)
    ensures a * a >= 0.0
  {
    if a < 0.0 {
      var b := -a;
      assert a * a == b * b;
    }
  }

  /** The point on the ground plane straight below (or above) `p`. */
  function Planar(p: Vec3): (r: Vec3)
    ensures r.y == 0.0
    ensures forall q :: Distance(q, r) == Distance(q, p)
  {
    Vec3(p.x, 0.0, p.z)
  }

  /** Distance is symmetric in its two arguments. */
  lemma DistanceSymmetric(p: Vec3, q: Vec3)
    ensures Distance(p, q) == Distance(q, p)
  {
    assert (p.x - q.x) * (p.x - q.x) == (q.x - p.x) * (q.x - p.x);
    assert (p.z - q.z) * (p.z - q.z) == (q.z - p.z) * (q.z - p.z);
  }

  /** Distance ignores the heights of both points. */
  lemma DistanceIgnoresHeight(p: Vec3, q: Vec3, py: real, qy: real)
    ensures Distance(p, q) == Distance(p.(y := py), q.(y := qy))
    ensures Distance(p, q) == Distance(p, Planar(q))
  {
    var p', q' := p.(y := py), q.(y := qy);
    assert p'.x == p.x && p'.z == p.z && q'.x == q.x && q'.z == q.z;
  }
}
