/** Points in space and squared Euclidean distances, in exact real arithmetic. */
module Geometry {
  datatype Vec = Vec(x: real, y: real, z: real)

  /** A 3 x 3 matrix by rows. */
  datatype Mat = Mat(r0: Vec, r1: Vec, r2: Vec)

  function Square(v: real): (r: real)
    ensures r >= 0.0
  {
    v * v
  }

  /** The coordinate that an axis-aligned projection reads (0: x, 1: y, otherwise z). */
  function Coord(p: Vec, axis: nat): real {
    if axis == 0 then p.x else if axis == 1 then p.y else p.z
  }

  function SqDist(p: Vec, q: Vec): (d: real)
    ensures d >= 0.0
  {
    Square(p.x - q.x) + Square(p.y - q.y) + Square(p.z - q.z)
  }

  lemma ProductMonotone(a: real, b: real, c: real, d: real)
    requires 0.0 <= a <= b && 0.0 <= c <= d
    ensures a * c <= b * d
  {
    assert 0.0 <= (b - a) * c;
    assert 0.0 <= b * (d - c);
  }

  lemma SquareMonotone(a: real, b: real)
    requires -b <= a <= b || b <= a <= -b
    ensures Square(a) <= Square(b)
  {
    var c, d := if a < 0.0 then -a else a, if b < 0.0 then -b else b;
    assert Square(a) == c * c && Square(b) == d * d;
    ProductMonotone(c, d, c, d);
  }

  /** The gap along any one axis bounds the distance from below. */
  lemma AxisGapBoundsDistance(p: Vec, q: Vec, axis: nat)
    ensures Square(Coord(p, axis) - Coord(q, axis)) <= SqDist(p, q)
  {
  }
}
