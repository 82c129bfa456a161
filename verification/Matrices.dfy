/** Vectors and 3 x 3 matrices: sums, scaling, and the bilinear form by which a matrix is known. */
module Matrices {
  import opened Geometry

  const NO_VEC: Vec := Vec(0.0, 0.0, 0.0)
  const NO_MAT: Mat := Mat(NO_VEC, NO_VEC, NO_VEC)
  const IDENTITY: Mat := Mat(Vec(1.0, 0.0, 0.0), Vec(0.0, 1.0, 0.0), Vec(0.0, 0.0, 1.0))

  function VecPlus(a: Vec, b: Vec): Vec {
    Vec(a.x + b.x, a.y + b.y, a.z + b.z)
  }

  function VecTimes(a: Vec, s: real): Vec {
    Vec(a.x * s, a.y * s, a.z * s)
  }

  function VecOver(a: Vec, s: real): Vec
    requires s != 0.0
  {
    Vec(a.x / s, a.y / s, a.z / s)
  }

  function MatPlus(a: Mat, b: Mat): Mat {
    Mat(VecPlus(a.r0, b.r0), VecPlus(a.r1, b.r1), VecPlus(a.r2, b.r2))
  }

  function MatTimes(a: Mat, s: real): Mat {
    Mat(VecTimes(a.r0, s), VecTimes(a.r1, s), VecTimes(a.r2, s))
  }

  function MatOver(a: Mat, s: real): Mat
    requires s != 0.0
  {
    Mat(VecOver(a.r0, s), VecOver(a.r1, s), VecOver(a.r2, s))
  }

  function Dot(a: Vec, b: Vec): real {
    a.x * b.x + a.y * b.y + a.z * b.z
  }

  function Row(m: Mat, r: nat): Vec {
    if r == 0 then m.r0 else if r == 1 then m.r1 else m.r2
  }

  function Apply(m: Mat, v: Vec): Vec {
    Vec(Dot(m.r0, v), Dot(m.r1, v), Dot(m.r2, v))
  }

  /** The number a . (m b). */
  function Form(a: Vec, m: Mat, b: Vec): real {
    Dot(a, Apply(m, b))
  }

  /** The matrix a b^T. */
  function Outer(a: Vec, b: Vec): Mat {
    Mat(VecTimes(b, a.x), VecTimes(b, a.y), VecTimes(b, a.z))
  }

  /** The unit vector of an axis. */
  function Unit(axis: nat): Vec {
    if axis == 0 then Vec(1.0, 0.0, 0.0) else if axis == 1 then Vec(0.0, 1.0, 0.0) else Vec(0.0, 0.0, 1.0)
  }

  lemma DotPlus(a: Vec, v: Vec, w: Vec)
    ensures Dot(a, VecPlus(v, w)) == Dot(a, v) + Dot(a, w)
  {
  }

  lemma PlusDot(a: Vec, b: Vec, v: Vec)
    ensures Dot(VecPlus(a, b), v) == Dot(a, v) + Dot(b, v)
  {
  }

  lemma DotTimes(a: Vec, v: Vec, s: real)
    ensures Dot(a, VecTimes(v, s)) == Dot(a, v) * s && Dot(VecTimes(a, s), v) == Dot(a, v) * s
  {
  }

  /** The form is additive in the matrix. */
  lemma FormPlus(a: Vec, m: Mat, n: Mat, b: Vec)
    ensures Form(a, MatPlus(m, n), b) == Form(a, m, b) + Form(a, n, b)
  {
    hide Dot;
    PlusDot(m.r0, n.r0, b);
    PlusDot(m.r1, n.r1, b);
    PlusDot(m.r2, n.r2, b);
    assert Apply(MatPlus(m, n), b) == VecPlus(Apply(m, b), Apply(n, b));
    DotPlus(a, Apply(m, b), Apply(n, b));
  }

  lemma FormTimes(a: Vec, m: Mat, s: real, b: Vec)
    ensures Form(a, MatTimes(m, s), b) == Form(a, m, b) * s
  {
    hide Dot;
    DotTimes(m.r0, b, s);
    DotTimes(m.r1, b, s);
    DotTimes(m.r2, b, s);
    assert Apply(MatTimes(m, s), b) == VecTimes(Apply(m, b), s);
    DotTimes(a, Apply(m, b), s);
  }

  lemma Commutes(s: real, t: real)
    ensures s * t == t * s
  {
  }

  /** For a product of vectors the form is the product of the dot products. */
  lemma FormOuter(a: Vec, u: Vec, v: Vec, b: Vec)
    ensures Form(a, Outer(u, v), b) == Dot(a, u) * Dot(v, b)
  {
    hide Dot;
    DotTimes(v, b, u.x);
    DotTimes(v, b, u.y);
    DotTimes(v, b, u.z);
    var d := Dot(v, b);
    Commutes(u.x, d);
    Commutes(u.y, d);
    Commutes(u.z, d);
    assert Apply(Outer(u, v), b) == VecTimes(u, d);
    DotTimes(a, u, d);
  }

  /** On unit vectors the form reads off the entries. */
  lemma FormReadsEntries(m: Mat, r: nat, c: nat)
    requires r < 3 && c < 3
    ensures Form(Unit(r), m, Unit(c)) == Coord(Row(m, r), c)
  {
  }

  lemma DotReadsEntries(v: Vec, axis: nat)
    requires axis < 3
    ensures Dot(Unit(axis), v) == Coord(v, axis)
  {
  }

  lemma FormIdentity(a: Vec, b: Vec)
    ensures Form(a, IDENTITY, b) == Dot(a, b)
  {
  }

  /** Matrices with the same forms are equal. */
  lemma FormsDetermine(m: Mat, n: Mat)
    requires forall a, b :: Form(a, m, b) == Form(a, n, b)
    ensures m == n
  {
    RowDetermined(m, n, 0);
    RowDetermined(m, n, 1);
    RowDetermined(m, n, 2);
  }

  lemma RowDetermined(m: Mat, n: Mat, r: nat)
    requires r < 3 && forall a, b :: Form(a, m, b) == Form(a, n, b)
    ensures Row(m, r) == Row(n, r)
  {
    hide Form, Unit, Row;
    FormReadsEntries(m, r, 0);
    FormReadsEntries(n, r, 0);
    FormReadsEntries(m, r, 1);
    FormReadsEntries(n, r, 1);
    FormReadsEntries(m, r, 2);
    FormReadsEntries(n, r, 2);
  }

  /** Vectors with the same dot products are equal. */
  lemma DotsDetermine(v: Vec, w: Vec)
    requires forall a :: Dot(a, v) == Dot(a, w)
    ensures v == w
  {
    hide Dot, Unit;
    DotReadsEntries(v, 0);
    DotReadsEntries(w, 0);
    DotReadsEntries(v, 1);
    DotReadsEntries(w, 1);
    DotReadsEntries(v, 2);
    DotReadsEntries(w, 2);
  }
}
