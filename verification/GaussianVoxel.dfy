/** A voxel that keeps one Gaussian: a running sum while open, its average once finalized, and opened again by the next
    point. */
module GaussianVoxel {
  import opened Geometry
  import opened Matrices
  import opened Voxels
  import opened VoxelgridSampling

  /** What one point contributes: its transformed position, normal and covariance. */
  datatype Sample = Sample(p: Vec, normal: Vec, cov: Mat)

  function SumOfPoints(s: seq<Sample>): Vec {
    if |s| == 0 then NO_VEC else VecPlus(SumOfPoints(s[..|s| - 1]), s[|s| - 1].p)
  }

  function SumOfCovs(s: seq<Sample>): Mat {
    if |s| == 0 then NO_MAT else MatPlus(SumOfCovs(s[..|s| - 1]), s[|s| - 1].cov)
  }

  function MeanOf(s: seq<Sample>): Vec
    requires |s| > 0
  {
    VecOver(SumOfPoints(s), |s| as real)
  }

  function CovOf(s: seq<Sample>): Mat
    requires |s| > 0
  {
    MatOver(SumOfCovs(s), |s| as real)
  }

  /** Multiplying back undoes the division, so opening undoes closing. */
  lemma OpenUndoesClose(v: Vec, m: Mat, n: nat)
    requires n > 0
    ensures VecTimes(VecOver(v, n as real), n as real) == v && MatTimes(MatOver(m, n as real), n as real) == m
  {
    BackAgain(v, n as real);
    BackAgain(m.r0, n as real);
    BackAgain(m.r1, n as real);
    BackAgain(m.r2, n as real);
  }

  lemma BackAgain(v: Vec, s: real)
    requires s > 0.0
    ensures VecTimes(VecOver(v, s), s) == v
  {
    Quotient(v.x, s);
    Quotient(v.y, s);
    Quotient(v.z, s);
  }

  // ---------------------------------------------------------------- what the averages are, direction by direction

  /** The sum of the samples' coordinates along a vector. */
  ghost function DotSum(s: seq<Sample>, a: Vec): real {
    if |s| == 0 then 0.0 else DotSum(s[..|s| - 1], a) + Dot(a, s[|s| - 1].p)
  }

  /** The sum of the samples' covariances between two directions. */
  ghost function FormSum(s: seq<Sample>, a: Vec, b: Vec): real {
    if |s| == 0 then 0.0 else FormSum(s[..|s| - 1], a, b) + Form(a, s[|s| - 1].cov, b)
  }

  /** Along every vector the mean is the average of the samples' coordinates, and between any two the covariance is the
      average of the samples' covariances. */
  ghost predicate IsAverage(mean: Vec, cov: Mat, s: seq<Sample>) {
    && (forall a :: Dot(a, mean) * |s| as real == DotSum(s, a))
    && (forall a, b :: Form(a, cov, b) * |s| as real == FormSum(s, a, b))
  }

  /** The same for the sums of an open voxel. */
  ghost predicate IsSum(mean: Vec, cov: Mat, s: seq<Sample>) {
    && (forall a :: Dot(a, mean) == DotSum(s, a))
    && (forall a, b :: Form(a, cov, b) == FormSum(s, a, b))
  }

  lemma SumsAreSum(s: seq<Sample>)
    ensures IsSum(SumOfPoints(s), SumOfCovs(s), s)
  {
    hide Dot, Form, SumOfPoints, SumOfCovs, DotSum, FormSum;
    forall a
      ensures Dot(a, SumOfPoints(s)) == DotSum(s, a)
    {
      DotOfSum(s, a);
    }
    forall a, b
      ensures Form(a, SumOfCovs(s), b) == FormSum(s, a, b)
    {
      FormOfSum(s, a, b);
    }
  }

  lemma {:induction false} DotOfSum(s: seq<Sample>, a: Vec)
    ensures Dot(a, SumOfPoints(s)) == DotSum(s, a)
  {
    hide VecPlus;
    if |s| > 0 {
      DotOfSum(s[..|s| - 1], a);
      DotPlus(a, SumOfPoints(s[..|s| - 1]), s[|s| - 1].p);
    }
  }

  lemma {:induction false} FormOfSum(s: seq<Sample>, a: Vec, b: Vec)
    ensures Form(a, SumOfCovs(s), b) == FormSum(s, a, b)
  {
    hide MatPlus;
    if |s| > 0 {
      FormOfSum(s[..|s| - 1], a, b);
      hide Form;
      FormPlus(a, SumOfCovs(s[..|s| - 1]), s[|s| - 1].cov, b);
    }
  }

  lemma AveragesAreAverage(s: seq<Sample>)
    requires |s| > 0
    ensures IsAverage(MeanOf(s), CovOf(s), s)
  {
    hide Dot, Form, VecTimes, VecOver, MatTimes, MatOver, SumOfPoints, SumOfCovs, DotSum, FormSum;
    var w := |s| as real;
    OpenUndoesClose(SumOfPoints(s), SumOfCovs(s), |s|);
    forall a
      ensures Dot(a, MeanOf(s)) * w == DotSum(s, a)
    {
      DotTimes(a, MeanOf(s), w);
      DotOfSum(s, a);
    }
    forall a, b
      ensures Form(a, CovOf(s), b) * w == FormSum(s, a, b)
    {
      FormTimes(a, CovOf(s), w, b);
      FormOfSum(s, a, b);
    }
  }

  lemma AverageAlong(mean: Vec, cov: Mat, s: seq<Sample>, a: Vec, b: Vec)
    requires IsAverage(mean, cov, s)
    ensures Dot(a, mean) * |s| as real == DotSum(s, a) && Form(a, cov, b) * |s| as real == FormSum(s, a, b)
  {
    hide Dot, Form, DotSum, FormSum;
  }

  /** Mean and covariance are the averages of the samples exactly when they are so along all vectors. */
  lemma AverageExactly(mean: Vec, cov: Mat, s: seq<Sample>)
    requires |s| > 0
    ensures IsAverage(mean, cov, s) <==> mean == MeanOf(s) && cov == CovOf(s)
  {
    hide IsAverage, Dot, Form, MeanOf, CovOf, DotSum, FormSum;
    AveragesAreAverage(s);
    if IsAverage(mean, cov, s) {
      forall a
        ensures Dot(a, mean) == Dot(a, MeanOf(s))
      {
        AverageAlong(mean, cov, s, a, a);
        AverageAlong(MeanOf(s), CovOf(s), s, a, a);
        Cancel(Dot(a, mean), Dot(a, MeanOf(s)), |s| as real);
      }
      DotsDetermine(mean, MeanOf(s));
      forall a, b
        ensures Form(a, cov, b) == Form(a, CovOf(s), b)
      {
        AverageAlong(mean, cov, s, a, b);
        AverageAlong(MeanOf(s), CovOf(s), s, a, b);
        Cancel(Form(a, cov, b), Form(a, CovOf(s), b), |s| as real);
      }
      FormsDetermine(cov, CovOf(s));
    }
  }

  lemma Cancel(x: real, y: real, w: real)
    requires w > 0.0 && x * w == y * w
    ensures x == y
  {
    assert x == x * w / w && y == y * w / w;
  }

  /** Samples that all have the same covariance give that covariance. */
  lemma SameCovariance(s: seq<Sample>, c: Mat)
    requires |s| > 0 && forall i :: 0 <= i < |s| ==> s[i].cov == c
    ensures CovOf(s) == c
  {
    hide Form, CovOf;
    AveragesAreAverage(s);
    forall a, b
      ensures Form(a, CovOf(s), b) == Form(a, c, b)
    {
      SameForms(s, c, a, b);
      Cancel(Form(a, CovOf(s), b), Form(a, c, b), |s| as real);
    }
    FormsDetermine(CovOf(s), c);
  }

  lemma {:induction false} SameForms(s: seq<Sample>, c: Mat, a: Vec, b: Vec)
    requires forall i :: 0 <= i < |s| ==> s[i].cov == c
    ensures FormSum(s, a, b) == Form(a, c, b) * |s| as real
  {
    hide Form;
    if |s| > 0 {
      SameForms(s[..|s| - 1], c, a, b);
    }
  }

  // ---------------------------------------------------------------- the voxel

  /** The fields of a voxel. */
  datatype Gaussian = Gaussian(finalized: bool, numPoints: nat, mean: Vec, cov: Mat)

  const NEW_GAUSSIAN: Gaussian := Gaussian(false, 0, NO_VEC, NO_MAT)

  /** A finalized voxel is opened first: its averages are multiplied back. */
  function Opened(v: Gaussian): Gaussian {
    if v.finalized
    then Gaussian(false, v.numPoints, VecTimes(v.mean, v.numPoints as real), MatTimes(v.cov, v.numPoints as real))
    else v
  }

  function WithPoint(v: Gaussian, x: Sample): Gaussian {
    var o := Opened(v);
    Gaussian(false, o.numPoints + 1, VecPlus(o.mean, x.p), MatPlus(o.cov, x.cov))
  }

  /** The averages, unless they are there already; there must be a point to divide by. */
  function Closed(v: Gaussian): Gaussian
    requires v.numPoints > 0
  {
    if v.finalized then v
    else Gaussian(true, v.numPoints, VecOver(v.mean, v.numPoints as real), MatOver(v.cov, v.numPoints as real))
  }

  /** Open: the sums of everything added. Finalized: the averages of everything added. */
  ghost predicate Represents(v: Gaussian, added: seq<Sample>) {
    && v.numPoints == |added|
    && if v.finalized then |added| > 0 && v.mean == MeanOf(added) && v.cov == CovOf(added)
       else v.mean == SumOfPoints(added) && v.cov == SumOfCovs(added)
  }

  lemma WithPointRepresents(v: Gaussian, added: seq<Sample>, x: Sample)
    requires Represents(v, added)
    ensures Represents(WithPoint(v, x), added + [x])
  {
    if v.finalized {
      OpenUndoesClose(SumOfPoints(added), SumOfCovs(added), v.numPoints);
    }
    assert (added + [x])[..|added|] == added;
  }

  lemma ClosedRepresents(v: Gaussian, added: seq<Sample>)
    requires Represents(v, added) && v.numPoints > 0
    ensures Represents(Closed(v), added)
  {
  }

  class GaussianVoxel {
    var finalized: bool
    var numPoints: nat
    var mean: Vec
    var cov: Mat
    ghost var added: seq<Sample>        // everything added since the voxel was created

    function Fields(): Gaussian
      reads this
    {
      Gaussian(finalized, numPoints, mean, cov)
    }

    ghost predicate Valid()
      reads this
    {
      Represents(Fields(), added)
    }

    constructor ()
      ensures Valid() && added == [] && Fields() == NEW_GAUSSIAN
    {
      finalized, numPoints, mean, cov, added := false, 0, NO_VEC, NO_MAT, [];
    }

    method Add(x: Sample)
      requires Valid()
      modifies this
      ensures Valid() && added == old(added) + [x] && !finalized
      ensures Fields() == WithPoint(old(Fields()), x)
    {
      WithPointRepresents(Fields(), added, x);
      if finalized {
        finalized := false;
        mean := VecTimes(mean, numPoints as real);
        cov := MatTimes(cov, numPoints as real);
      }
      numPoints := numPoints + 1;
      mean := VecPlus(mean, x.p);
      cov := MatPlus(cov, x.cov);
      added := added + [x];
    }

    /** Finalizing needs at least one point; finalizing twice changes nothing. */
    method Finalize()
      requires Valid() && numPoints > 0
      modifies this
      ensures Valid() && finalized && added == old(added) && numPoints == old(numPoints)
      ensures Fields() == Closed(old(Fields()))
      ensures old(finalized) ==> mean == old(mean) && cov == old(cov)
      ensures IsAverage(mean, cov, added)
    {
      ClosedRepresents(Fields(), added);
      AveragesAreAverage(added);
      if finalized {
        return;
      }
      mean := VecOver(mean, numPoints as real);
      cov := MatOver(cov, numPoints as real);
      finalized := true;
    }
  }

  // ---------------------------------------------------------------- runs of add and finalize

  datatype Call = AddCall(sample: Sample) | FinalizeCall

  /** What has been added by a run of calls. */
  ghost function AddedBy(calls: seq<Call>): seq<Sample> {
    if |calls| == 0 then []
    else
      var t, c := AddedBy(calls[..|calls| - 1]), calls[|calls| - 1];
      if c.AddCall? then t + [c.sample] else t
  }

  /** Every finalize of the run has a point to divide by. */
  ghost predicate Runnable(calls: seq<Call>) {
    forall i :: 0 <= i < |calls| && calls[i].FinalizeCall? ==> |AddedBy(calls[..i])| > 0
  }

  /** Any interleaving of add and finalize ends with the sums, or after a final finalize the averages, of everything
      added. */
  method RunCalls(voxel: GaussianVoxel, calls: seq<Call>)
    requires voxel.Valid() && voxel.added == [] && Runnable(calls) && |calls| > 0
    modifies voxel
    ensures voxel.numPoints == |AddedBy(calls)| && voxel.finalized == calls[|calls| - 1].FinalizeCall?
    ensures voxel.finalized ==> IsAverage(voxel.mean, voxel.cov, AddedBy(calls))
    ensures !voxel.finalized ==> IsSum(voxel.mean, voxel.cov, AddedBy(calls))
    ensures !voxel.finalized ==> voxel.mean == SumOfPoints(AddedBy(calls)) && voxel.cov == SumOfCovs(AddedBy(calls))
    ensures voxel.finalized ==>
      |AddedBy(calls)| > 0 && voxel.mean == MeanOf(AddedBy(calls)) && voxel.cov == CovOf(AddedBy(calls))
  {
    for i := 0 to |calls|
      invariant voxel.Valid() && voxel.added == AddedBy(calls[..i])
      invariant i > 0 ==> voxel.finalized == calls[i - 1].FinalizeCall?
    {
      hide MeanOf, CovOf, SumOfPoints, SumOfCovs;
      assert calls[..i + 1][..i] == calls[..i];
      if calls[i].AddCall? {
        voxel.Add(calls[i].sample);
      } else {
        voxel.Finalize();
      }
    }
    assert calls[..|calls|] == calls;
    hide IsAverage, IsSum, MeanOf, CovOf, SumOfPoints, SumOfCovs;
    if voxel.finalized {
      AveragesAreAverage(AddedBy(calls));
    } else {
      SumsAreSum(AddedBy(calls));
    }
  }

  // ---------------------------------------------------------------- the mean stays in the cell

  ghost predicate AllIn(s: seq<Sample>, c: VoxelCoord, leaf: real)
    requires leaf > 0.0
  {
    forall i :: 0 <= i < |s| ==> Cell(s[i].p, leaf) == c
  }

  lemma {:induction false} SumsInCell(s: seq<Sample>, c: VoxelCoord, leaf: real)
    requires leaf > 0.0 && AllIn(s, c, leaf)
    ensures var v, w := SumOfPoints(s), |s| as real;
      InBox(v.x, w, c.x, leaf) && InBox(v.y, w, c.y, leaf) && InBox(v.z, w, c.z, leaf)
  {
    hide InBox, FastFloor;
    if |s| == 0 {
      EmptyBox(c.x, leaf);
      EmptyBox(c.y, leaf);
      EmptyBox(c.z, leaf);
    } else {
      var t, p := s[..|s| - 1], s[|s| - 1].p;
      SumsInCell(t, c, leaf);
      var v, w := SumOfPoints(t), |t| as real;
      assert Cell(p, leaf) == c;
      BoxStep(v.x, w, c.x, leaf, p.x);
      BoxStep(v.y, w, c.y, leaf, p.y);
      BoxStep(v.z, w, c.z, leaf, p.z);
    }
  }

  /** When all added points share a half-open cell, so does their mean. */
  lemma {:induction false} MeanStaysInCell(s: seq<Sample>, c: VoxelCoord, leaf: real)
    requires leaf > 0.0 && |s| > 0 && AllIn(s, c, leaf)
    ensures Cell(MeanOf(s), leaf) == c
  {
    hide InBox, FastFloor, SumOfPoints;
    SumsInCell(s, c, leaf);
    var v, w := SumOfPoints(s), |s| as real;
    BoxMean(v.x, w, c.x, leaf);
    BoxMean(v.y, w, c.y, leaf);
    BoxMean(v.z, w, c.z, leaf);
  }
}
