/** The linearization's reduction: one partial of 43 values per launched warp, summed in order on the host, and the
    upper triangle mirrored. */
module Reduction {
  import opened Arithmetic
  import opened Collections
  import opened Geometry
  import opened Matrices
  import opened WarpReduce

  /** 36 cells of H by rows, 6 of b, 1 error. */
  const NUM_OUT: nat := 43
  const BLOCK: nat := 256

  /** An accepted correspondence: the target point and the Mahalanobis matrix, or none. */
  datatype Corr = NoCorr | Corr(j: nat, weight: Mat)

  /** What the threads compute for source point i: its correspondence, the point moved by the pose, and the outputs
      other than the error, which follows from these and the target points. */
  datatype Factors = Factors(value: (nat, nat) -> real, corr: nat -> Corr, moved: nat -> Vec, target: nat -> Vec)

  const ERROR: nat := 42

  function Residual(q: Vec, pt: Vec): Vec {
    Vec(pt.x - q.x, pt.y - q.y, pt.z - q.z)
  }

  /** Half the squared Mahalanobis length of the residual. */
  function ErrorTerm(q: Vec, pt: Vec, weight: Mat): real {
    0.5 * Form(Residual(q, pt), weight, Residual(q, pt))
  }

  /** The value a thread brings to the reduction: zero without a correspondence, and for threads past the last point. */
  function Value(f: Factors, n: nat, i: nat, k: nat): real {
    if i >= n then 0.0
    else
      match f.corr(i)
      case NoCorr => 0.0
      case Corr(j, weight) => if k == ERROR then ErrorTerm(f.moved(i), f.target(j), weight) else f.value(i, k)
  }

  function Lanes(f: Factors, n: nat, w: nat, k: nat): (v: seq<real>)
    ensures |v| == 32 && forall l :: 0 <= l < 32 ==> v[l] == Value(f, n, 32 * w + l, k)
  {
    seq(32, l requires 0 <= l < 32 => Value(f, n, 32 * w + l, k))
  }

  /** The sum of output k over the first m threads. */
  ghost function Total(f: Factors, n: nat, m: nat, k: nat): real {
    if m == 0 then 0.0 else Total(f, n, m - 1, k) + Value(f, n, m - 1, k)
  }

  lemma {:induction false} TotalOfWarp(f: Factors, n: nat, w: nat, l: nat, k: nat)
    requires l <= 32
    ensures Total(f, n, 32 * w + l, k) == Total(f, n, 32 * w, k) + Sum(Lanes(f, n, w, k)[..l])
  {
    if l > 0 {
      var v := Lanes(f, n, w, k);
      TotalOfWarp(f, n, w, l - 1, k);
      assert v[..l][..l - 1] == v[..l - 1] && v[..l][l - 1] == v[l - 1];
      assert 32 * w + l - 1 == 32 * w + (l - 1);
      SumLast(v[..l]);
    }
  }

  lemma SumLast(v: seq<real>)
    requires |v| > 0
    ensures Sum(v) == Sum(v[..|v| - 1]) + v[|v| - 1]
  {
  }

  /** A warp's sum carries the total from its first thread to the next warp's. */
  lemma WholeWarp(f: Factors, n: nat, w: nat, k: nat)
    ensures Total(f, n, 32 * (w + 1), k) == Total(f, n, 32 * w, k) + Sum(Lanes(f, n, w, k))
  {
    hide Sum, Total;
    TotalOfWarp(f, n, w, 32, k);
    assert Lanes(f, n, w, k)[..32] == Lanes(f, n, w, k);
  }

  /** Threads past the last point add nothing. */
  lemma {:induction false} TailAddsNothing(f: Factors, n: nat, m: nat, k: nat)
    requires m >= n
    ensures Total(f, n, m, k) == Total(f, n, n, k)
  {
    if m > n {
      TailAddsNothing(f, n, m - 1, k);
    }
  }

  /** Warps launched for n source points: whole blocks of 256 threads, including warps that hold no point. */
  function NumWarps(n: nat): (w: nat)
    ensures 32 * w >= n && (n > 0 ==> w > 0)
  {
    (n + BLOCK - 1) / BLOCK * (BLOCK / 32)
  }

  // ---------------------------------------------------------------- what the error is

  /** With the identity for a weight the error is half the squared distance. */
  lemma ErrorOfIdentity(q: Vec, pt: Vec)
    ensures ErrorTerm(q, pt, IDENTITY) == 0.5 * SqDist(q, pt)
  {
    hide Form, SqDist;
    FormIdentity(Residual(q, pt), Residual(q, pt));
    ResidualLength(q, pt);
  }

  lemma ResidualLength(q: Vec, pt: Vec)
    ensures Dot(Residual(q, pt), Residual(q, pt)) == SqDist(q, pt)
  {
  }

  /** With a product a a^T for a weight it is half the square of the residual along a. */
  lemma ErrorOfOuter(q: Vec, pt: Vec, a: Vec)
    ensures ErrorTerm(q, pt, Outer(a, a)) == 0.5 * Square(Dot(a, Residual(q, pt)))
  {
    hide Form, Dot;
    var res := Residual(q, pt);
    FormOuter(res, a, a, res);
    DotCommutes(a, res);
  }

  lemma DotCommutes(a: Vec, b: Vec)
    ensures Dot(a, b) == Dot(b, a)
  {
  }

  /** The error is additive in the weight, so on sums of such products it is the sum of half the squares. */
  lemma ErrorAdds(q: Vec, pt: Vec, m: Mat, n: Mat)
    ensures ErrorTerm(q, pt, MatPlus(m, n)) == ErrorTerm(q, pt, m) + ErrorTerm(q, pt, n)
  {
    hide Form, MatPlus;
    FormPlus(Residual(q, pt), m, n, Residual(q, pt));
  }

  ghost predicate UnitWeights(f: Factors, n: nat) {
    forall i :: 0 <= i < n && f.corr(i).Corr? ==> f.corr(i).weight == IDENTITY
  }

  /** The sum over the first m points of the squared distances to their correspondences. */
  ghost function SquaredDistances(f: Factors, m: nat): real {
    if m == 0 then 0.0
    else
      var c := f.corr(m - 1);
      SquaredDistances(f, m - 1) + if c.Corr? then SqDist(f.moved(m - 1), f.target(c.j)) else 0.0
  }

  /** With identity weights the error is half the sum of the squared distances. */
  lemma {:induction false} UnitErrors(f: Factors, n: nat, m: nat)
    requires m <= n && UnitWeights(f, n)
    ensures Total(f, n, m, ERROR) == 0.5 * SquaredDistances(f, m)
  {
    hide ErrorTerm, SqDist;
    if m > 0 {
      UnitErrors(f, n, m - 1);
      var c := f.corr(m - 1);
      if c.Corr? {
        ErrorOfIdentity(f.moved(m - 1), f.target(c.j));
      }
    }
  }

  lemma UnitErrorsMoved(f: Factors, moved: nat -> Vec, n: nat)
    ensures UnitWeights(f, n) ==>
      Total(f.(moved := moved), n, n, ERROR) == 0.5 * SquaredDistances(f.(moved := moved), n)
  {
    hide Total, SquaredDistances;
    if UnitWeights(f, n) {
      UnitErrors(f.(moved := moved), n, n);
    }
  }

  // ---------------------------------------------------------------- counting inliers

  /** The population count of the warp's ballot over its first l lanes. */
  function Ballot(f: Factors, n: nat, w: nat, l: nat): (c: nat)
    ensures c <= l
  {
    if l == 0 then 0 else Ballot(f, n, w, l - 1) + if 32 * w + l - 1 < n && f.corr(32 * w + l - 1).Corr? then 1 else 0
  }

  /** The number of inliers among the first m source points. */
  ghost function Inliers(f: Factors, n: nat, m: nat): nat {
    if m == 0 then 0 else Inliers(f, n, m - 1) + if m - 1 < n && f.corr(m - 1).Corr? then 1 else 0
  }

  lemma {:induction false} InliersOfWarp(f: Factors, n: nat, w: nat, l: nat)
    ensures Inliers(f, n, 32 * w + l) == Inliers(f, n, 32 * w) + Ballot(f, n, w, l)
  {
    if l > 0 {
      InliersOfWarp(f, n, w, l - 1);
      assert 32 * w + l - 1 == 32 * w + (l - 1);
    }
  }

  lemma {:induction false} InlierTail(f: Factors, n: nat, m: nat)
    requires m >= n
    ensures Inliers(f, n, m) == Inliers(f, n, n)
  {
    if m > n {
      InlierTail(f, n, m - 1);
    }
  }

  // ---------------------------------------------------------------- the kernel

  ghost function Slot(w: nat, k: nat): nat {
    w * NUM_OUT + k
  }

  /** Warp w has written its own 43 cells. */
  ghost predicate Written(partials: seq<real>, f: Factors, n: nat, w: nat) {
    forall k :: 0 <= k < NUM_OUT ==> Slot(w, k) < |partials| && partials[Slot(w, k)] == Sum(Lanes(f, n, w, k))
  }

  /** One warp: 43 shuffle reductions, written by lane 0. */
  method WarpWrites(partials: array<real>, f: Factors, n: nat, w: nat, ghost warps: nat)
    requires w < warps && partials.Length == warps * NUM_OUT
    modifies partials
    ensures Written(partials[..], f, n, w)
    ensures forall v :: 0 <= v < warps && v != w && old(Written(partials[..], f, n, v)) ==>
      Written(partials[..], f, n, v)
  {
    hide Sum, Written;
    SlotsInBounds(w, warps);
    ghost var was := partials[..];
    for k := 0 to NUM_OUT
      invariant forall j :: 0 <= j < k ==> partials[Slot(w, j)] == Sum(Lanes(f, n, w, j))
      invariant forall x :: 0 <= x < partials.Length && !(w * NUM_OUT <= x < (w + 1) * NUM_OUT) ==>
        partials[x] == was[x]
    {
      var v := ReduceSum(Lanes(f, n, w, k));
      assert forall j :: 0 <= j < k ==> Slot(w, j) != Slot(w, k);
      partials[w * NUM_OUT + k] := v;
      assert Slot(w, k) == w * NUM_OUT + k;
    }
    WrittenFrom(partials[..], f, n, w);
    forall v | 0 <= v < warps && v != w && Written(was, f, n, v)
      ensures Written(partials[..], f, n, v)
    {
      WrittenStays(was, partials[..], f, n, v, w);
    }
  }

  lemma SlotsInBounds(w: nat, warps: nat)
    requires w < warps
    ensures forall k :: 0 <= k < NUM_OUT ==> w * NUM_OUT <= Slot(w, k) < (w + 1) * NUM_OUT <= warps * NUM_OUT
  {
  }

  lemma WrittenFrom(partials: seq<real>, f: Factors, n: nat, w: nat)
    requires forall k :: 0 <= k < NUM_OUT ==> Slot(w, k) < |partials| && partials[Slot(w, k)] == Sum(Lanes(f, n, w, k))
    ensures Written(partials, f, n, w)
  {
  }

  lemma WrittenStays(was: seq<real>, partials: seq<real>, f: Factors, n: nat, v: nat, w: nat)
    requires |was| == |partials| && v != w && Written(was, f, n, v)
    requires forall x :: 0 <= x < |was| && !(w * NUM_OUT <= x < (w + 1) * NUM_OUT) ==> partials[x] == was[x]
    ensures Written(partials, f, n, v)
  {
    hide Sum;
    forall k | 0 <= k < NUM_OUT
      ensures partials[Slot(v, k)] == was[Slot(v, k)]
    {
      if v < w {
        ProductAtLeast(w, v + 1, NUM_OUT);
      } else {
        ProductAtLeast(v, w + 1, NUM_OUT);
      }
    }
  }

  // ---------------------------------------------------------------- the correspondence cache

  /** One entry and nine matrix cells a source point. */
  ghost predicate CacheFits(targetIdx: array<int>, weights: array<real>, n: nat) {
    targetIdx.Length == n && weights.Length == 9 * n
  }

  /** The matrix stored for point i. */
  function WeightAt(weights: seq<real>, i: nat): Mat
    requires 9 * i + 9 <= |weights|
  {
    var w := weights[9 * i..9 * i + 9];
    Mat(Vec(w[0], w[1], w[2]), Vec(w[3], w[4], w[5]), Vec(w[6], w[7], w[8]))
  }

  /** The matrices are stored by rows, nine cells a point. */
  lemma WeightCells(weights: seq<real>, i: nat, r: nat, c: nat)
    requires 9 * i + 9 <= |weights| && r < 3 && c < 3
    ensures Coord(Row(WeightAt(weights, i), r), c) == weights[9 * i + 3 * r + c]
  {
  }

  /** The correspondence that the cache holds for point i. */
  function CachedCorr(targetIdx: seq<int>, weights: seq<real>, i: nat): Corr
    requires i < |targetIdx| && |weights| == 9 * |targetIdx|
  {
    if targetIdx[i] >= 0 then Corr(targetIdx[i], WeightAt(weights, i)) else NoCorr
  }

  /** The cache holds the correspondences of the points lo to hi - 1. */
  ghost predicate Holds(targetIdx: seq<int>, weights: seq<real>, f: Factors, lo: nat, hi: nat)
    requires |weights| == 9 * |targetIdx|
  {
    forall i :: lo <= i < hi && i < |targetIdx| ==>
      CachedCorr(targetIdx, weights, i) == f.corr(i) && (f.corr(i).NoCorr? ==> targetIdx[i] == -1)
  }

  /** The cache holds the correspondences of the points of warp w. */
  ghost predicate HoldsWarp(targetIdx: seq<int>, weights: seq<real>, f: Factors, w: nat)
    requires |weights| == 9 * |targetIdx|
  {
    Holds(targetIdx, weights, f, 32 * w, 32 * w + 32)
  }

  /** The cells of the points outside the range have not changed. */
  ghost predicate KeptOutside(was: seq<int>, now: seq<int>, wasWeights: seq<real>, nowWeights: seq<real>, lo: nat,
                              hi: nat) {
    && |was| == |now| && |wasWeights| == |nowWeights|
    && (forall x :: 0 <= x < |was| && !(lo <= x < hi) ==> now[x] == was[x])
    && (forall x :: 0 <= x < |wasWeights| && !(9 * lo <= x < 9 * hi) ==> nowWeights[x] == wasWeights[x])
  }

  lemma HoldsStays(was: seq<int>, now: seq<int>, wasWeights: seq<real>, nowWeights: seq<real>, f: Factors,
                   a: nat, b: nat, lo: nat, hi: nat)
    requires |wasWeights| == 9 * |was| && KeptOutside(was, now, wasWeights, nowWeights, lo, hi)
    requires (b <= lo || hi <= a) && Holds(was, wasWeights, f, a, b)
    ensures Holds(now, nowWeights, f, a, b)
  {
    forall i | a <= i < b && i < |now|
      ensures CachedCorr(now, nowWeights, i) == f.corr(i) && (f.corr(i).NoCorr? ==> now[i] == -1)
    {
      assert CachedCorr(was, wasWeights, i) == f.corr(i);
      assert nowWeights[9 * i..9 * i + 9] == wasWeights[9 * i..9 * i + 9];
    }
  }

  /** One thread stores its correspondence, or -1 and no matrix. */
  method ThreadCaches(targetIdx: array<int>, weights: array<real>, f: Factors, i: nat)
    requires CacheFits(targetIdx, weights, targetIdx.Length) && i < targetIdx.Length
    modifies targetIdx, weights
    ensures Holds(targetIdx[..], weights[..], f, i, i + 1)
    ensures KeptOutside(old(targetIdx[..]), targetIdx[..], old(weights[..]), weights[..], i, i + 1)
  {
    match f.corr(i)
    case NoCorr => targetIdx[i] := -1;
    case Corr(j, m) =>
      targetIdx[i] := j;
      weights[9 * i], weights[9 * i + 1], weights[9 * i + 2] := m.r0.x, m.r0.y, m.r0.z;
      weights[9 * i + 3], weights[9 * i + 4], weights[9 * i + 5] := m.r1.x, m.r1.y, m.r1.z;
      weights[9 * i + 6], weights[9 * i + 7], weights[9 * i + 8] := m.r2.x, m.r2.y, m.r2.z;
  }

  /** The threads of a warp that have a source point store theirs. */
  method WarpCaches(targetIdx: array<int>, weights: array<real>, f: Factors, n: nat, w: nat)
    requires CacheFits(targetIdx, weights, n)
    modifies targetIdx, weights
    ensures HoldsWarp(targetIdx[..], weights[..], f, w)
    ensures KeptOutside(old(targetIdx[..]), targetIdx[..], old(weights[..]), weights[..], 32 * w, 32 * w + 32)
  {
    for lane := 0 to 32
      invariant Holds(targetIdx[..], weights[..], f, 32 * w, 32 * w + lane)
      invariant KeptOutside(old(targetIdx[..]), targetIdx[..], old(weights[..]), weights[..], 32 * w, 32 * w + 32)
    {
      hide Holds, KeptOutside;
      var i := 32 * w + lane;
      ghost var idx, cells := targetIdx[..], weights[..];
      if i < n {
        ThreadCaches(targetIdx, weights, f, i);
        HoldsStays(idx, targetIdx[..], cells, weights[..], f, 32 * w, i, i, i + 1);
        KeptBoth(old(targetIdx[..]), idx, targetIdx[..], old(weights[..]), cells, weights[..], 32 * w, 32 * w + 32, i);
      }
      HoldsJoin(targetIdx[..], weights[..], f, 32 * w, i);
    }
  }

  lemma KeptBoth(a: seq<int>, b: seq<int>, c: seq<int>, x: seq<real>, y: seq<real>, z: seq<real>, lo: nat, hi: nat,
                 i: nat)
    requires KeptOutside(a, b, x, y, lo, hi) && KeptOutside(b, c, y, z, i, i + 1) && lo <= i < hi
    ensures KeptOutside(a, c, x, z, lo, hi)
  {
  }

  lemma HoldsJoin(targetIdx: seq<int>, weights: seq<real>, f: Factors, lo: nat, i: nat)
    requires |weights| == 9 * |targetIdx| && Holds(targetIdx, weights, f, lo, i)
    requires i < |targetIdx| ==> Holds(targetIdx, weights, f, i, i + 1)
    ensures Holds(targetIdx, weights, f, lo, i + 1)
  {
  }

  /** All warps, in any order: every slot holds its warp's sums, the cache every point's correspondence, and the counter
      all inliers. */
  method LinearizeKernel(partials: array<real>, targetIdx: array<int>, weights: array<real>, f: Factors, n: nat,
                         warps: nat)
    returns (inlierCount: nat)
    requires partials.Length == warps * NUM_OUT && warps == NumWarps(n)
    requires CacheFits(targetIdx, weights, n) && partials != weights
    modifies partials, targetIdx, weights
    ensures forall w :: 0 <= w < warps ==> Written(partials[..], f, n, w)
    ensures Holds(targetIdx[..], weights[..], f, 0, n)
    ensures inlierCount == Inliers(f, n, n)
  {
    hide Written, Inliers, NumWarps, Holds, KeptOutside, Ballot;
    inlierCount := 0;
    var left := Below(warps);
    ghost var counts: seq<nat> := seq(warps, _ => 0);
    NothingTallied(counts, warps);
    while left != {}
      invariant forall w :: w in left ==> 0 <= w < warps
      invariant forall w :: 0 <= w < warps && w !in left ==> Written(partials[..], f, n, w)
      invariant forall w :: 0 <= w < warps && w !in left ==> HoldsWarp(targetIdx[..], weights[..], f, w)
      invariant |counts| == warps && inlierCount == Tally(counts, warps)
      invariant forall w :: 0 <= w < warps ==> counts[w] == if w in left then 0 else Ballot(f, n, w, 32)
      decreases |left|
    {
      var w :| w in left;
      ghost var idx, cells := targetIdx[..], weights[..];
      WarpCaches(targetIdx, weights, f, n, w);
      forall v | 0 <= v < warps && v !in left
        ensures v != w ==> HoldsWarp(targetIdx[..], weights[..], f, v)
      {
        if v != w {
          HoldsStays(idx, targetIdx[..], cells, weights[..], f, 32 * v, 32 * v + 32, 32 * w, 32 * w + 32);
        }
      }
      WarpWrites(partials, f, n, w, warps);
      TallyUpdate(counts, w, Ballot(f, n, w, 32), warps);
      counts := counts[w := Ballot(f, n, w, 32)];
      inlierCount := inlierCount + Ballot(f, n, w, 32);
      left := left - {w};
    }
    BallotsCountInliers(f, n, counts, warps);
    InlierTail(f, n, 32 * warps);
    HoldsAll(targetIdx[..], weights[..], f, n, warps);
  }

  lemma HoldsAll(targetIdx: seq<int>, weights: seq<real>, f: Factors, n: nat, warps: nat)
    requires |weights| == 9 * |targetIdx| && n <= 32 * warps
    requires forall w :: 0 <= w < warps ==> HoldsWarp(targetIdx, weights, f, w)
    ensures Holds(targetIdx, weights, f, 0, n)
  {
    hide CachedCorr;
    forall i | 0 <= i < n && i < |targetIdx|
      ensures CachedCorr(targetIdx, weights, i) == f.corr(i) && (f.corr(i).NoCorr? ==> targetIdx[i] == -1)
    {
      assert 32 * (i / 32) <= i < 32 * (i / 32) + 32;
      assert HoldsWarp(targetIdx, weights, f, i / 32);
    }
  }

  lemma {:induction false} BallotsCountInliers(f: Factors, n: nat, counts: seq<nat>, m: nat)
    requires m <= |counts| && forall w :: 0 <= w < |counts| ==> counts[w] == Ballot(f, n, w, 32)
    ensures Tally(counts, m) == Inliers(f, n, 32 * m)
  {
    hide Ballot;
    if m > 0 {
      BallotsCountInliers(f, n, counts, m - 1);
      hide Inliers;
      InliersOfWarp(f, n, m - 1, 32);
      assert 32 * m == 32 * (m - 1) + 32;
    }
  }

  // ---------------------------------------------------------------- the host

  /** Cell (r, c) of the 6 x 6 matrix. */
  ghost function At(h: seq<real>, r: nat, c: nat): real
    requires r < 6 && c < 6 && |h| == NUM_OUT
  {
    h[r * 6 + c]
  }

  /** The host adds the partials warp by warp. */
  method HostSum(partials: array<real>, h: array<real>, f: Factors, n: nat, warps: nat)
    requires partials.Length == warps * NUM_OUT && h.Length == NUM_OUT && h != partials
    requires forall w :: 0 <= w < warps ==> Written(partials[..], f, n, w)
    modifies h
    ensures forall k :: 0 <= k < NUM_OUT ==> h[k] == Total(f, n, 32 * warps, k)
  {
    hide Sum, Total, Written;
    for k := 0 to NUM_OUT
      invariant forall j :: 0 <= j < k ==> h[j] == 0.0
    {
      h[k] := 0.0;
    }
    NoThreads(f, n);
    for w := 0 to warps
      invariant forall k :: 0 <= k < NUM_OUT ==> h[k] == Total(f, n, 32 * w, k)
    {
      SlotsInBounds(w, warps);
      for k := 0 to NUM_OUT
        invariant forall j :: 0 <= j < k ==> h[j] == Total(f, n, 32 * (w + 1), j)
        invariant forall j :: k <= j < NUM_OUT ==> h[j] == Total(f, n, 32 * w, j)
      {
        WholeWarp(f, n, w, k);
        ReadSlot(partials[..], f, n, w, k);
        h[k] := h[k] + partials[w * NUM_OUT + k];
      }
    }
  }

  lemma NoThreads(f: Factors, n: nat)
    ensures forall k :: 0 <= k < NUM_OUT ==> Total(f, n, 0, k) == 0.0
  {
  }

  lemma ReadSlot(partials: seq<real>, f: Factors, n: nat, w: nat, k: nat)
    requires Written(partials, f, n, w) && k < NUM_OUT
    ensures w * NUM_OUT + k < |partials| && partials[w * NUM_OUT + k] == Sum(Lanes(f, n, w, k))
  {
    assert Slot(w, k) == w * NUM_OUT + k;
  }

  /** Mirrors the upper triangle of H. */
  method Symmetrize(h: array<real>)
    requires h.Length == NUM_OUT
    modifies h
    ensures forall r, c :: 0 <= r <= c < 6 ==> At(h[..], r, c) == At(h[..], c, r) == At(old(h[..]), r, c)
    ensures forall k :: 36 <= k < NUM_OUT ==> h[k] == old(h[k])
  {
    for r := 0 to 6
      invariant forall a, b :: 0 <= a <= b < 6 ==> At(h[..], a, b) == At(old(h[..]), a, b)
      invariant forall a, b :: 0 <= b < a < r ==> At(h[..], a, b) == At(old(h[..]), b, a)
      invariant forall k :: 36 <= k < NUM_OUT ==> h[k] == old(h[k])
    {
      for c := 0 to r
        invariant forall a, b :: 0 <= a <= b < 6 ==> At(h[..], a, b) == At(old(h[..]), a, b)
        invariant forall a, b :: 0 <= b < a < r ==> At(h[..], a, b) == At(old(h[..]), b, a)
        invariant forall b :: 0 <= b < c ==> At(h[..], r, b) == At(old(h[..]), b, r)
        invariant forall k :: 36 <= k < NUM_OUT ==> h[k] == old(h[k])
      {
        assert At(h[..], c, r) == h[c * 6 + r];
        h[r * 6 + c] := h[c * 6 + r];
      }
    }
  }

  /** linearize_and_reduce: H is symmetric with the sums over all source points in its upper triangle; b, the error and
      the inlier count are sums over all source points, and the cache holds their correspondences. With no source or no
      target everything is zero and the cache is left alone. */
  method LinearizeAndReduce(f: Factors, numSource: nat, numTarget: nat, h: array<real>, targetIdx: array<int>,
                            weights: array<real>)
    returns (inliers: nat)
    requires h.Length == NUM_OUT && CacheFits(targetIdx, weights, numSource) && h != weights
    modifies h, targetIdx, weights
    ensures numTarget == 0 ==> targetIdx[..] == old(targetIdx[..]) && weights[..] == old(weights[..])
    ensures numTarget > 0 ==> Holds(targetIdx[..], weights[..], f, 0, numSource)
    ensures numTarget == 0 ==> inliers == 0 && forall k :: 0 <= k < NUM_OUT ==> h[k] == 0.0
    ensures numTarget > 0 ==> inliers == Inliers(f, numSource, numSource)
    ensures numTarget > 0 ==> forall r, c :: 0 <= r <= c < 6 ==>
      At(h[..], r, c) == At(h[..], c, r) == Total(f, numSource, numSource, r * 6 + c)
    ensures numTarget > 0 ==> forall k :: 36 <= k < NUM_OUT ==> h[k] == Total(f, numSource, numSource, k)
    ensures numTarget > 0 && UnitWeights(f, numSource) ==> h[ERROR] == 0.5 * SquaredDistances(f, numSource)
  {
    hide Written, NumWarps, Holds, UnitWeights, SquaredDistances;
    UnitErrorsMoved(f, f.moved, numSource);
    if numSource == 0 || numTarget == 0 {
      for k := 0 to NUM_OUT
        modifies h
        invariant forall j :: 0 <= j < k ==> h[j] == 0.0
      {
        h[k] := 0.0;
      }
      NothingToHold(targetIdx[..], weights[..], f, numSource);
      return 0;
    }
    hide Total, Inliers;
    var warps := NumWarps(numSource);
    var partials := new real[warps * NUM_OUT];
    inliers := LinearizeKernel(partials, targetIdx, weights, f, numSource, warps);
    HostSum(partials, h, f, numSource, warps);
    forall k | 0 <= k < NUM_OUT
      ensures h[k] == Total(f, numSource, numSource, k)
    {
      TailAddsNothing(f, numSource, 32 * warps, k);
    }
    ghost var sums := h[..];
    Symmetrize(h);
    forall r, c | 0 <= r <= c < 6
      ensures At(sums, r, c) == Total(f, numSource, numSource, r * 6 + c)
    {
      assert At(sums, r, c) == sums[r * 6 + c];
    }
  }

  lemma NothingToHold(targetIdx: seq<int>, weights: seq<real>, f: Factors, n: nat)
    requires |weights| == 9 * |targetIdx|
    ensures n == 0 ==> Holds(targetIdx, weights, f, 0, n)
  {
  }

  // ---------------------------------------------------------------- the error at another pose, from the cache

  /** The threads of an error-only launch: correspondences and matrices are read from the cache, and only the error is
      computed. */
  function FromCache(targetIdx: seq<int>, weights: seq<real>, moved: nat -> Vec, target: nat -> Vec): Factors
    requires |weights| == 9 * |targetIdx|
  {
    Factors((_, _) => 0.0, (i: nat) => if i < |targetIdx| then CachedCorr(targetIdx, weights, i) else NoCorr,
            moved, target)
  }

  /** The error-only launch: all warps in any order. */
  method ErrorKernel(partials: array<real>, g: Factors, n: nat, warps: nat)
    requires partials.Length == warps * NUM_OUT
    modifies partials
    ensures forall w :: 0 <= w < warps ==> Written(partials[..], g, n, w)
  {
    hide Written;
    var left := Below(warps);
    while left != {}
      invariant forall w :: w in left ==> 0 <= w < warps
      invariant forall w :: 0 <= w < warps && w !in left ==> Written(partials[..], g, n, w)
      decreases |left|
    {
      var w :| w in left;
      WarpWrites(partials, g, n, w, warps);
      left := left - {w};
    }
  }

  /** eval_error_cached: with the cache of a linearization, the error that its correspondences and matrices have at the
      given pose. */
  method EvalErrorCached(targetIdx: array<int>, weights: array<real>, n: nat, moved: nat -> Vec, target: nat -> Vec,
                         ghost f: Factors)
    returns (e: real)
    requires CacheFits(targetIdx, weights, n) && Holds(targetIdx[..], weights[..], f, 0, n) && f.target == target
    ensures e == Total(f.(moved := moved), n, n, ERROR)
    ensures UnitWeights(f, n) ==> e == 0.5 * SquaredDistances(f.(moved := moved), n)
  {
    hide Written, NumWarps, Total, Holds, FromCache, Sum, UnitWeights, SquaredDistances;
    UnitErrorsMoved(f, moved, n);
    NoError(f.(moved := moved));
    if n == 0 {
      return 0.0;
    }
    var warps := NumWarps(n);
    var partials := new real[warps * NUM_OUT];
    var g := FromCache(targetIdx[..], weights[..], moved, target);
    ErrorKernel(partials, g, n, warps);
    e := 0.0;
    NoError(g);
    var cells := partials[..];
    for w := 0 to warps
      invariant e == Total(g, n, 32 * w, ERROR)
    {
      SlotsInBounds(w, warps);
      WholeWarp(g, n, w, ERROR);
      ReadSlot(cells, g, n, w, ERROR);
      e := e + cells[w * NUM_OUT + ERROR];
    }
    TailAddsNothing(g, n, 32 * warps, ERROR);
    SameErrors(f, targetIdx[..], weights[..], moved, n, n);
  }

  lemma NoError(f: Factors)
    ensures forall n :: Total(f, n, 0, ERROR) == 0.0
  {
  }

  lemma {:induction false} SameErrors(f: Factors, targetIdx: seq<int>, weights: seq<real>, moved: nat -> Vec, n: nat,
                                      m: nat)
    requires m <= n == |targetIdx| && |weights| == 9 * n && Holds(targetIdx, weights, f, 0, n)
    ensures Total(FromCache(targetIdx, weights, moved, f.target), n, m, ERROR) == Total(f.(moved := moved), n, m, ERROR)
  {
    hide ErrorTerm, CachedCorr;
    if m > 0 {
      SameErrors(f, targetIdx, weights, moved, n, m - 1);
      assert CachedCorr(targetIdx, weights, m - 1) == f.corr(m - 1);
    }
  }

  // ---------------------------------------------------------------- the whole matrix

  /** The sum of cell (r, c) of the matrices of the points with a correspondence. */
  ghost function MatrixSum(f: Factors, full: (nat, nat, nat) -> real, n: nat, r: nat, c: nat): real {
    if n == 0 then 0.0 else MatrixSum(f, full, n - 1, r, c) + if f.corr(n - 1).Corr? then full(n - 1, r, c) else 0.0
  }

  lemma {:induction false} TotalIsMatrixSum(f: Factors, full: (nat, nat, nat) -> real, n: nat, m: nat, r: nat, c: nat)
    requires m <= n && r <= c < 6 && forall i: nat :: f.value(i, r * 6 + c) == full(i, r, c)
    ensures Total(f, n, m, r * 6 + c) == MatrixSum(f, full, m, r, c)
  {
    if m > 0 {
      TotalIsMatrixSum(f, full, n, m - 1, r, c);
    }
  }

  lemma {:induction false} MatrixSumSymmetric(f: Factors, full: (nat, nat, nat) -> real, n: nat, r: nat, c: nat)
    requires forall i: nat :: full(i, r, c) == full(i, c, r)
    ensures MatrixSum(f, full, n, r, c) == MatrixSum(f, full, n, c, r)
  {
    if n > 0 {
      MatrixSumSymmetric(f, full, n - 1, r, c);
    }
  }

  /** The outputs below 36 are the upper triangle of the point's own matrix. */
  ghost predicate ComputesUpper(f: Factors, full: (nat, nat, nat) -> real) {
    forall i: nat, a: nat, b: nat {:trigger full(i, a, b)} :: a <= b < 6 ==> f.value(i, a * 6 + b) == full(i, a, b)
  }

  /** When every point's matrix is symmetric and the threads compute its upper triangle, the reduced matrix is the sum
      of the matrices of the points with a correspondence. */
  lemma {:induction false} EveryCellIsTheSum(h: seq<real>, f: Factors, full: (nat, nat, nat) -> real, n: nat, r: nat,
                                             c: nat)
    requires |h| == NUM_OUT && r < 6 && c < 6
    requires forall a, b :: 0 <= a <= b < 6 ==> At(h, a, b) == At(h, b, a) == Total(f, n, n, a * 6 + b)
    requires ComputesUpper(f, full) && forall i: nat :: full(i, r, c) == full(i, c, r)
    ensures At(h, r, c) == MatrixSum(f, full, n, r, c)
  {
    hide At, Total, MatrixSum;
    if r <= c {
      TotalIsMatrixSum(f, full, n, n, r, c);
    } else {
      TotalIsMatrixSum(f, full, n, n, c, r);
      MatrixSumSymmetric(f, full, n, r, c);
    }
  }
}
