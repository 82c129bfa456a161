/** The GPU correspondence search: a 5x5x5 window of cells, then a pruned 9x9x9 window, then the distance test. */
module WindowSearch {
  import opened Geometry
  import opened Voxels
  import opened KNearest
  import opened HashIndex
  import opened IndexedCloud
  import opened WarpReduce

  const INNER: nat := 2
  const OUTER: nat := 4

  /** A scan or reduction replaces what it holds only by something strictly nearer. */
  function Nearer(mine: Entry, other: Entry): Entry {
    if other.d < mine.d then other else mine
  }

  predicate NotFarther(a: Entry, b: Entry) {
    a.d <= b.d
  }

  lemma NearerSelects()
    ensures Selects(Nearer, NotFarther)
  {
  }

  /** The second phase skips the inner window and every cell that cannot hold anything nearer than the pruning
      reference. */
  predicate Eligible(q: Vec, o: VoxelCoord, leaf: real, second: bool, pruneRef: real)
    requires leaf > 0.0
  {
    !second || (Norm(o) > INNER && SqGap(q, o, leaf) * Square(leaf) < pruneRef)
  }

  /** Squared distance to point j of the cloud. */
  function DistTo(cloud: Cloud, q: Vec, j: int): real {
    if 0 <= j < |cloud.points| then SqDist(q, cloud.points[j]) else 0.0
  }

  /** Nothing, or a point at its own distance, stored at an eligible offset of the window. */
  ghost predicate IsEligibleHit(e: Entry, cloud: Cloud, q: Vec, r: nat, second: bool, pruneRef: real, far: real)
    requires Indexed(cloud)
  {
    e == Entry(far, -1) ||
    (0 <= e.j < |cloud.points| && e.d == SqDist(q, cloud.points[e.j]) && exists o ::
     Norm(o) <= r && Eligible(q, o, cloud.leaf, second, pruneRef) && StoredAt(cloud, Cell(q, cloud.leaf), e.j, o))
  }

  /** Nothing, or a point of the window at its own distance. */
  ghost predicate IsHit(e: Entry, cloud: Cloud, q: Vec, r: nat, far: real)
    requires Indexed(cloud)
  {
    e == Entry(far, -1) ||
    (0 <= e.j < |cloud.points| && e.d == SqDist(q, cloud.points[e.j]) && exists o ::
     Norm(o) <= r && StoredAt(cloud, Cell(q, cloud.leaf), e.j, o))
  }

  /** `e` is no farther than any point at an eligible offset numbered below t in the lane. */
  ghost predicate BeatsLane(e: Entry, cloud: Cloud, q: Vec, r: nat, second: bool, pruneRef: real, lane: nat, t: int)
    requires Indexed(cloud)
  {
    forall i, j ::
      (0 <= i < t && InLane(i, lane) && Eligible(q, Decode(i, r), cloud.leaf, second, pruneRef)
       && StoredAt(cloud, Cell(q, cloud.leaf), j, Decode(i, r)))
      ==> e.d <= DistTo(cloud, q, j)
  }

  /** One lane's strided scan of a window. */
  method ScanLane(cloud: Cloud, view: View, q: Vec, r: nat, second: bool, pruneRef: real, lane: nat, far: real,
                  ghost built: State)
    returns (best: Entry)
    requires Indexed(cloud) && Serves(view, cloud, built) && lane < 32
    requires forall j :: 0 <= j < |cloud.points| ==> SqDist(q, cloud.points[j]) < far
    ensures IsEligibleHit(best, cloud, q, r, second, pruneRef, far)
    ensures BeatsLane(best, cloud, q, r, second, pruneRef, lane, Cells(r))
  {
    hide Decode, CoordKey, SqDist, SqGap, Norm, Cells, Square, Inv, Indexed, Cell;
    LeafPositive(cloud);
    var c := Cell(q, cloud.leaf);
    best := Entry(far, -1);
    var t := lane;
    while t < Cells(r)
      invariant lane <= t && InLane(t, lane)
      invariant IsEligibleHit(best, cloud, q, r, second, pruneRef, far)
      invariant BeatsLane(best, cloud, q, r, second, pruneRef, lane, t)
    {
      ghost var was := best;
      var o := Decode(t, r);
      EncodeDecode(t, r);
      if Eligible(q, o, cloud.leaf, second, pruneRef) {
        var j := Probe(cloud, view, CoordKey(Shift(c, o)), built);
        if j >= 0 {
          HitIsPoint(cloud, CoordKey(Shift(c, o)), j);
          assert StoredAt(cloud, c, j, o);
          best := Nearer(best, Entry(SqDist(q, cloud.points[j]), j));
        }
        ProbedCell(cloud, c, o, j);
      }
      LaneStep(was, best, cloud, q, r, second, pruneRef, lane, t);
      t := t + 32;
    }
  }

  lemma HitIsPoint(cloud: Cloud, key: nat, j: int)
    requires Indexed(cloud) && IsIndexOf(cloud.keys, key, j) && j >= 0
    ensures j < |cloud.points|
  {
  }

  /** A probe finds whatever is stored in the cell. */
  lemma ProbedCell(cloud: Cloud, c: VoxelCoord, o: VoxelCoord, j: int)
    requires Indexed(cloud) && IsIndexOf(cloud.keys, CoordKey(Shift(c, o)), j)
    ensures forall i :: StoredAt(cloud, c, i, o) ==> i == j
  {
    hide CoordKey;
    forall i | StoredAt(cloud, c, i, o)
      ensures i == j
    {
      assert cloud.keys[i] in cloud.keys;
      assert j != -1;
    }
  }

  lemma LaneStep(was: Entry, best: Entry, cloud: Cloud, q: Vec, r: nat, second: bool, pruneRef: real, lane: nat, t: nat)
    requires Indexed(cloud) && InLane(t, lane) && BeatsLane(was, cloud, q, r, second, pruneRef, lane, t)
      && best.d <= was.d
    requires Eligible(q, Decode(t, r), cloud.leaf, second, pruneRef) ==>
      forall j :: StoredAt(cloud, Cell(q, cloud.leaf), j, Decode(t, r)) ==> best.d <= DistTo(cloud, q, j)
    ensures BeatsLane(best, cloud, q, r, second, pruneRef, lane, t + 32)
  {
    hide Decode, DistTo, Eligible, StoredAt;
    forall i, j | 0 <= i < t + 32 && InLane(i, lane) && Eligible(q, Decode(i, r), cloud.leaf, second, pruneRef)
        && StoredAt(cloud, Cell(q, cloud.leaf), j, Decode(i, r))
      ensures best.d <= DistTo(cloud, q, j)
    {
      assert i < t || i == t;
    }
  }

  /** `e` is no farther than any point at an eligible offset of the window. */
  ghost predicate BeatsWindow(e: Entry, cloud: Cloud, q: Vec, r: nat, second: bool, pruneRef: real)
    requires Indexed(cloud)
  {
    forall o, j ::
      (Norm(o) <= r && Eligible(q, o, cloud.leaf, second, pruneRef) && StoredAt(cloud, Cell(q, cloud.leaf), j, o))
      ==> e.d <= DistTo(cloud, q, j)
  }

  /** All lanes scan a window, then the warp reduces. */
  method ScanWindow(cloud: Cloud, view: View, q: Vec, r: nat, second: bool, pruneRef: real, far: real,
                    ghost built: State) returns (e: Entry)
    requires Indexed(cloud) && Serves(view, cloud, built)
    requires forall j :: 0 <= j < |cloud.points| ==> SqDist(q, cloud.points[j]) < far
    ensures IsEligibleHit(e, cloud, q, r, second, pruneRef, far) && BeatsWindow(e, cloud, q, r, second, pruneRef)
  {
    hide SqDist, IsEligibleHit, BeatsLane, BeatsWindow, Serves, Indexed, Cells;
    var lanes: seq<Entry> := [];
    while |lanes| < 32
      invariant |lanes| <= 32
      invariant forall l :: 0 <= l < |lanes| ==> IsEligibleHit(lanes[l], cloud, q, r, second, pruneRef, far)
      invariant forall l :: 0 <= l < |lanes| ==> BeatsLane(lanes[l], cloud, q, r, second, pruneRef, l, Cells(r))
    {
      var best := ScanLane(cloud, view, q, r, second, pruneRef, |lanes|, far, built);
      lanes := lanes + [best];
    }
    NearerSelects();
    e := ReduceSelect(lanes, Nearer, NotFarther);
    JoinLanes(lanes, e, cloud, q, r, second, pruneRef);
  }

  lemma JoinLanes(lanes: seq<Entry>, e: Entry, cloud: Cloud, q: Vec, r: nat, second: bool, pruneRef: real)
    requires Indexed(cloud) && |lanes| == 32
    requires forall l :: 0 <= l < 32 ==> BeatsLane(lanes[l], cloud, q, r, second, pruneRef, l, Cells(r))
    requires forall l :: 0 <= l < 32 ==> NotFarther(e, lanes[l])
    ensures BeatsWindow(e, cloud, q, r, second, pruneRef)
  {
    hide DistTo, Decode, Encode, Eligible, StoredAt, Norm, Cells, Indexed, Cell;
    LeafPositive(cloud);
    forall o, j | Norm(o) <= r && Eligible(q, o, cloud.leaf, second, pruneRef)
      && StoredAt(cloud, Cell(q, cloud.leaf), j, o)
      ensures e.d <= DistTo(cloud, q, j)
    {
      DecodeEncode(o, r);
      var i := Encode(o, r);
      assert InLane(i, i % 32);
      assert BeatsLane(lanes[i % 32], cloud, q, r, second, pruneRef, i % 32, Cells(r));
    }
  }

  // ---------------------------------------------------------------- the two phases

  /** Point j lies in the window of r cells around the query's. */
  ghost predicate InWindow(cloud: Cloud, q: Vec, j: nat, r: nat)
    requires cloud.leaf > 0.0 && j < |cloud.points|
  {
    Norm(Offset(q, cloud.points[j], cloud.leaf)) <= r
  }

  /** Nothing is stored in the inner window. */
  ghost predicate InnerEmpty(cloud: Cloud, q: Vec)
    requires cloud.leaf > 0.0
  {
    forall j, o :: Norm(o) <= INNER ==> !StoredAt(cloud, Cell(q, cloud.leaf), j, o)
  }

  /** Point j is stored in a cell of the outer window that is nearer than the threshold. */
  ghost predicate InNearCell(cloud: Cloud, q: Vec, j: int, maxSqDist: real)
    requires cloud.leaf > 0.0
  {
    exists o :: Norm(o) <= OUTER && StoredAt(cloud, Cell(q, cloud.leaf), j, o)
      && SqGap(q, o, cloud.leaf) * Square(cloud.leaf) < maxSqDist
  }

  /** Point j is nearer than the threshold, and either lies in the outer window or the threshold is at most four
      cells. */
  ghost predicate InScope(cloud: Cloud, q: Vec, j: nat, maxSqDist: real)
    requires cloud.leaf > 0.0 && j < |cloud.points|
  {
    && SqDist(q, cloud.points[j]) < maxSqDist
    && (InWindow(cloud, q, j, OUTER) || maxSqDist <= Square(4.0 * cloud.leaf))
  }

  /** The query's correspondence candidate: point and squared distance, or -1. `maxSqDist` is only the pruning reference
      here. */
  method FindNearest(cloud: Cloud, view: View, q: Vec, maxSqDist: real, far: real, ghost built: State)
    returns (e: Entry)
    requires Indexed(cloud) && Serves(view, cloud, built)
    requires forall j :: 0 <= j < |cloud.points| ==> SqDist(q, cloud.points[j]) < far
    ensures !InRange(Cell(q, cloud.leaf)) ==> e == Entry(0.0, -1)
    ensures InRange(Cell(q, cloud.leaf)) ==> IsHit(e, cloud, q, OUTER, far)
    // Every point of the inner window is matched or beaten, and every point nearer than the threshold that lies in the
    // outer window, or anywhere when the threshold does not exceed four cells.
    ensures InRange(Cell(q, cloud.leaf)) ==> forall j :: 0 <= j < |cloud.points| && InWindow(cloud, q, j, INNER) ==>
      e.d <= SqDist(q, cloud.points[j])
    ensures InRange(Cell(q, cloud.leaf)) ==>
      forall j :: 0 <= j < |cloud.points| && InScope(cloud, q, j, maxSqDist) ==> e.d <= SqDist(q, cloud.points[j])
    // With an empty inner window only cells nearer than the threshold are looked at.
    ensures InRange(Cell(q, cloud.leaf)) && 0 <= e.j && InnerEmpty(cloud, q) ==> InNearCell(cloud, q, e.j, maxSqDist)
  {
    hide SqDist, Square, BeatsWindow, Serves, Indexed, SqGap, CoordKey, KeyCoord, Cell, InRange, VoxelKey, InWindow,
      InScope, StoredAt;
    LeafPositive(cloud);
    KeyOfQuery(q, cloud.leaf);
    var qkey := VoxelKey(q, cloud.leaf);
    if qkey == INVALID_KEY {
      return Entry(0.0, -1);
    }
    var inner := ScanWindow(cloud, view, q, INNER, false, 0.0, far, built);
    e := inner;
    if inner.j < 0 || inner.d > 4.0 * Square(cloud.leaf) {
      var pruneRef := if inner.j >= 0 then inner.d else maxSqDist;
      var outer := ScanWindow(cloud, view, q, OUTER, true, pruneRef, far, built);
      if outer.j >= 0 && outer.d < inner.d {
        e := outer;
      }
      BothPhasesCover(cloud, q, inner, outer, e, pruneRef, maxSqDist, far);
    } else {
      FirstPhaseCovers(cloud, q, inner);
    }
  }

  /** The packed key of a query in range unpacks to its cell; out of range it is the invalid key. */
  lemma KeyOfQuery(q: Vec, leaf: real)
    requires leaf > 0.0
    ensures VoxelKey(q, leaf) == INVALID_KEY <==> !InRange(Cell(q, leaf))
    ensures InRange(Cell(q, leaf)) ==> KeyCoord(VoxelKey(q, leaf)) == Cell(q, leaf)
  {
    hide CoordKey, KeyCoord, Cell, InRange;
    PackThenUnpack(Cell(q, leaf));
  }

  lemma Reach(leaf: real, f: real, n: real, reach: real, bound: real)
    requires leaf > 0.0 && f >= 0.0 && n >= 0.0 && reach == n * leaf && bound == (f + n) * leaf
    ensures Square(reach) <= Square(bound)
  {
    hide Square;
    ProductMonotone(n, f + n, leaf, leaf);
    ProductMonotone(0.0, n, leaf, leaf);
    SquareMonotone(reach, bound);
  }

  lemma ShellReach(q: Vec, n: nat, leaf: real, reach: real)
    requires leaf > 0.0 && reach == n as real * leaf
    ensures Square(reach) <= Square(ShellBound(q, n, leaf))
  {
    hide Square, FracMin;
    Reach(leaf, FracMin(q, leaf), n as real, reach, ShellBound(q, n, leaf));
  }

  /** Points beyond n cells are at least n cells away. */
  lemma BeyondCells(cloud: Cloud, q: Vec, j: nat, n: nat, reach: real)
    requires Indexed(cloud) && j < |cloud.points| && Norm(Offset(q, cloud.points[j], cloud.leaf)) > n
      && reach == n as real * cloud.leaf
    ensures Square(reach) <= SqDist(q, cloud.points[j])
  {
    hide Square, SqDist, Norm, Offset, ShellBound, Indexed, FracMin;
    LeafPositive(cloud);
    ShellReach(q, n, cloud.leaf, reach);
    OutsideCube(q, cloud.points[j], n, cloud.leaf);
  }

  lemma FourSquares(leaf: real)
    ensures Square(2.0 * leaf) == 4.0 * Square(leaf)
  {
  }

  /** A first-phase best within two cells is the nearest of the whole cloud. */
  lemma FirstPhaseCovers(cloud: Cloud, q: Vec, inner: Entry)
    requires Indexed(cloud) && BeatsWindow(inner, cloud, q, INNER, false, 0.0) && inner.d <= 4.0 * Square(cloud.leaf)
    ensures forall j :: 0 <= j < |cloud.points| ==> inner.d <= SqDist(q, cloud.points[j])
  {
    hide Square, SqDist, Norm, Offset, Indexed, StoredAt, Cell;
    LeafPositive(cloud);
    FourSquares(cloud.leaf);
    forall j | 0 <= j < |cloud.points|
      ensures inner.d <= SqDist(q, cloud.points[j])
    {
      StoredAtTrueOffset(cloud, q, j);
      if Norm(Offset(q, cloud.points[j], cloud.leaf)) > 2 {
        BeyondCells(cloud, q, j, 2, 2.0 * cloud.leaf);
      }
    }
  }

  /** Neither the pruned cells nor, up to a threshold of four cells, those beyond the outer window lose a point below
      the threshold, and nothing in the inner window is lost at all. */
  lemma BothPhasesCover(cloud: Cloud, q: Vec, inner: Entry, outer: Entry, e: Entry, pruneRef: real, maxSqDist: real,
                        far: real)
    requires Indexed(cloud) && cloud.leaf > 0.0
    requires BeatsWindow(inner, cloud, q, INNER, false, 0.0) && BeatsWindow(outer, cloud, q, OUTER, true, pruneRef)
    requires pruneRef == if inner.j >= 0 then inner.d else maxSqDist
    requires inner.j < 0 ==> inner.d == far
    requires outer.j < 0 ==> outer.d == far
    requires e == if outer.j >= 0 && outer.d < inner.d then outer else inner
    requires forall j :: 0 <= j < |cloud.points| ==> SqDist(q, cloud.points[j]) < far
    ensures forall j :: 0 <= j < |cloud.points| && InWindow(cloud, q, j, INNER) ==> e.d <= SqDist(q, cloud.points[j])
    ensures forall j :: 0 <= j < |cloud.points| && InScope(cloud, q, j, maxSqDist) ==>
      e.d <= SqDist(q, cloud.points[j])
  {
    hide SqDist, Square, BeatsWindow, Indexed, InWindow, InScope;
    forall j | 0 <= j < |cloud.points| && InWindow(cloud, q, j, INNER)
      ensures e.d <= SqDist(q, cloud.points[j])
    {
      InnerCovered(cloud, q, inner, j);
    }
    forall j | 0 <= j < |cloud.points| && InScope(cloud, q, j, maxSqDist)
      ensures e.d <= SqDist(q, cloud.points[j])
    {
      PointCovered(cloud, q, inner, outer, pruneRef, maxSqDist, j);
    }
  }

  lemma InnerCovered(cloud: Cloud, q: Vec, inner: Entry, j: nat)
    requires Indexed(cloud) && BeatsWindow(inner, cloud, q, INNER, false, 0.0) && cloud.leaf > 0.0
    requires j < |cloud.points| && InWindow(cloud, q, j, INNER)
    ensures inner.d <= SqDist(q, cloud.points[j])
  {
    hide SqDist, Norm, Offset, Indexed, StoredAt, Cell;
    StoredAtTrueOffset(cloud, q, j);
  }

  lemma PointCovered(cloud: Cloud, q: Vec, inner: Entry, outer: Entry, pruneRef: real, maxSqDist: real, j: nat)
    requires Indexed(cloud) && cloud.leaf > 0.0 && j < |cloud.points| && InScope(cloud, q, j, maxSqDist)
    requires BeatsWindow(inner, cloud, q, INNER, false, 0.0) && BeatsWindow(outer, cloud, q, OUTER, true, pruneRef)
    ensures SqDist(q, cloud.points[j]) < maxSqDist
    ensures inner.d <= SqDist(q, cloud.points[j]) || outer.d <= SqDist(q, cloud.points[j])
      || pruneRef <= SqDist(q, cloud.points[j])
  {
    hide Square, SqDist, Norm, Offset, SqGap, Indexed, StoredAt, Cell;
    var o := Offset(q, cloud.points[j], cloud.leaf);
    StoredAtTrueOffset(cloud, q, j);
    if Norm(o) > OUTER {
      BeyondCells(cloud, q, j, 4, 4.0 * cloud.leaf);
    } else if Norm(o) > INNER {
      CellGapBoundsDistance(q, cloud.points[j], cloud.leaf);
    }
  }

  // ---------------------------------------------------------------- acceptance

  /** e is a nearest point of the cloud. */
  ghost predicate IsNearest(e: Entry, points: seq<Vec>, q: Vec) {
    0 <= e.j < |points| && e.d == SqDist(q, points[e.j]) && forall j :: 0 <= j < |points| ==>
      e.d <= SqDist(q, points[j])
  }

  /** Some point in the inner window is within the threshold, or some point in scope is nearer than it. */
  ghost predicate Matchable(cloud: Cloud, q: Vec, maxSqDist: real)
    requires cloud.leaf > 0.0
  {
    exists j :: 0 <= j < |cloud.points| &&
      (InScope(cloud, q, j, maxSqDist) || (InWindow(cloud, q, j, INNER) && SqDist(q, cloud.points[j]) <= maxSqDist))
  }

  /** The search followed by the distance test, for any threshold. A match is a stored point of the outer window within
      the threshold, no farther than any point in scope;
        a query in range is matched whenever something is matchable. With
      a threshold of at most four cells the match is a nearest point of the cloud. */
  method Correspond(cloud: Cloud, view: View, q: Vec, maxSqDist: real, far: real, ghost built: State)
    returns (accepted: bool, e: Entry)
    requires Indexed(cloud) && Serves(view, cloud, built)
    requires maxSqDist < far && forall j :: 0 <= j < |cloud.points| ==> SqDist(q, cloud.points[j]) < far
    ensures cloud.leaf > 0.0
    ensures accepted ==> InRange(Cell(q, cloud.leaf)) && IsHit(e, cloud, q, OUTER, far) && 0 <= e.j && e.d <= maxSqDist
    ensures accepted ==>
      forall j :: 0 <= j < |cloud.points| && InScope(cloud, q, j, maxSqDist) ==> e.d <= SqDist(q, cloud.points[j])
    ensures InRange(Cell(q, cloud.leaf)) && Matchable(cloud, q, maxSqDist) ==> accepted
    ensures maxSqDist <= Square(4.0 * cloud.leaf) ==>
      && (accepted ==> IsNearest(e, cloud.points, q))
      && (InRange(Cell(q, cloud.leaf))
          && (exists j :: 0 <= j < |cloud.points| && SqDist(q, cloud.points[j]) < maxSqDist)
          ==> accepted)
  {
    hide SqDist, Square, Serves, Indexed, InRange, Cell, InWindow, InnerEmpty, InNearCell;
    LeafPositive(cloud);
    e := FindNearest(cloud, view, q, maxSqDist, far, built);
    accepted := e.j >= 0 && e.d <= maxSqDist;
  }

  /** The four-cell limit is exact: for every larger threshold there is a cloud with a point below the threshold for
      which everything that the search may return is a miss. */
  lemma WindowTooSmallBeyondFourCells(leaf: real, maxSqDist: real) returns (cloud: Cloud, q: Vec)
    requires leaf > 0.0 && maxSqDist > Square(4.0 * leaf)
    ensures Indexed(cloud) && cloud.leaf == leaf && |cloud.points| == 1 && InRange(Cell(q, leaf))
    ensures SqDist(q, cloud.points[0]) < maxSqDist
    ensures forall e, far {:trigger IsHit(e, cloud, q, OUTER, far)} :: IsHit(e, cloud, q, OUTER, far) ==>
      e == Entry(far, -1)
  {
    hide CoordKey, SqDist, Square, Cell, AxisPoint;
    SixteenSquares(leaf);
    var step := Margin(leaf, maxSqDist);
    q := AxisPoint(1.0 - step, leaf);
    var p := AxisPoint(5.0, leaf);
    AxisPointCell(1.0 - step, leaf, 0);
    AxisPointCell(5.0, leaf, 5);
    AxisPointDistance(1.0 - step, 5.0, leaf, 4.0 + step);
    cloud := Cloud([p], [CoordKey(VoxelCoord(5, 0, 0))], leaf);
    assert Norm(VoxelCoord(5, 0, 0)) == 5;
    hide Norm;
    OutOfReach(cloud, Cell(q, leaf), VoxelCoord(5, 0, 0));
  }

  /** A point stored beyond the outer window is not stored inside it as well. */
  lemma OutOfReach(cloud: Cloud, c: VoxelCoord, far: VoxelCoord)
    requires StoredAt(cloud, c, 0, far) && OUTER < Norm(far) <= 1000
    ensures forall o :: Norm(o) <= OUTER ==> !StoredAt(cloud, c, 0, o)
  {
    hide StoredAt, Norm;
    forall o | Norm(o) <= OUTER
      ensures !StoredAt(cloud, c, 0, o)
    {
      if StoredAt(cloud, c, 0, o) {
        StoredAtOneOffset(cloud, c, 0, o, far);
      }
    }
  }

  /** A point on the x axis, in cell units. */
  function AxisPoint(u: real, leaf: real): Vec {
    Vec(u * leaf, 0.0, 0.0)
  }

  lemma AxisPointCell(u: real, leaf: real, n: nat)
    requires leaf > 0.0 && n as real <= u < n as real + 1.0
    ensures Cell(AxisPoint(u, leaf), leaf) == VoxelCoord(n, 0, 0)
  {
    DivideBack(u, leaf);
    DivideBack(0.0, leaf);
  }

  lemma DivideBack(u: real, leaf: real)
    requires leaf > 0.0
    ensures u * leaf / leaf == u
  {
  }

  lemma AxisPointDistance(u: real, w: real, leaf: real, d: real)
    requires w - u == d
    ensures SqDist(AxisPoint(u, leaf), AxisPoint(w, leaf)) == Square(d) * Square(leaf)
  {
    assert u * leaf - w * leaf == -(d * leaf);
    assert (d * leaf) * (d * leaf) == (d * d) * (leaf * leaf);
  }

  lemma SquareIsPositive(a: real)
    requires a > 0.0
    ensures Square(a) > 0.0
  {
    assert Square(a) / a == a;
  }

  lemma SixteenSquares(leaf: real)
    ensures Square(4.0 * leaf) == 16.0 * Square(leaf)
  {
  }

  /** A margin by which four cells can be exceeded while staying below the threshold. */
  lemma Margin(leaf: real, maxSqDist: real) returns (step: real)
    requires leaf > 0.0 && maxSqDist > 16.0 * Square(leaf)
    ensures 0.0 < step <= 1.0 && Square(4.0 + step) * Square(leaf) < maxSqDist
  {
    hide Square;
    var ll := Square(leaf);
    SquareIsPositive(leaf);
    var excess := Quotient(maxSqDist - 16.0 * ll, ll);
    step := if excess < 10.0 then excess / 10.0 else 1.0;
    MarginFits(step, excess, ll, maxSqDist);
  }

  lemma Quotient(a: real, b: real) returns (q: real)
    requires a > 0.0 && b > 0.0
    ensures q > 0.0 && q * b == a
  {
    q := a / b;
  }

  lemma MarginFits(step: real, excess: real, ll: real, max: real)
    requires 0.0 < step <= 1.0 && 10.0 * step <= excess && ll > 0.0 && excess * ll == max - 16.0 * ll
    ensures Square(4.0 + step) * ll < max
  {
    assert step * step <= step;
    assert Square(4.0 + step) == 16.0 + 8.0 * step + step * step;
    var slack := 16.0 + excess - Square(4.0 + step);
    assert slack > 0.0;
    assert slack * ll > 0.0;
    assert slack * ll == 16.0 * ll + excess * ll - Square(4.0 + step) * ll;
  }
}
