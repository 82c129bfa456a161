/** The two passes that select the neighbours of every point for its covariance. */
module CovarianceNeighbors {
  import opened Collections
  import opened Geometry
  import opened Voxels
  import opened KNearest
  import opened HashIndex
  import opened IndexedCloud
  import opened WarpReduce
  import opened ShellSearch

  const BF_MAX_POINTS: nat := 8192

  // ---------------------------------------------------------------- what the list of a cube is worth

  /** The distances of all points of the cloud. */
  ghost function All(cloud: Cloud, q: Vec): map<int, real> {
    DistanceMap(cloud.points, q, Below(|cloud.points|))
  }

  /** The distances of the points stored in the cube of s shells. */
  ghost function InCube(cloud: Cloud, q: Vec, s: nat): map<int, real>
    requires cloud.leaf > 0.0
  {
    DistanceMap(cloud.points, q, Reached(cloud, Cell(q, cloud.leaf), s))
  }

  /** At a given shell the list depends on the cloud, the query and k alone, not on the order in which its cells were
      processed. */
  lemma OrderIndependent(cloud: Cloud, q: Vec, r: seq<Entry>, r': seq<Entry>, k: nat, s: nat)
    requires cloud.leaf > 0.0 && IsKNearest(r, InCube(cloud, q, s), k, true)
      && IsKNearest(r', InCube(cloud, q, s), k, true)
    ensures r == r'
  {
    KNearestUnique(r, r', InCube(cloud, q, s), k, true);
  }

  /** Every point not stored in the cube has k points of the cube no farther than itself. */
  ghost predicate CubeSuffices(cloud: Cloud, q: Vec, k: nat, s: nat)
    requires cloud.leaf > 0.0
  {
    forall j :: 0 <= j < |cloud.points| && j !in Reached(cloud, Cell(q, cloud.leaf), s) ==>
      |Within(InCube(cloud, q, s), SqDist(q, cloud.points[j]))| >= k
  }

  lemma CubeIsPart(cloud: Cloud, q: Vec, s: nat)
    requires cloud.leaf > 0.0
    ensures Part(InCube(cloud, q, s), All(cloud, q))
    ensures forall j :: j in All(cloud, q) && j !in InCube(cloud, q, s) <==>
      0 <= j < |cloud.points| && j !in Reached(cloud, Cell(q, cloud.leaf), s)
    ensures forall j :: 0 <= j < |cloud.points| ==> All(cloud, q)[j] == SqDist(q, cloud.points[j])
  {
    hide SqDist, InReach, Cell;
  }

  /** The k nearest of the cube have the distances of the k nearest of the cloud exactly when the cube suffices. */
  lemma CubeListIsExact(cloud: Cloud, q: Vec, r: seq<Entry>, k: nat, s: nat)
    requires cloud.leaf > 0.0 && 0 < k && IsKNearest(r, InCube(cloud, q, s), k, true)
    ensures IsKNearest(r, All(cloud, q), k, false) <==> CubeSuffices(cloud, q, k, s)
  {
    hide SqDist, InReach, Cell, IsKNearest, Within, All, InCube, Reached;
    CubeIsPart(cloud, q, s);
    PartSuffices(r, InCube(cloud, q, s), All(cloud, q), k, true);
    forall j | 0 <= j < |cloud.points|
      ensures j in All(cloud, q)
    {
      InAll(cloud, q, j);
    }
  }

  lemma InAll(cloud: Cloud, q: Vec, j: int)
    requires 0 <= j < |cloud.points|
    ensures j in All(cloud, q)
  {
    hide SqDist;
  }

  /** When the bound fires the cube suffices. */
  lemma FiringSuffices(cloud: Cloud, q: Vec, k: nat, s: nat)
    requires Indexed(cloud) && s <= MAX_SHELL && cloud.leaf > 0.0 && Fires(cloud, q, k, s)
    ensures CubeSuffices(cloud, q, k, s)
  {
    hide SqDist, Square, ShellBound, InReach, Cell, Inside, Indexed, InCube, Reached, Norm, Offset;
    var m, b := InCube(cloud, q, s), Square(ShellBound(q, s, cloud.leaf));
    CubeFires(cloud, q, k, s);
    forall j | 0 <= j < |cloud.points| && j !in Reached(cloud, Cell(q, cloud.leaf), s)
      ensures |Within(m, SqDist(q, cloud.points[j]))| >= k
    {
      NotReached(cloud, q, s, j);
      assert Within(m, b) <= Within(m, SqDist(q, cloud.points[j]));
      SubsetCardinality(Within(m, b), Within(m, SqDist(q, cloud.points[j])));
    }
  }

  lemma CubeFires(cloud: Cloud, q: Vec, k: nat, s: nat)
    requires Indexed(cloud) && s <= MAX_SHELL && cloud.leaf > 0.0 && Fires(cloud, q, k, s)
    ensures |Within(InCube(cloud, q, s), Square(ShellBound(q, s, cloud.leaf)))| >= k
  {
    hide SqDist, Square, ShellBound, InReach, Cell, Inside, Indexed, Within, Reached;
    InsideIsWithin(cloud, q, s);
  }

  lemma NotReached(cloud: Cloud, q: Vec, s: nat, j: int)
    requires Indexed(cloud) && cloud.leaf > 0.0 && 0 <= j < |cloud.points|
      && j !in Reached(cloud, Cell(q, cloud.leaf), s)
    ensures Norm(Offset(q, cloud.points[j], cloud.leaf)) > s
      && Square(ShellBound(q, s, cloud.leaf)) <= SqDist(q, cloud.points[j])
  {
    hide SqDist, Square, ShellBound, InReach, Cell, Indexed, Norm, Offset;
    UnreachedIsOutside(cloud, q, s, j);
  }

  // ---------------------------------------------------------------- ties at the bound

  /** A point outside the cube, exactly as far away as its nearest face, is among the k nearest in (distance, index)
      order. */
  ghost predicate TiedOutside(cloud: Cloud, q: Vec, k: nat, s: nat)
    requires cloud.leaf > 0.0
  {
    exists j :: 0 <= j < |cloud.points| && TiesOutside(cloud, q, k, s, j)
  }

  ghost predicate TiesOutside(cloud: Cloud, q: Vec, k: nat, s: nat, j: nat)
    requires cloud.leaf > 0.0 && j < |cloud.points|
  {
    && Norm(Offset(q, cloud.points[j], cloud.leaf)) > s
    && SqDist(q, cloud.points[j]) == Square(ShellBound(q, s, cloud.leaf))
    && |Ahead(All(cloud, q), Entry(SqDist(q, cloud.points[j]), j))| < k
  }

  /** When the bound fires, the list is that of the cloud in (distance, index) order exactly when no such point
      exists. */
  lemma FiredListIsLexExact(cloud: Cloud, q: Vec, r: seq<Entry>, k: nat, s: nat)
    requires Indexed(cloud) && s <= MAX_SHELL && cloud.leaf > 0.0 && 0 < k
    requires IsKNearest(r, InCube(cloud, q, s), k, true) && Fires(cloud, q, k, s)
    ensures IsKNearest(r, All(cloud, q), k, true) <==> !TiedOutside(cloud, q, k, s)
  {
    hide SqDist, Square, ShellBound, Norm, Offset, InReach, Cell, IsKNearest, Ahead, All, InCube, Reached, Indexed,
      Fires;
    CubeIsPart(cloud, q, s);
    PartSufficesLex(r, InCube(cloud, q, s), All(cloud, q), k);
    forall j | 0 <= j < |cloud.points|
      ensures j in All(cloud, q)
      ensures j !in Reached(cloud, Cell(q, cloud.leaf), s) && |Ahead(All(cloud, q), Entry(All(cloud, q)[j], j))| < k
        <==> TiesOutside(cloud, q, k, s, j)
    {
      InAll(cloud, q, j);
      OnlyTiesFail(cloud, q, k, s, j);
    }
  }

  lemma OnlyTiesFail(cloud: Cloud, q: Vec, k: nat, s: nat, j: nat)
    requires Indexed(cloud) && s <= MAX_SHELL && cloud.leaf > 0.0 && Fires(cloud, q, k, s) && j < |cloud.points|
    ensures j !in Reached(cloud, Cell(q, cloud.leaf), s)
      && |Ahead(All(cloud, q), Entry(SqDist(q, cloud.points[j]), j))| < k
      <==> TiesOutside(cloud, q, k, s, j)
  {
    hide SqDist, Square, ShellBound, Norm, Offset, InReach, Cell, Ahead, All, Indexed, Fires;
    var d, b := SqDist(q, cloud.points[j]), Square(ShellBound(q, s, cloud.leaf));
    if j !in Reached(cloud, Cell(q, cloud.leaf), s) {
      NotReached(cloud, q, s, j);
      if d > b {
        InsideIsAhead(cloud, q, k, s, j);
      }
    }
    if d <= b {
      ReachIsCube(cloud, q, j, s);
    }
  }

  lemma InsideIsAhead(cloud: Cloud, q: Vec, k: nat, s: nat, j: nat)
    requires cloud.leaf > 0.0 && Fires(cloud, q, k, s) && j < |cloud.points|
    requires SqDist(q, cloud.points[j]) > Square(ShellBound(q, s, cloud.leaf))
    ensures |Ahead(All(cloud, q), Entry(SqDist(q, cloud.points[j]), j))| >= k
  {
    hide SqDist, Square, ShellBound, Norm, Offset;
    var ahead := Ahead(All(cloud, q), Entry(SqDist(q, cloud.points[j]), j));
    assert Inside(cloud, q, s) <= ahead;
    SubsetCardinality(Inside(cloud, q, s), ahead);
  }

  // ---------------------------------------------------------------- the brute-force pass

  /** The listed indices are the k nearest candidates, in order. */
  ghost predicate AreKNearest(idx: seq<int>, m: map<int, real>, k: nat, lex: bool) {
    && (forall a :: 0 <= a < |idx| ==> idx[a] in m)
    && IsKNearest(seq(|idx|, a requires 0 <= a < |idx| && idx[a] in m => Entry(m[idx[a]], idx[a])), m, k, lex)
  }

  lemma IndicesOfEntries(idx: seq<int>, r: seq<Entry>, m: map<int, real>, k: nat, lex: bool)
    requires IsKNearest(r, m, k, lex) && |idx| == |r| && forall a :: 0 <= a < |idx| ==> idx[a] == r[a].j
    ensures AreKNearest(idx, m, k, lex)
  {
    forall a | 0 <= a < |idx|
      ensures idx[a] in m && r[a] == Entry(m[idx[a]], idx[a])
    {
      assert r[a] in r;
    }
    assert r == seq(|idx|, a requires 0 <= a < |idx| && idx[a] in m => Entry(m[idx[a]], idx[a]));
  }

  /** Replacement test of a scan or reduction; index -1 means nothing found yet. */
  predicate Better(a: Entry, b: Entry) {
    a.d < b.d || (a.d == b.d && (b.j < 0 || 0 <= a.j < b.j))
  }

  function Keep(mine: Entry, other: Entry): Entry {
    if Better(other, mine) then other else mine
  }

  predicate NoWorse(a: Entry, b: Entry) {
    a.d < b.d || (a.d == b.d && (b.j < 0 || 0 <= a.j <= b.j))
  }

  lemma KeepSelects()
    ensures Selects(Keep, NoWorse)
  {
  }

  /** `e` is the first point of the lanes in `from` behind `last` in (distance, index) order, or (far, -1) when there is
      none. */
  ghost predicate IsNext(e: Entry, m: map<int, real>, from: set<int>, last: Entry, far: real) {
    && (forall j :: j in from && j in m && Before(last, Entry(m[j], j), true) ==> NoWorse(e, Entry(m[j], j)))
    && (e == Entry(far, -1) || (e.j in m && e.j in from && e.j >= 0 && e.d == m[e.j] && Before(last, e, true)))
  }

  /** The points a lane has scanned up to index j. */
  ghost function LanePoints(lane: nat, j: nat): set<int> {
    set i | 0 <= i < j && InLane(i, lane)
  }

  /** One lane's strided scan. */
  method ScanLane(points: seq<Vec>, q: Vec, lane: nat, last: Entry, far: real) returns (best: Entry)
    requires lane < 32 && forall j :: 0 <= j < |points| ==> SqDist(q, points[j]) < far
    ensures IsNext(best, DistanceMap(points, q, Below(|points|)), LanePoints(lane, |points|), last, far)
  {
    hide SqDist;
    best := Entry(far, -1);
    ghost var m := DistanceMap(points, q, Below(|points|));
    var j := lane;
    while j < |points|
      invariant lane <= j && (j - lane) % 32 == 0
      invariant IsNext(best, m, LanePoints(lane, if j < |points| then j else |points|), last, far)
    {
      var e := Entry(SqDist(q, points[j]), j);
      assert m[j] == e.d;
      LaneStep(lane, j, |points|);
      if Before(last, e, true) && Better(e, best) {
        best := e;
      }
      j := j + 32;
    }
  }

  lemma LaneStep(lane: nat, j: nat, n: nat)
    requires lane <= j < n && (j - lane) % 32 == 0
    ensures LanePoints(lane, if j + 32 < n then j + 32 else n) == LanePoints(lane, j) + {j}
  {
    assert InLane(j, lane);
    assert forall i :: j < i < j + 32 ==> !InLane(i, lane);
  }

  /** The lanes together scan every point. */
  lemma LanesCover(n: nat, j: nat)
    requires j < n
    ensures j in LanePoints(j % 32, n)
  {
    assert InLane(j, j % 32);
  }

  /** One round: all lanes scan, then the warp reduces to the next neighbour in (distance, index) order. */
  method SelectNext(points: seq<Vec>, q: Vec, last: Entry, far: real) returns (t: Entry)
    requires forall j :: 0 <= j < |points| ==> SqDist(q, points[j]) < far
    ensures IsNext(t, DistanceMap(points, q, Below(|points|)), Below(|points|), last, far)
  {
    hide SqDist;
    ghost var m := DistanceMap(points, q, Below(|points|));
    var lanes: seq<Entry> := [];
    while |lanes| < 32
      invariant |lanes| <= 32
      invariant forall l :: 0 <= l < |lanes| ==> IsNext(lanes[l], m, LanePoints(l, |points|), last, far)
    {
      var best := ScanLane(points, q, |lanes|, last, far);
      lanes := lanes + [best];
    }
    KeepSelects();
    t := ReduceSelect(lanes, Keep, NoWorse);
    JoinLanes(lanes, t, m, |points|, last, far);
  }

  lemma JoinLanes(lanes: seq<Entry>, t: Entry, m: map<int, real>, n: nat, last: Entry, far: real)
    requires |lanes| == 32 && forall l :: 0 <= l < 32 ==> IsNext(lanes[l], m, LanePoints(l, n), last, far)
    requires t in lanes && forall l :: 0 <= l < 32 ==> NoWorse(t, lanes[l])
    ensures IsNext(t, m, Below(n), last, far)
  {
    forall j | j in Below(n) && j in m && Before(last, Entry(m[j], j), true)
      ensures NoWorse(t, Entry(m[j], j))
    {
      LanesCover(n, j);
      assert IsNext(lanes[j % 32], m, LanePoints(j % 32, n), last, far);
    }
  }

  /** The list so far is the k nearest for its own length; appending the next point extends it. */
  lemma AppendNext(r: seq<Entry>, m: map<int, real>, n: nat, e: Entry, far: real)
    requires IsKNearest(r, m, |r|, true) && m.Keys == Below(n) && (forall j :: j in m ==> m[j] >= 0.0)
    requires e.j >= 0 && IsNext(e, m, Below(n), if |r| > 0 then r[|r| - 1] else Entry(-1.0, -1), far)
    ensures IsKNearest(r + [e], m, |r| + 1, true)
  {
    var s, last := r + [e], if |r| > 0 then r[|r| - 1] else Entry(-1.0, -1);
    forall a | 0 <= a < |r|
      ensures Before(r[a], e, true)
    {
      LastIsLast(r, r[a], true);
    }
    forall j, x | j in m && !Has(s, j) && x in s
      ensures !Before(Entry(m[j], j), x, true)
    {
      assert !Has(r, j) by {
        assert forall y :: y in r ==> y in s;
      }
      NotListedIsBehind(r, m, j);
      if x !in r {
        assert x == e;
      } else {
        var a :| 0 <= a < |r| && r[a] == x;
        assert x in r;
      }
    }
  }

  lemma NotListedIsBehind(r: seq<Entry>, m: map<int, real>, j: int)
    requires IsKNearest(r, m, |r|, true) && j in m && m[j] >= 0.0
    ensures Has(r, j) || Before(if |r| > 0 then r[|r| - 1] else Entry(-1.0, -1), Entry(m[j], j), true)
  {
    if |r| > 0 {
      assert r[|r| - 1] in r;
    }
  }

  /** When no point is left behind the last one, the list holds them all. */
  lemma NothingLeft(r: seq<Entry>, m: map<int, real>, n: nat, k: nat, far: real)
    requires IsKNearest(r, m, |r|, true) && m.Keys == Below(n) && |r| <= k
    requires forall j :: j in m ==> 0.0 <= m[j] < far
    requires IsNext(Entry(far, -1), m, Below(n), if |r| > 0 then r[|r| - 1] else Entry(-1.0, -1), far)
    ensures IsKNearest(r, m, k, true)
  {
    forall j | j in m
      ensures Has(r, j)
    {
      NotListedIsBehind(r, m, j);
      assert !NoWorse(Entry(far, -1), Entry(m[j], j));
    }
  }

  /** k rounds, each selecting the next neighbour: the k nearest of the whole cloud in (distance, index) order. */
  method BruteForce(points: seq<Vec>, q: Vec, k: nat, far: real) returns (sel: seq<int>)
    requires forall j :: 0 <= j < |points| ==> SqDist(q, points[j]) < far
    ensures AreKNearest(sel, DistanceMap(points, q, Below(|points|)), k, true)
  {
    hide SqDist, AreKNearest;
    ghost var m := DistanceMap(points, q, Below(|points|));
    ghost var r: seq<Entry> := [];
    var last := Entry(-1.0, -1);
    sel := [];
    while |sel| < k
      invariant |sel| == |r| <= k && forall a :: 0 <= a < |sel| ==> sel[a] == r[a].j
      invariant IsKNearest(r, m, |r|, true) && last == if |r| > 0 then r[|r| - 1] else Entry(-1.0, -1)
    {
      last := SelectNext(points, q, last, far);
      if last.j < 0 {
        NothingLeft(r, m, |points|, k, far);
        break;
      }
      AppendNext(r, m, |points|, last, far);
      sel, r := sel + [last.j], r + [last];
    }
    IndicesOfEntries(sel, r, m, k, true);
  }

  lemma LexOrPlain(idx: seq<int>, m: map<int, real>, k: nat)
    requires AreKNearest(idx, m, k, true)
    ensures AreKNearest(idx, m, k, false)
  {
    LexIsPlain(seq(|idx|, a requires 0 <= a < |idx| && idx[a] in m => Entry(m[idx[a]], idx[a])), m, k);
  }

  // ---------------------------------------------------------------- both passes

  /** What the indices read off the list of a cube are worth. */
  lemma CubeIndices(cloud: Cloud, q: Vec, idx: seq<int>, r: seq<Entry>, k: nat, s: nat)
    requires Indexed(cloud) && cloud.leaf > 0.0 && s <= MAX_SHELL && 0 < k
      && IsKNearest(r, InCube(cloud, q, s), k, true)
    requires |idx| == |r| && forall a :: 0 <= a < |idx| ==> idx[a] == r[a].j
    ensures AreKNearest(idx, InCube(cloud, q, s), k, true)
    ensures AreKNearest(idx, All(cloud, q), k, false) <==> CubeSuffices(cloud, q, k, s)
    ensures Fires(cloud, q, k, s) ==> |r| == k && CubeSuffices(cloud, q, k, s)
    ensures Fires(cloud, q, k, s) ==> (AreKNearest(idx, All(cloud, q), k, true) <==> !TiedOutside(cloud, q, k, s))
  {
    hide SqDist, IsKNearest, AreKNearest, All, InCube, Reached, Indexed, Fires, CubeSuffices, TiedOutside, Cell, Square,
      ShellBound;
    CubeIsPart(cloud, q, s);
    IndicesOfEntries(idx, r, InCube(cloud, q, s), k, true);
    SameEntries(idx, r, InCube(cloud, q, s), All(cloud, q), k, false);
    SameEntries(idx, r, InCube(cloud, q, s), All(cloud, q), k, true);
    CubeListIsExact(cloud, q, r, k, s);
    if Fires(cloud, q, k, s) {
      FiringSuffices(cloud, q, k, s);
      FullWhenFiring(cloud, q, r, k, s);
      FiredListIsLexExact(cloud, q, r, k, s);
    }
  }

  lemma FullWhenFiring(cloud: Cloud, q: Vec, r: seq<Entry>, k: nat, s: nat)
    requires Indexed(cloud) && cloud.leaf > 0.0 && s <= MAX_SHELL && 0 < k
      && IsKNearest(r, InCube(cloud, q, s), k, true)
    requires Fires(cloud, q, k, s)
    ensures |r| == k
  {
    hide SqDist, IsKNearest, Reached, Indexed, Fires, Cell, Square, ShellBound;
    FiringTest(cloud, q, r, k, s);
  }

  lemma SameEntries(idx: seq<int>, r: seq<Entry>, m: map<int, real>, all: map<int, real>, k: nat, lex: bool)
    requires IsKNearest(r, m, k, true) && Part(m, all) && |idx| == |r| && forall a :: 0 <= a < |idx| ==>
      idx[a] == r[a].j
    ensures AreKNearest(idx, all, k, lex) <==> IsKNearest(r, all, k, lex)
  {
    forall a | 0 <= a < |idx|
      ensures idx[a] in all && r[a] == Entry(all[idx[a]], idx[a])
    {
      assert r[a] in r;
    }
    assert r == seq(|idx|, a requires 0 <= a < |idx| && idx[a] in all => Entry(all[idx[a]], idx[a]));
  }

  /** The neighbours of one point after both passes. Their distances are those of the k nearest of the cloud exactly
      when the cloud has at most 8192 points or the largest cube suffices; for small clouds they are the k nearest in
      (distance, index) order exactly when no tie lies outside the cube at which the bound fired. */
  method Neighbors(cloud: Cloud, view: View, query: nat, k: nat, far: real, ghost built: State)
    returns (idx: seq<int>, stop: bool, ghost last: nat)
    requires Indexed(cloud) && Serves(view, cloud, built) && query < |cloud.points| && 1 <= k <= MAX_K
    requires forall i, j :: 0 <= i < |cloud.points| && 0 <= j < |cloud.points| ==>
      SqDist(cloud.points[i], cloud.points[j]) < far
    ensures cloud.leaf > 0.0 && last <= MAX_SHELL && (!stop ==> last == MAX_SHELL)
    ensures forall s :: 0 <= s < last ==> !Fires(cloud, cloud.points[query], k, s)
    ensures stop <==> Fires(cloud, cloud.points[query], k, last)
    ensures stop <==> Fires(cloud, cloud.points[query], k, MAX_SHELL)
    ensures stop || |cloud.points| > 8192 ==>
      AreKNearest(idx, InCube(cloud, cloud.points[query], last), k, true)
    ensures AreKNearest(idx, All(cloud, cloud.points[query]), k, false)
      <==> |cloud.points| <= 8192 || CubeSuffices(cloud, cloud.points[query], k, MAX_SHELL)
    ensures |cloud.points| <= 8192 ==>
      (AreKNearest(idx, All(cloud, cloud.points[query]), k, true) <==>
       !(stop && TiedOutside(cloud, cloud.points[query], k, last)))
  {
    hide SqDist, Square, Indexed, Serves, AreKNearest, IsKNearest, Fires, Reached, CubeSuffices, TiedOutside, Cell;
    var q := cloud.points[query];
    var top := new TopK(k);
    stop, last := Shells(cloud, view, q, top, built);
    var counts := if stop then top.n else top.n + 0x8000_0000;
    idx := top.jj[..top.n];
    CubeIndices(cloud, q, idx, top.entries, k, last);
    if stop {
      FiringSuffices(cloud, q, k, MAX_SHELL);
    }
    if |cloud.points| <= BF_MAX_POINTS {
      var terminated := counts < 0x8000_0000;
      if !(terminated && counts % 0x8000_0000 >= k) {
        idx := BruteForce(cloud.points, q, k, far);
        LexOrPlain(idx, All(cloud, q), k);
      }
    }
  }

  // ---------------------------------------------------------------- when every k-th neighbour is found

  lemma FarAlongAxis(p: real, x: real, leaf: real, s: nat, bound: real)
    requires leaf > 0.0 && Abs(FastFloor(x / leaf) - FastFloor(p / leaf)) > s && bound == s as real * leaf
    ensures Square(p - x) > Square(bound)
  {
    hide Square;
    var u, w := p / leaf, x / leaf;
    assert u - w > s as real || w - u > s as real;
    CellScale(p, leaf, u);
    CellScale(x, leaf, w);
    FarApart(p, x, u, w, leaf, s as real, bound);
  }

  lemma FarApart(p: real, x: real, u: real, w: real, leaf: real, s: real, bound: real)
    requires leaf > 0.0 && p == u * leaf && x == w * leaf && s >= 0.0 && bound == s * leaf && (u - w > s || w - u > s)
    ensures Square(p - x) > Square(bound)
  {
    Difference(p, x, u, w, leaf);
    if u - w > s {
      StrictProduct(s, u - w, leaf);
      StrictSquares(bound, p - x);
    } else {
      StrictProduct(s, w - u, leaf);
      StrictSquares(bound, x - p);
      NegatedSquare(x - p, p - x);
    }
  }

  lemma NegatedSquare(a: real, b: real)
    requires a == -b
    ensures Square(a) == Square(b)
  {
  }

  lemma Difference(p: real, x: real, u: real, w: real, leaf: real)
    requires p == u * leaf && x == w * leaf
    ensures p - x == (u - w) * leaf && x - p == (w - u) * leaf
  {
  }

  lemma NearAlongAxis(p: real, x: real, leaf: real, s: nat, bound: real, d: real)
    requires leaf > 0.0 && bound == s as real * leaf && Square(p - x) <= d <= Square(bound)
    ensures Abs(FastFloor(x / leaf) - FastFloor(p / leaf)) <= s
  {
    hide Square, FastFloor;
    if Abs(FastFloor(x / leaf) - FastFloor(p / leaf)) > s {
      FarAlongAxis(p, x, leaf, s, bound);
    }
  }

  lemma MarginAtLeast(q: Vec, leaf: real, s: nat, bound: real)
    requires leaf > 0.0 && bound == s as real * leaf
    ensures Square(bound) <= Square(ShellBound(q, s, leaf))
  {
    hide Square, FracMin;
    ScaledSquares(s as real, FracMin(q, leaf) + s as real, leaf, bound, ShellBound(q, s, leaf));
  }

  /** A point within s cells of distance lies within s shells. */
  lemma NearIsInside(cloud: Cloud, q: Vec, j: int, s: nat, bound: real)
    requires cloud.leaf > 0.0 && bound == s as real * cloud.leaf && 0 <= j < |cloud.points|
      && SqDist(q, cloud.points[j]) <= Square(bound)
    ensures InMargin(cloud, q, j, s)
  {
    hide FastFloor, Square, SqDist, ShellBound;
    var p, d := cloud.points[j], SqDist(q, cloud.points[j]);
    AxisGapBoundsDistance(q, p, 0);
    AxisGapBoundsDistance(q, p, 1);
    AxisGapBoundsDistance(q, p, 2);
    NearAlongAxis(q.x, p.x, cloud.leaf, s, bound, d);
    NearAlongAxis(q.y, p.y, cloud.leaf, s, bound, d);
    NearAlongAxis(q.z, p.z, cloud.leaf, s, bound, d);
    MarginAtLeast(q, cloud.leaf, s, bound);
  }

  /** Every query with its k-th neighbour within a distance of twelve cells is stopped by the bound. */
  lemma NearNeighborsFire(cloud: Cloud, q: Vec, k: nat, s: nat)
    requires cloud.leaf > 0.0 && s <= MAX_SHELL && |Within(All(cloud, q), Square(s as real * cloud.leaf))| >= k
    ensures Fires(cloud, q, k, MAX_SHELL)
  {
    hide SqDist, Square, InMargin, ShellBound;
    var bound := s as real * cloud.leaf;
    var near := Within(All(cloud, q), Square(bound));
    forall j | j in near
      ensures j in Inside(cloud, q, s)
    {
      NearIsInside(cloud, q, j, s, bound);
    }
    SubsetCardinality(near, Inside(cloud, q, s));
    FiresLater(cloud, q, k, s, MAX_SHELL);
  }

  // ---------------------------------------------------------------- two clouds

  /** The key of every point, computed from its cell. */
  ghost function UnitCloud(points: seq<Vec>): (c: Cloud)
    ensures c.points == points && c.leaf == 1.0 && |c.keys| == |points|
    ensures forall j :: 0 <= j < |points| ==> c.keys[j] == CoordKey(Cell(points[j], 1.0))
  {
    Cloud(points, seq(|points|, j requires 0 <= j < |points| => CoordKey(Cell(points[j], 1.0))), 1.0)
  }

  const CENTRE: Vec := Vec(0.5, 0.5, 0.5)

  /** A neighbour of index 2 in the next shell, and one of index 1 in the shell behind it, equally far from the
      centre. */
  ghost function TieCloud(): Cloud {
    UnitCloud([CENTRE, Vec(2.0, 0.5, 0.5), Vec(1.4, 1.7, 0.5)])
  }

  lemma CentreFacts()
    ensures Cell(CENTRE, 1.0) == VoxelCoord(0, 0, 0) && FracMin(CENTRE, 1.0) == 0.5
  {
    assert FastFloor(0.5) == 0;
  }

  lemma TieCells()
    ensures Cell(Vec(2.0, 0.5, 0.5), 1.0) == VoxelCoord(2, 0, 0) && Cell(Vec(1.4, 1.7, 0.5), 1.0) == VoxelCoord(1, 1, 0)
  {
    assert FastFloor(0.5) == 0 && FastFloor(2.0) == 2 && FastFloor(1.4) == 1 && FastFloor(1.7) == 1;
  }

  lemma TieKeys()
    ensures CoordKey(VoxelCoord(0, 0, 0)) < CoordKey(VoxelCoord(2, 0, 0)) < CoordKey(VoxelCoord(1, 1, 0))
  {
    hide CoordKey;
    KeyInRange(VoxelCoord(0, 0, 0));
    KeyInRange(VoxelCoord(2, 0, 0));
    KeyInRange(VoxelCoord(1, 1, 0));
  }

  lemma TieDistances()
    ensures SqDist(CENTRE, CENTRE) == 0.0
    ensures SqDist(CENTRE, Vec(2.0, 0.5, 0.5)) == 2.25 && SqDist(CENTRE, Vec(1.4, 1.7, 0.5)) == 2.25
    ensures Square(0.5) == 0.25 && Square(1.5) == 2.25
  {
  }

  lemma TieIsIndexed()
    ensures Indexed(TieCloud())
    ensures Offset(CENTRE, CENTRE, 1.0) == VoxelCoord(0, 0, 0)
    ensures Offset(CENTRE, Vec(2.0, 0.5, 0.5), 1.0) == VoxelCoord(2, 0, 0)
      && Offset(CENTRE, Vec(1.4, 1.7, 0.5), 1.0) == VoxelCoord(1, 1, 0)
    ensures ShellBound(CENTRE, 0, 1.0) == 0.5 && ShellBound(CENTRE, 1, 1.0) == 1.5
  {
    hide FastFloor, CoordKey, FracMin, Cell;
    CentreFacts();
    TieCells();
    TieKeys();
  }

  /** The bound fires at the first shell, and the point behind it ties. */
  lemma {:induction false} TieOutsideTheCube()
    ensures Indexed(TieCloud()) && !Fires(TieCloud(), CENTRE, 2, 0) && Fires(TieCloud(), CENTRE, 2, 1)
      && TiedOutside(TieCloud(), CENTRE, 2, 1)
  {
    hide Square, SqDist, Cell, Indexed, Offset, ShellBound, CoordKey;
    var c := TieCloud();
    TieIsIndexed();
    TieDistances();
    assert Inside(c, CENTRE, 0) <= {0};
    SubsetCardinality(Inside(c, CENTRE, 0), {0});
    assert InMargin(c, CENTRE, 0, 1) && InMargin(c, CENTRE, 2, 1);
    assert {0, 2} <= Inside(c, CENTRE, 1);
    SubsetCardinality({0, 2}, Inside(c, CENTRE, 1));
    assert Ahead(All(c, CENTRE), Entry(2.25, 1)) <= {0};
    SubsetCardinality(Ahead(All(c, CENTRE), Entry(2.25, 1)), {0});
    assert TiesOutside(c, CENTRE, 2, 1, 1);
  }

  /** For the first point of that cloud both passes together return the nearest distances, but not the points of the
      (distance, index) order that the brute-force pass would have selected. */
  method TiedNeighbors(view: View, far: real, ghost built: State) returns (idx: seq<int>)
    requires Indexed(TieCloud()) && Serves(view, TieCloud(), built)
    requires forall i, j :: 0 <= i < 3 && 0 <= j < 3 ==> SqDist(TieCloud().points[i], TieCloud().points[j]) < far
    ensures AreKNearest(idx, All(TieCloud(), CENTRE), 2, false) && !AreKNearest(idx, All(TieCloud(), CENTRE), 2, true)
  {
    hide Indexed, Serves, AreKNearest, Fires, CubeSuffices, TiedOutside, SqDist, All;
    TieOutsideTheCube();
    ghost var c := TieCloud();
    var points := [CENTRE, Vec(2.0, 0.5, 0.5), Vec(1.4, 1.7, 0.5)];
    var keys := [KeyOf(points[0]), KeyOf(points[1]), KeyOf(points[2])];
    var cloud := Cloud(points, keys, 1.0);
    assert cloud == c;
    var stop;
    ghost var last;
    idx, stop, last := Neighbors(cloud, view, 0, 2, far, built);
    FiresLater(c, CENTRE, 2, 1, MAX_SHELL);
  }

  function KeyOf(p: Vec): nat {
    CoordKey(Cell(p, 1.0))
  }

  /** A third neighbour in the corner of the cube of twelve shells, and the second one behind a face of it. */
  ghost function CornerCloud(): Cloud {
    UnitCloud([CENTRE, Vec(13.5, 0.5, 0.5), Vec(12.5, 12.5, 12.5)])
  }

  lemma CornerCells()
    ensures Cell(Vec(13.5, 0.5, 0.5), 1.0) == VoxelCoord(13, 0, 0)
      && Cell(Vec(12.5, 12.5, 12.5), 1.0) == VoxelCoord(12, 12, 12)
  {
    assert FastFloor(0.5) == 0 && FastFloor(13.5) == 13 && FastFloor(12.5) == 12;
  }

  lemma CornerKeys()
    ensures CoordKey(VoxelCoord(0, 0, 0)) < CoordKey(VoxelCoord(13, 0, 0)) < CoordKey(VoxelCoord(12, 12, 12))
  {
    hide CoordKey;
    KeyInRange(VoxelCoord(0, 0, 0));
    KeyInRange(VoxelCoord(13, 0, 0));
    KeyInRange(VoxelCoord(12, 12, 12));
  }

  lemma CornerDistances()
    ensures SqDist(CENTRE, CENTRE) == 0.0
    ensures SqDist(CENTRE, Vec(13.5, 0.5, 0.5)) == 169.0 && SqDist(CENTRE, Vec(12.5, 12.5, 12.5)) == 432.0
  {
  }

  /** The third neighbour of this query lies within twelve voxels along every axis, and yet the cube does not
      suffice. */
  lemma {:induction false} CornerNeighbor()
    ensures Indexed(CornerCloud()) && |Ahead(All(CornerCloud(), CENTRE), Entry(432.0, 2))| == 2
    ensures Norm(Offset(CENTRE, CornerCloud().points[2], 1.0)) == MAX_SHELL
      && SqDist(CENTRE, CornerCloud().points[2]) == 432.0
    ensures !CubeSuffices(CornerCloud(), CENTRE, 3, MAX_SHELL)
  {
    hide FastFloor, CoordKey, Square, SqDist, Cell, StoredAt;
    var c := CornerCloud();
    CentreFacts();
    CornerCells();
    CornerKeys();
    CornerDistances();
    assert Ahead(All(c, CENTRE), Entry(432.0, 2)) == {0, 1};
    BehindTheFace(c);
    var within := Within(InCube(c, CENTRE, MAX_SHELL), 169.0);
    assert within <= {0, 1};
    SubsetCardinality(within, {0, 1});
  }

  lemma BehindTheFace(c: Cloud)
    requires Indexed(c) && c.leaf == 1.0 && |c.points| > 1
    requires Norm(Offset(CENTRE, c.points[1], 1.0)) == 13
    ensures 1 !in Reached(c, Cell(CENTRE, 1.0), MAX_SHELL)
  {
    hide Norm, Offset, Cell, StoredAt, Indexed;
    StoredAtTrueOffset(c, CENTRE, 1);
    if InReach(c, Cell(CENTRE, 1.0), 1, MAX_SHELL) {
      var o :| Norm(o) <= MAX_SHELL && StoredAt(c, Cell(CENTRE, 1.0), 1, o);
      StoredAtOneOffset(c, Cell(CENTRE, 1.0), 1, o, Offset(CENTRE, c.points[1], 1.0));
    }
  }
}
