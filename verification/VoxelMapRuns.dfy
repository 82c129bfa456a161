/** Runs of the incremental voxel map: what holds of every map that a sequence of insertions into a new one produces. */
module VoxelMapRuns {
  import opened Geometry
  import opened Voxels
  import opened KNearest
  import opened KnnResult
  import opened GaussianVoxel
  import opened IncrementalVoxelMap
  import opened VoxelMapSearch
  import FlatContainer

  /** A scan and the transformation it is inserted with. */
  datatype Scan = Scan(points: seq<Sample>, transform: Sample -> Sample)

  /** The settings of a map that stay fixed during a run. */
  datatype Map<!V> = Map(kind: Kind<V>, leaf: real, horizon: nat, cycle: nat)

  ghost predicate Usable<V>(m: Map<V>) {
    m.leaf > 0.0 && m.cycle > 0
  }

  function Placed(scan: Scan): seq<Sample> {
    Moved(scan.points, scan.transform)
  }

  /** The flat vector after the first n scans. */
  ghost function After<V>(m: Map<V>, scans: seq<Scan>, n: nat): seq<Voxel<V>>
    requires Usable(m) && n <= |scans|
  {
    if n == 0 then []
    else Inserted(m.kind, m.leaf, After(m, scans, n - 1), n - 1, m.horizon, m.cycle, Placed(scans[n - 1]))
  }

  lemma FinalizedKeepsDistinct<V(!new)>(kind: Kind<V>, flat: seq<Voxel<V>>)
    requires DistinctCoords(flat)
    ensures DistinctCoords(FinalizeAll(kind, flat))
  {
  }

  lemma InsertKeepsDistinct<V(!new)>(m: Map<V>, flat: seq<Voxel<V>>, lru: nat, xs: seq<Sample>)
    requires Usable(m) && DistinctCoords(flat)
    ensures DistinctCoords(Inserted(m.kind, m.leaf, flat, lru, m.horizon, m.cycle, xs))
  {
    hide DistinctCoords, TouchAll, Evict;
    var touched := TouchAll(m.kind, m.leaf, flat, lru, xs, |xs|);
    TouchAllKeepsDistinct(m.kind, m.leaf, flat, lru, xs, |xs|);
    EvictKeepsDistinct(touched, m.horizon, lru + 1);
    FinalizedKeepsDistinct(m.kind, if (lru + 1) % m.cycle == 0 then Evict(touched, m.horizon, lru + 1) else touched);
  }

  lemma AfterSteps<V(!new)>(m: Map<V>, scans: seq<Scan>, n: nat)
    requires Usable(m) && n <= |scans|
    ensures After(m, scans, 0) == []
    ensures n > 0 ==>
      After(m, scans, n) == Inserted(m.kind, m.leaf, After(m, scans, n - 1), n - 1, m.horizon, m.cycle,
                                     Placed(scans[n - 1]))
  {
  }

  lemma NoneIsRecent<V(!new)>(horizon: nat, cycle: nat)
    requires cycle > 0
    ensures var none: seq<Voxel<V>> := []; DistinctCoords(none) && Recent(none, horizon, cycle, 0)
  {
  }

  /** In every reachable map there is one voxel a cell, and every voxel is recent. */
  lemma {:induction false} ReachableIsRecent<V(!new)>(m: Map<V>, scans: seq<Scan>, n: nat)
    requires Usable(m) && n <= |scans|
    ensures DistinctCoords(After(m, scans, n)) && Recent(After(m, scans, n), m.horizon, m.cycle, n)
  {
    hide DistinctCoords, Recent, Inserted, After, Placed;
    AfterSteps(m, scans, n);
    if n == 0 {
      NoneIsRecent<V>(m.horizon, m.cycle);
    } else {
      ReachableIsRecent(m, scans, n - 1);
      InsertKeepsDistinct(m, After(m, scans, n - 1), n - 1, Placed(scans[n - 1]));
      StaysRecent(m.kind, m.leaf, After(m, scans, n - 1), n - 1, m.horizon, m.cycle, Placed(scans[n - 1]));
    }
  }

  // ---------------------------------------------------------------- the order of the voxels

  /** The scan that created the voxel live at c after n scans. */
  ghost function Birth<V(!new)>(m: Map<V>, scans: seq<Scan>, n: nat, c: VoxelCoord): (b: nat)
    requires Usable(m) && 0 < n <= |scans|
    ensures b < n
  {
    hide After, LiveAt;
    if n == 1 || !LiveAt(After(m, scans, n - 1), c) then n - 1 else Birth(m, scans, n - 1, c)
  }

  /** The cell was empty before that scan and has been live ever since. */
  lemma {:induction false} BirthIsFirst<V(!new)>(m: Map<V>, scans: seq<Scan>, n: nat, c: VoxelCoord)
    requires Usable(m) && 0 < n <= |scans|
    ensures var b := Birth(m, scans, n, c);
      b < n && !LiveAt(After(m, scans, b), c) && forall i :: b < i < n ==> LiveAt(After(m, scans, i), c)
  {
    hide LiveAt, After;
    if n == 1 {
      AfterSteps(m, scans, 0);
      NothingLive<V>(c);
    } else if LiveAt(After(m, scans, n - 1), c) {
      BirthIsFirst(m, scans, n - 1, c);
    }
  }

  lemma NothingLive<V(!new)>(c: VoxelCoord)
    ensures var none: seq<Voxel<V>> := []; !LiveAt(none, c)
  {
  }

  /** The voxel of c was created before that of d: by an earlier scan, or by an earlier point of the same scan. */
  ghost predicate BornBefore<V(!new)>(m: Map<V>, scans: seq<Scan>, n: nat, c: VoxelCoord, d: VoxelCoord)
    requires Usable(m) && 0 < n <= |scans|
  {
    var a, b := Birth(m, scans, n, c), Birth(m, scans, n, d);
    a < b || (a == b && HitAt(m.leaf, scans[a], c) < HitAt(m.leaf, scans[b], d))
  }

  /** The first point of a scan that falls into the cell, or the number of its points. */
  ghost function HitAt(leaf: real, scan: Scan, c: VoxelCoord): nat
    requires leaf > 0.0
  {
    FirstHit(leaf, Placed(scan), |Placed(scan)|, c)
  }

  /** The scan that created a live voxel hit its cell. */
  lemma HitAtBirth<V(!new)>(m: Map<V>, scans: seq<Scan>, n: nat, c: VoxelCoord)
    requires Usable(m) && 0 < n <= |scans| && LiveAt(After(m, scans, n), c)
    ensures var b := Birth(m, scans, n, c);
      var xs, i := Placed(scans[b]), HitAt(m.leaf, scans[b], c); i < |xs| && Cell(xs[i].p, m.leaf) == c
  {
    hide After, LiveAt, Cell, DistinctCoords, Recent, Inserted, Placed, Birth, Hit;
    var b := Birth(m, scans, n, c);
    BirthIsFirst(m, scans, n, c);
    AfterSteps(m, scans, b + 1);
    ReachableIsRecent(m, scans, b);
    InsertMeans(m.kind, m.leaf, After(m, scans, b), b, m.horizon, m.cycle, Placed(scans[b]), c);
  }

  /** So of two live voxels exactly one was created first. */
  lemma BirthsDiffer<V(!new)>(m: Map<V>, scans: seq<Scan>, n: nat, c: VoxelCoord, d: VoxelCoord)
    requires Usable(m) && 0 < n <= |scans| && c != d
    requires LiveAt(After(m, scans, n), c) && LiveAt(After(m, scans, n), d)
    ensures BornBefore(m, scans, n, c, d) || BornBefore(m, scans, n, d, c)
  {
    hide After, LiveAt, Cell, Placed, Birth, FirstHit;
    HitAtBirth(m, scans, n, c);
    HitAtBirth(m, scans, n, d);
  }

  lemma {:induction false} BornBeforeIsInFront<V(!new)>(m: Map<V>, scans: seq<Scan>, n: nat, c: VoxelCoord,
                                                        d: VoxelCoord)
    requires Usable(m) && 0 < n <= |scans| && BornBefore(m, scans, n, c, d)
    requires LiveAt(After(m, scans, n), c) && LiveAt(After(m, scans, n), d)
    ensures Find(After(m, scans, n), c) < Find(After(m, scans, n), d)
  {
    hide After, LiveAt, Find, DistinctCoords, Recent, Inserted, FirstHit, Placed;
    var was, xs := After(m, scans, n - 1), Placed(scans[n - 1]);
    AfterSteps(m, scans, n);
    if n == 1 {
      NothingLive<V>(c);
      NothingLive<V>(d);
    } else {
      BirthIsFirst(m, scans, n, c);
      BirthIsFirst(m, scans, n, d);
      if LiveAt(was, c) && LiveAt(was, d) {
        BornBeforeIsInFront(m, scans, n - 1, c, d);
      }
    }
    ReachableIsRecent(m, scans, n - 1);
    InsertKeepsOrder(m.kind, m.leaf, was, n - 1, m.horizon, m.cycle, xs, c, d);
  }

  /** After every run of insertions the voxels stand in the order of their creation. */
  lemma OrderOfBirth<V(!new)>(m: Map<V>, scans: seq<Scan>, n: nat, c: VoxelCoord, d: VoxelCoord)
    requires Usable(m) && 0 < n <= |scans| && c != d
    requires LiveAt(After(m, scans, n), c) && LiveAt(After(m, scans, n), d)
    ensures Find(After(m, scans, n), c) < Find(After(m, scans, n), d) <==> BornBefore(m, scans, n, c, d)
  {
    hide After, LiveAt, BornBefore, Find;
    BirthsDiffer(m, scans, n, c, d);
    if BornBefore(m, scans, n, c, d) {
      BornBeforeIsInFront(m, scans, n, c, d);
    } else {
      BornBeforeIsInFront(m, scans, n, d, c);
    }
  }

  ghost function SettingsOf<V(!new)>(voxelMap: IncrementalVoxelMap<V>): Map<V>
    reads voxelMap
  {
    Map(voxelMap.kind, voxelMap.leaf, voxelMap.lruHorizon, voxelMap.lruClearCycle)
  }

  /** Inserting scan after scan into an empty map. */
  method InsertAll<V(!new)>(voxelMap: IncrementalVoxelMap<V>, scans: seq<Scan>)
    requires voxelMap.Valid() && voxelMap.flatVoxels == [] && voxelMap.lruCounter == 0
    modifies voxelMap`lruCounter, voxelMap`flatVoxels, voxelMap`voxels
    ensures voxelMap.Valid() && voxelMap.lruCounter == |scans| && Usable(SettingsOf(voxelMap))
    ensures voxelMap.flatVoxels == After(SettingsOf(voxelMap), scans, |scans|)
  {
    hide Mutual, Recent, Inserted;
    ghost var m := SettingsOf(voxelMap);
    for i := 0 to |scans|
      invariant voxelMap.Valid() && voxelMap.lruCounter == i && voxelMap.flatVoxels == After(m, scans, i)
    {
      voxelMap.Insert(scans[i].points, scans[i].transform);
    }
  }

  // ---------------------------------------------------------------- Gaussian voxels

  /** The contents of a Gaussian voxel map. A voxel without a point is left alone; no live voxel is one. */
  function GaussianKind(): Kind<Gaussian> {
    Kind(NEW_GAUSSIAN, WithPoint, (v: Gaussian) => if v.numPoints > 0 then Closed(v) else v)
  }

  /** The first n samples that fall into a cell, in their order. */
  function InCellOf(leaf: real, xs: seq<Sample>, n: nat, c: VoxelCoord): seq<Sample>
    requires leaf > 0.0 && n <= |xs|
  {
    if n == 0 then []
    else
      var t := InCellOf(leaf, xs, n - 1, c);
      if Cell(xs[n - 1].p, leaf) == c then t + [xs[n - 1]] else t
  }

  /** What a cell receives from the scans m to n - 1. */
  function Received(leaf: real, scans: seq<Scan>, m: nat, n: nat, c: VoxelCoord): seq<Sample>
    requires leaf > 0.0 && n <= |scans|
    decreases n
  {
    if n <= m then []
    else Received(leaf, scans, m, n - 1, c) + InCellOf(leaf, Placed(scans[n - 1]), |Placed(scans[n - 1])|, c)
  }

  lemma {:induction false} FoldRepresents(leaf: real, xs: seq<Sample>, n: nat, c: VoxelCoord, start: Gaussian,
                                          had: seq<Sample>)
    requires leaf > 0.0 && n <= |xs| && Represents(start, had)
    ensures Represents(FoldCell(GaussianKind(), leaf, xs, n, c, start), had + InCellOf(leaf, xs, n, c))
  {
    hide Represents, WithPoint, Cell;
    if n == 0 {
      assert had + InCellOf(leaf, xs, 0, c) == had;
    } else {
      FoldRepresents(leaf, xs, n - 1, c, start, had);
      var t, s := FoldCell(GaussianKind(), leaf, xs, n - 1, c, start), had + InCellOf(leaf, xs, n - 1, c);
      WithPointRepresents(t, s, xs[n - 1]);
      if Cell(xs[n - 1].p, leaf) == c {
        assert had + InCellOf(leaf, xs, n, c) == s + [xs[n - 1]];
      }
    }
  }

  lemma {:induction false} InCellOfIsIn(leaf: real, xs: seq<Sample>, n: nat, c: VoxelCoord)
    requires leaf > 0.0 && n <= |xs|
    ensures AllIn(InCellOf(leaf, xs, n, c), c, leaf)
    ensures Hit(leaf, xs, n, c) ==> |InCellOf(leaf, xs, n, c)| > 0
  {
    hide Cell;
    if n > 0 {
      InCellOfIsIn(leaf, xs, n - 1, c);
    }
  }

  lemma {:induction false} ReceivedIsIn(leaf: real, scans: seq<Scan>, m: nat, n: nat, c: VoxelCoord)
    requires leaf > 0.0 && n <= |scans|
    ensures AllIn(Received(leaf, scans, m, n, c), c, leaf)
    decreases n
  {
    hide Cell, InCellOf;
    if n > m {
      ReceivedIsIn(leaf, scans, m, n - 1, c);
      InCellOfIsIn(leaf, Placed(scans[n - 1]), |Placed(scans[n - 1])|, c);
    }
  }

  /** After every run of insertions a live Gaussian voxel represents what its cell received since the scan that created
      it, which is at least one point, and it is finalized. */
  lemma {:induction false} GaussianHistory(m: Map<Gaussian>, scans: seq<Scan>, n: nat, c: VoxelCoord)
    requires Usable(m) && m.kind == GaussianKind() && 0 < n <= |scans| && LiveAt(After(m, scans, n), c)
    ensures var v := VoxelAt(After(m, scans, n), c).contents;
      v.finalized && v.numPoints > 0 && Represents(v, Received(m.leaf, scans, Birth(m, scans, n, c), n, c))
  {
    hide Represents, Cell, LiveAt, InCellOf, Hit, FoldCell, Inserted, DistinctCoords, Recent;
    var was, xs, b := After(m, scans, n - 1), Placed(scans[n - 1]), Birth(m, scans, n, c);
    BirthIsFirst(m, scans, n, c);
    ReachableIsRecent(m, scans, n - 1);
    InsertMeans(m.kind, m.leaf, was, n - 1, m.horizon, m.cycle, xs, c);
    var had := Received(m.leaf, scans, b, n - 1, c);
    var start := ContentsAt(m.kind, was, c);
    if n > 1 && LiveAt(was, c) {
      GaussianHistory(m, scans, n - 1, c);
      FromVoxel(m.kind, was, c);
    } else {
      NothingLive<Gaussian>(c);
      Fresh(m.kind, was, c);
      NewRepresents();
    }
    FoldRepresents(m.leaf, xs, |xs|, c, start, had);
    InCellOfIsIn(m.leaf, xs, |xs|, c);
    var t := FoldCell(m.kind, m.leaf, xs, |xs|, c, start);
    assert Received(m.leaf, scans, b, n, c) == had + InCellOf(m.leaf, xs, |xs|, c);
    CountOf(t, Received(m.leaf, scans, b, n, c));
    CountOf(start, had);
    ClosedRepresents(t, Received(m.leaf, scans, b, n, c));
  }

  lemma FromVoxel<V(!new)>(kind: Kind<V>, flat: seq<Voxel<V>>, c: VoxelCoord)
    requires LiveAt(flat, c)
    ensures ContentsAt(kind, flat, c) == VoxelAt(flat, c).contents
  {
  }

  lemma Fresh<V(!new)>(kind: Kind<V>, flat: seq<Voxel<V>>, c: VoxelCoord)
    requires !LiveAt(flat, c)
    ensures ContentsAt(kind, flat, c) == kind.empty
  {
  }

  lemma NewRepresents()
    ensures Represents(NEW_GAUSSIAN, [])
  {
  }

  lemma CountOf(v: Gaussian, added: seq<Sample>)
    requires Represents(v, added)
    ensures v.numPoints == |added|
  {
  }

  /** So it holds the averages of those points and of their covariances, and the mean lies in the cell of the voxel. */
  lemma LiveGaussianIsAverage(m: Map<Gaussian>, scans: seq<Scan>, n: nat, c: VoxelCoord)
    requires Usable(m) && m.kind == GaussianKind() && 0 < n <= |scans| && LiveAt(After(m, scans, n), c)
    ensures var v, s := VoxelAt(After(m, scans, n), c).contents, Received(m.leaf, scans, Birth(m, scans, n, c), n, c);
      && |s| == v.numPoints > 0 && v.mean == MeanOf(s) && v.cov == CovOf(s) && IsAverage(v.mean, v.cov, s)
      && Cell(v.mean, m.leaf) == c
  {
    hide IsAverage, MeanOf, CovOf, SumOfPoints, SumOfCovs, Cell, AllIn, After, Received, Birth;
    var s := Received(m.leaf, scans, Birth(m, scans, n, c), n, c);
    GaussianHistory(m, scans, n, c);
    ReceivedIsIn(m.leaf, scans, Birth(m, scans, n, c), n, c);
    AveragesAreAverage(s);
    MeanStaysInCell(s, c, m.leaf);
  }

  // ---------------------------------------------------------------- maps of point containers

  lemma NothingWrong(setting: FlatContainer.Setting, leaf: real)
    requires leaf > 0.0
    ensures AllOk(setting, [], leaf)
  {
  }

  /** In every reachable map of point containers every point is stored in its cell, and every voxel is sparse. */
  lemma {:induction false} ReachableIsOk(setting: FlatContainer.Setting, m: Map<Points>, scans: seq<Scan>, n: nat)
    requires Usable(m) && m.kind == PointKind(setting) && n <= |scans|
    ensures AllOk(setting, After(m, scans, n), m.leaf)
  {
    hide AllOk, Inserted, PointKind;
    if n == 0 {
      NothingWrong(setting, m.leaf);
    } else {
      ReachableIsOk(setting, m, scans, n - 1);
      InsertKeepsOk(setting, After(m, scans, n - 1), m.leaf, n - 1, m.horizon, m.cycle, Placed(scans[n - 1]));
    }
  }

  /** Every stored point is one of the samples, and every sample is stored or covered, unless the container is full. */
  ghost predicate Covers(setting: FlatContainer.Setting, points: Points, received: seq<Sample>) {
    && (forall p :: p in points ==> exists i :: 0 <= i < |received| && received[i].p == p)
    && (|points| < setting.maxNumPointsInCell ==>
          forall i :: 0 <= i < |received| ==> Covered(setting, points, received[i].p))
  }

  ghost predicate Covered(setting: FlatContainer.Setting, points: Points, p: Vec) {
    exists j :: 0 <= j < |points| && SqDist(points[j], p) < setting.minSqDistInCell
  }

  lemma AddedKeepsCovering(setting: FlatContainer.Setting, points: Points, received: seq<Sample>, x: Sample)
    requires setting.minSqDistInCell > 0.0 && Covers(setting, points, received)
    ensures Covers(setting, FlatContainer.Added(setting, points, x.p), received + [x])
  {
    hide SqDist;
    var r, all := FlatContainer.Added(setting, points, x.p), received + [x];
    FlatContainer.AddedCovers(setting, points, x.p);
    forall p | p in r
      ensures exists i :: 0 <= i < |all| && all[i].p == p
    {
      if p in points {
        var i :| 0 <= i < |received| && received[i].p == p;
        assert all[i].p == p;
      } else {
        assert all[|received|].p == p;
      }
    }
    if |r| < setting.maxNumPointsInCell {
      forall i | 0 <= i < |all|
        ensures Covered(setting, r, all[i].p)
      {
        if i < |received| {
          assert Covered(setting, points, received[i].p);
          var j :| 0 <= j < |points| && SqDist(points[j], received[i].p) < setting.minSqDistInCell;
          assert r[j] == points[j];
        }
      }
    }
  }

  lemma {:induction false} FoldCovers(setting: FlatContainer.Setting, leaf: real, xs: seq<Sample>, n: nat,
                                      c: VoxelCoord,
                                      start: Points, had: seq<Sample>)
    requires leaf > 0.0 && n <= |xs| && setting.minSqDistInCell > 0.0 && Covers(setting, start, had)
    ensures Covers(setting, FoldCell(PointKind(setting), leaf, xs, n, c, start), had + InCellOf(leaf, xs, n, c))
  {
    hide Covers, FlatContainer.Added, Cell;
    if n == 0 {
      assert had + InCellOf(leaf, xs, 0, c) == had;
    } else {
      FoldCovers(setting, leaf, xs, n - 1, c, start, had);
      var t, s := FoldCell(PointKind(setting), leaf, xs, n - 1, c, start), had + InCellOf(leaf, xs, n - 1, c);
      AddedKeepsCovering(setting, t, s, xs[n - 1]);
      if Cell(xs[n - 1].p, leaf) == c {
        assert had + InCellOf(leaf, xs, n, c) == s + [xs[n - 1]];
      }
    }
  }

  /** After every run of insertions a live container holds points that its cell received since the scan that created it,
      and unless it is full it covers all of them. */
  lemma {:induction false} ContainerHistory(setting: FlatContainer.Setting, m: Map<Points>, scans: seq<Scan>, n: nat,
                                            c: VoxelCoord)
    requires Usable(m) && m.kind == PointKind(setting) && setting.minSqDistInCell > 0.0
    requires 0 < n <= |scans| && LiveAt(After(m, scans, n), c)
    ensures Covers(setting, VoxelAt(After(m, scans, n), c).contents,
                   Received(m.leaf, scans, Birth(m, scans, n, c), n, c))
  {
    hide Covers, Cell, LiveAt, InCellOf, Hit, FoldCell, Inserted, DistinctCoords, Recent;
    var was, xs, b := After(m, scans, n - 1), Placed(scans[n - 1]), Birth(m, scans, n, c);
    BirthIsFirst(m, scans, n, c);
    ReachableIsRecent(m, scans, n - 1);
    InsertMeans(m.kind, m.leaf, was, n - 1, m.horizon, m.cycle, xs, c);
    var had := Received(m.leaf, scans, b, n - 1, c);
    var start := ContentsAt(m.kind, was, c);
    if n > 1 && LiveAt(was, c) {
      ContainerHistory(setting, m, scans, n - 1, c);
      FromVoxel(m.kind, was, c);
    } else {
      NothingLive<Points>(c);
      Fresh(m.kind, was, c);
      NothingToCover(setting);
    }
    FoldCovers(setting, m.leaf, xs, |xs|, c, start, had);
    assert Received(m.leaf, scans, b, n, c) == had + InCellOf(m.leaf, xs, |xs|, c);
  }

  lemma NothingToCover(setting: FlatContainer.Setting)
    ensures Covers(setting, [], [])
  {
  }

  /** Building a map from scans and searching it: a full result whose last distance is within a leaf is the k nearest of
      all points stored in the map; so is, for one neighbour, any result within a leaf, and no result means no point
      within a leaf. */
  method InsertAndSearch(setting: FlatContainer.Setting, voxelMap: IncrementalVoxelMap<Points>, scans: seq<Scan>,
                         q: Vec, k: nat, kIndices: array<int>, kSqDists: array<real>, far: real, invalid: int)
    returns (found: nat, ghost entries: seq<Entry>)
    requires voxelMap.Valid() && voxelMap.flatVoxels == [] && voxelMap.lruCounter == 0
      && voxelMap.kind == PointKind(setting)
    requires 0 < k && kIndices.Length == kSqDists.Length == k
    modifies voxelMap`lruCounter, voxelMap`flatVoxels, voxelMap`voxels, kIndices, kSqDists
    ensures voxelMap.Valid() && voxelMap.leaf > 0.0
    ensures Usable(SettingsOf(voxelMap)) && voxelMap.flatVoxels == After(SettingsOf(voxelMap), scans, |scans|)
    ensures found == |entries| <= k && forall a :: 0 <= a < found ==> Entry(kSqDists[a], kIndices[a]) == entries[a]
    ensures Unused(kIndices, kSqDists, found, k, far, invalid)
    ensures var flat, offsets := voxelMap.flatVoxels, voxelMap.searchOffsets;
      IdsFit(flat) && CoversCube(offsets) && (k == 1 || DistinctOffsets(offsets)) ==>
        && AllLive(flat, AllIds(flat, |flat|))
        && (found == k && kSqDists[k - 1] <= Square(voxelMap.leaf) ==>
             IsKNearest(entries, Candidates(flat, q, AllIds(flat, |flat|), far), k, false))
        && (k == 1 && found == 0 ==> forall j :: Live(flat, j) ==>
            SqDist(PointAt(flat, j), q) >= Square(voxelMap.leaf) || SqDist(PointAt(flat, j), q) >= far)
  {
    hide IsKNearest, AllOk, Recent, DistinctCoords, IdsFit, CoversCube, DistinctOffsets, SqDist, Square, Cell,
      SearchResult, PointKind;
    InsertAll(voxelMap, scans);
    found, entries := KnnSearch(voxelMap, q, k, kIndices, kSqDists, far, invalid);
    ghost var flat, offsets := voxelMap.flatVoxels, voxelMap.searchOffsets;
    ReachableIsRecent(SettingsOf(voxelMap), scans, |scans|);
    ReachableIsOk(setting, SettingsOf(voxelMap), scans, |scans|);
    if IdsFit(flat) && CoversCube(offsets) && (k == 1 || DistinctOffsets(offsets)) {
      ghost var seen := KNearestIsGlobal(setting, flat, voxelMap.leaf, offsets, q, k, far);
      if k == 1 {
        NearestIsGlobal(setting, flat, voxelMap.leaf, offsets, q, far);
      }
    }
  }
}
