/** A container of the points of one voxel, sparse and bounded, scanned linearly by the searches. */
module FlatContainer {
  import opened Collections
  import opened Geometry
  import opened KNearest
  import opened KnnResult
  import opened GaussianVoxel

  datatype Setting = Setting(minSqDistInCell: real, maxNumPointsInCell: nat)

  predicate TooClose(points: seq<Vec>, p: Vec, minSqDist: real) {
    exists i :: 0 <= i < |points| && SqDist(points[i], p) < minSqDist
  }

  /** An offered point is kept unless the container is full or a stored point is too close. */
  predicate Keeps(setting: Setting, points: seq<Vec>, p: Vec) {
    |points| < setting.maxNumPointsInCell && !TooClose(points, p, setting.minSqDistInCell)
  }

  function Added(setting: Setting, points: seq<Vec>, p: Vec): seq<Vec> {
    if Keeps(setting, points, p) then points + [p] else points
  }

  /** At most the maximal number of points, no two of them too close. */
  ghost predicate Sparse(setting: Setting, points: seq<Vec>) {
    && |points| <= setting.maxNumPointsInCell
    && forall i, j :: 0 <= i < j < |points| ==> SqDist(points[i], points[j]) >= setting.minSqDistInCell
  }

  lemma AddedStaysSparse(setting: Setting, points: seq<Vec>, p: Vec)
    requires Sparse(setting, points)
    ensures Sparse(setting, Added(setting, points, p))
  {
    hide SqDist;
  }

  /** An offered point is either stored, or the container is full, or a stored point covers it. */
  lemma AddedCovers(setting: Setting, points: seq<Vec>, p: Vec)
    requires setting.minSqDistInCell > 0.0
    ensures var r := Added(setting, points, p);
      |r| >= setting.maxNumPointsInCell || exists i :: 0 <= i < |r| && SqDist(r[i], p) < setting.minSqDistInCell
  {
    var r := Added(setting, points, p);
    if Keeps(setting, points, p) {
      assert r[|points|] == p && SqDist(p, p) == 0.0;
    }
  }

  class FlatContainer {
    const hasNormals: bool
    const hasCovs: bool
    var points: seq<Vec>
    var normals: seq<Vec>
    var covs: seq<Mat>
    ghost var kept: seq<Sample>        // the samples kept, in the order of their arrival

    /** Points, and normals and covariances if the container has them, belong to the same samples position by
        position. */
    ghost predicate Valid()
      reads this
    {
      && |points| == |kept| && (forall i :: 0 <= i < |kept| ==> points[i] == kept[i].p)
      && |normals| == (if hasNormals then |kept| else 0)
        && (forall i :: 0 <= i < |normals| ==> normals[i] == kept[i].normal)
      && |covs| == (if hasCovs then |kept| else 0) && (forall i :: 0 <= i < |covs| ==> covs[i] == kept[i].cov)
    }

    constructor (hasNormals: bool, hasCovs: bool)
      ensures Valid() && kept == [] && this.hasNormals == hasNormals && this.hasCovs == hasCovs
    {
      this.hasNormals, this.hasCovs := hasNormals, hasCovs;
      points, normals, covs, kept := [], [], [], [];
    }

    method Add(setting: Setting, x: Sample)
      requires Valid()
      modifies this
      ensures Valid() && points == Added(setting, old(points), x.p)
      ensures kept == if Keeps(setting, old(points), x.p) then old(kept) + [x] else old(kept)
      ensures old(Sparse(setting, points)) ==> Sparse(setting, points)
    {
      if old(Sparse(setting, points)) {
        AddedStaysSparse(setting, points, x.p);
      }
      if |points| >= setting.maxNumPointsInCell || TooClose(points, x.p, setting.minSqDistInCell) {
        return;
      }
      points := points + [x.p];
      if hasNormals {
        normals := normals + [x.normal];
      }
      if hasCovs {
        covs := covs + [x.cov];
      }
      kept := kept + [x];
    }

    /** The k nearest of the container; of equally far points the ones stored earlier. An empty container leaves the
        buffers alone. */
    method KnnSearch(query: Vec, k: nat, kIndices: array<int>, kSqDists: array<real>, far: real, invalid: int)
      returns (found: nat, ghost entries: seq<Entry>)
      requires 0 < k && kIndices.Length == kSqDists.Length == k
      modifies kIndices, kSqDists
      ensures found == |entries| <= k && IsKNearest(entries, Distances(points, query, Below(|points|), far), k, true)
      ensures forall a :: 0 <= a < found ==> Entry(kSqDists[a], kIndices[a]) == entries[a]
      ensures points != [] ==> Unused(kIndices, kSqDists, found, k, far, invalid)
      ensures points == [] ==> kIndices[..] == old(kIndices[..]) && kSqDists[..] == old(kSqDists[..])
    {
      if points == [] {
        NothingToFind(query, far, k);
        return 0, [];
      }
      var result := new KnnResult(kIndices, kSqDists, k, far, invalid);
      ghost var stored := points;
      assert Distances(stored, query, Below(0), far) == map[];
      for i := 0 to |points|
        invariant result.Valid() && result.k == k && result.far == far && result.invalid == invalid
        invariant result.indices == kIndices && result.distances == kSqDists
        invariant points == stored && IsKNearest(result.entries, Distances(stored, query, Below(i), far), k, true)
      {
        hide IsKNearest, SqDist, Push;
        var sqDist := SqDist(points[i], query);
        OneMore(stored, query, i, far);
        StoredEntries(result.entries, stored, query, i, far, k);
        if sqDist < far {
          PushKeeps(result.entries, Distances(stored, query, Below(i), far), Entry(sqDist, i), k, true);
          LatestIsPlain(result.entries, Entry(sqDist, i), k);
        }
        result.Push(i, sqDist);
      }
      found, entries := result.numFound, result.entries;
    }
  }

  lemma StoredEntries(r: seq<Entry>, points: seq<Vec>, query: Vec, i: nat, far: real, k: nat)
    requires i < |points| && IsKNearest(r, Distances(points, query, Below(i), far), k, true)
    ensures Ascending(r, false) && |r| <= k && forall x :: x in r ==> x.j < i
  {
    hide SqDist;
  }

  lemma NothingToFind(query: Vec, far: real, k: nat)
    ensures IsKNearest([], Distances([], query, Below(0), far), k, true)
  {
  }

  lemma OneMore(points: seq<Vec>, query: Vec, i: nat, far: real)
    requires i < |points|
    ensures var m, d := Distances(points, query, Below(i), far), SqDist(points[i], query);
      i !in m && Distances(points, query, Below(i + 1), far) == if d < far then m[i := d] else m
  {
    hide SqDist;
  }
}
