/** Neighbour search for GPU covariances: growing voxel shells with an early-stop bound, then a brute-force
    pass for the queries whose bound never fired. */
module ShellSearch {
  import opened Collections
  import opened Geometry
  import opened Voxels
  import opened KNearest
  import opened KnnResult
  import opened HashIndex
  import opened IndexedCloud

  const MAX_K: nat := 32
  const MAX_SHELL: nat := 12

  /** The shared top-k list of a warp, ordered by distance and then index. */
  class TopK {
    const k: nat
    const d2: array<real>
    const jj: array<int>
    var n: nat
    ghost var entries: seq<Entry>

    ghost predicate Valid()
      reads this, d2, jj
    {
      && 1 <= k <= MAX_K && d2.Length == jj.Length == MAX_K + 1
      && n == |entries| <= k
      && forall a :: 0 <= a < n ==> Entry(d2[a], jj[a]) == entries[a]
    }

    /** The kernel's lists have room for MAX_K neighbours and index the last one, so 1 <= k <= MAX_K. */
    constructor (k: nat)
      requires 1 <= k <= MAX_K
      ensures Valid() && entries == [] && this.k == k && fresh(d2) && fresh(jj)
    {
      this.k, n, entries := k, 0, [];
      d2, jj := new real[MAX_K + 1], new int[MAX_K + 1];
    }

    method Offer(cd2: real, cj: int)
      requires Valid() && Ascending(entries, true)
      modifies this, d2, jj
      ensures Valid() && entries == Push(old(entries), Entry(cd2, cj), k, true)
    {
      if n < k || Before(Entry(cd2, cj), Entry(d2[n - 1], jj[n - 1]), true) {
        ghost var base := if n < k then entries else entries[..k - 1];
        Place(jj, d2, if n < k then n else k - 1, cj, cd2, true, base);
        entries := Insert(base, Entry(cd2, cj), true);
        n := if n < k then n + 1 else n;
      }
    }
  }

  // ---------------------------------------------------------------- which cells have been probed

  /** Offsets scanned when shell s has been scanned up to number t: all of the inner shells and part of this one. */
  ghost predicate Visited(o: VoxelCoord, s: nat, t: nat) {
    Norm(o) < s || (Norm(o) == s && Encode(o, s) < t)
  }

  /** `seen` holds exactly the points stored at a visited offset, wrapped-around ones included. */
  ghost predicate Collected(cloud: Cloud, c: VoxelCoord, seen: set<int>, s: nat, t: nat) {
    && (forall j :: j in seen ==> 0 <= j < |cloud.points| && exists o :: Visited(o, s, t) && StoredAt(cloud, c, j, o))
    && (forall j, o :: StoredAt(cloud, c, j, o) && Visited(o, s, t) ==> j in seen)
  }

  /** A number that does not decode to the shell itself visits nothing new. */
  lemma VisitInner(cloud: Cloud, c: VoxelCoord, seen: set<int>, s: nat, t: nat)
    requires t < Cells(s) && Collected(cloud, c, seen, s, t) && Norm(Decode(t, s)) != s
    ensures Collected(cloud, c, seen, s, t + 1)
  {
    hide Encode, Decode, Norm, StoredAt, Cells;
    VisitedStep(s, t);
    assert forall o :: Visited(o, s, t + 1) == Visited(o, s, t);
  }

  lemma VisitedStep(s: nat, t: nat)
    requires t < Cells(s)
    ensures forall o :: Visited(o, s, t + 1) <==> Visited(o, s, t) || (o == Decode(t, s) && Norm(o) == s)
  {
    hide Encode, Decode, Norm, Cells;
    EncodeDecode(t, s);
    forall o | Norm(o) == s && Encode(o, s) == t
      ensures o == Decode(t, s)
    {
      DecodeEncode(o, s);
    }
  }

  /** Probing a new offset adds the point stored there, which has not been seen before. */
  lemma VisitShell(cloud: Cloud, c: VoxelCoord, seen: set<int>, s: nat, t: nat, j: int)
    requires t < Cells(s) && s <= MAX_SHELL && Indexed(cloud) && Collected(cloud, c, seen, s, t)
      && Norm(Decode(t, s)) == s
    requires IsIndexOf(cloud.keys, CoordKey(Shift(c, Decode(t, s))), j)
    ensures j >= 0 ==> j !in seen && j < |cloud.points|
    ensures Collected(cloud, c, if j >= 0 then seen + {j} else seen, s, t + 1)
  {
    var o := Decode(t, s);
    EncodeDecode(t, s);
    VisitedStep(s, t);
    hide Encode, Decode, Norm, Cells, CoordKey;
    if j >= 0 {
      assert StoredAt(cloud, c, j, o) && !Visited(o, s, t);
      if j in seen {
        var o' :| Visited(o', s, t) && StoredAt(cloud, c, j, o');
        StoredAtOneOffset(cloud, c, j, o, o');
        assert false;
      }
    }
    var seen' := if j >= 0 then seen + {j} else seen;
    forall i, p | StoredAt(cloud, c, i, p) && Visited(p, s, t + 1)
      ensures i in seen'
    {
      if p == o {
        KeyIsUnique(cloud, CoordKey(Shift(c, o)), i, j);
      }
    }
    forall i | i in seen'
      ensures 0 <= i < |cloud.points| && exists p :: Visited(p, s, t + 1) && StoredAt(cloud, c, i, p)
    {
      if i in seen {
        var p :| Visited(p, s, t) && StoredAt(cloud, c, i, p);
        assert Visited(p, s, t + 1);
      } else {
        assert Visited(o, s, t + 1) && StoredAt(cloud, c, i, o);
      }
    }
  }

  lemma KeyIsUnique(cloud: Cloud, key: nat, i: int, j: int)
    requires Indexed(cloud) && IsIndexOf(cloud.keys, key, j) && 0 <= i < |cloud.keys| && cloud.keys[i] == key
    ensures i == j
  {
    assert cloud.keys[i] in cloud.keys;
    assert j != -1;
  }

  lemma NextShell(cloud: Cloud, c: VoxelCoord, seen: set<int>, s: nat)
    requires Collected(cloud, c, seen, s, Cells(s))
    ensures Collected(cloud, c, seen, s + 1, 0)
  {
    hide Encode, Decode, Norm, Cells, StoredAt;
    forall o
      ensures Visited(o, s + 1, 0) == Visited(o, s, Cells(s))
    {
      EncodeNonNegative(o, s);
      if Norm(o) == s {
        DecodeEncode(o, s);
      }
    }
  }

  lemma EncodeNonNegative(o: VoxelCoord, s: nat)
    ensures Norm(o) == s + 1 ==> Encode(o, s + 1) >= 0
  {
    hide Encode, Decode, Norm, Cells;
    if Norm(o) == s + 1 {
      DecodeEncode(o, s + 1);
    }
  }

  // -------------------------------------------------------------- the points within s shells, and when the bound fires

  /** Point j is stored under the key of a cell of the cube of s shells around cell c. */
  ghost predicate InReach(cloud: Cloud, c: VoxelCoord, j: int, s: nat) {
    exists o :: Norm(o) <= s && StoredAt(cloud, c, j, o)
  }

  ghost function Reached(cloud: Cloud, c: VoxelCoord, s: nat): set<int> {
    set j | 0 <= j < |cloud.points| && InReach(cloud, c, j, s)
  }

  /** What has been seen after shell s depends on the cloud, the cell and s alone. */
  lemma CollectedIsReached(cloud: Cloud, c: VoxelCoord, seen: set<int>, s: nat)
    requires Collected(cloud, c, seen, s + 1, 0)
    requires |cloud.points| == |cloud.keys|
    ensures seen == Reached(cloud, c, s)
  {
    hide Norm, StoredAt, Encode;
    forall o
      ensures Visited(o, s + 1, 0) <==> Norm(o) <= s
    {
      EncodeNonNegative(o, s);
    }
    forall j
      ensures j in seen <==> 0 <= j < |cloud.points| && InReach(cloud, c, j, s)
    {
      if InReach(cloud, c, j, s) {
        var o :| Norm(o) <= s && StoredAt(cloud, c, j, o);
        assert Visited(o, s + 1, 0);
      }
    }
  }

  /** Point j lies in the cube of s shells around the query, within the distance to the nearest face of that cube. */
  ghost predicate InMargin(cloud: Cloud, q: Vec, j: int, s: nat)
    requires cloud.leaf > 0.0
  {
    && 0 <= j < |cloud.points| && Norm(Offset(q, cloud.points[j], cloud.leaf)) <= s
    && SqDist(q, cloud.points[j]) <= Square(ShellBound(q, s, cloud.leaf))
  }

  ghost function Inside(cloud: Cloud, q: Vec, s: nat): set<int>
    requires cloud.leaf > 0.0
  {
    set j | 0 <= j < |cloud.points| && InMargin(cloud, q, j, s)
  }

  /** At least k points lie in the cube of s shells within the distance to its nearest face. */
  ghost predicate Fires(cloud: Cloud, q: Vec, k: nat, s: nat)
    requires cloud.leaf > 0.0
  {
    |Inside(cloud, q, s)| >= k
  }

  lemma ShellBoundGrows(q: Vec, s: nat, s': nat, leaf: real)
    requires leaf > 0.0 && s <= s'
    ensures Square(ShellBound(q, s, leaf)) <= Square(ShellBound(q, s', leaf))
    ensures s < s' ==> Square(ShellBound(q, s, leaf)) < Square(ShellBound(q, s', leaf))
  {
    hide FracMin, Square;
    var m := FracMin(q, leaf);
    ScaledSquares(m + s as real, m + s' as real, leaf, ShellBound(q, s, leaf), ShellBound(q, s', leaf));
  }

  lemma ScaledSquares(a: real, b: real, leaf: real, x: real, y: real)
    requires 0.0 <= a <= b && leaf > 0.0 && x == a * leaf && y == b * leaf
    ensures Square(x) <= Square(y)
    ensures a < b ==> Square(x) < Square(y)
  {
    if a < b {
      StrictProduct(a, b, leaf);
      StrictSquares(x, y);
    }
  }

  lemma StrictProduct(a: real, b: real, leaf: real)
    requires 0.0 <= a < b && leaf > 0.0
    ensures 0.0 <= a * leaf < b * leaf
  {
    PositiveProduct(b - a, leaf);
    assert (b - a) * leaf == b * leaf - a * leaf;
  }

  lemma PositiveProduct(a: real, b: real)
    requires a > 0.0 && b > 0.0
    ensures a * b > 0.0
  {
  }

  lemma StrictSquares(a: real, b: real)
    requires 0.0 <= a < b
    ensures Square(a) < Square(b)
  {
    PositiveProduct(b - a, b);
    assert (b - a) * b == b * b - a * b;
    assert a * (b - a) >= 0.0;
    assert a * (b - a) == a * b - a * a;
  }

  /** Firing does not stop with a larger cube. */
  lemma FiresLater(cloud: Cloud, q: Vec, k: nat, s: nat, s': nat)
    requires cloud.leaf > 0.0 && s <= s' && Fires(cloud, q, k, s)
    ensures Fires(cloud, q, k, s')
  {
    hide Norm, Offset, SqDist, Square, ShellBound;
    ShellBoundGrows(q, s, s', cloud.leaf);
    assert Inside(cloud, q, s) <= Inside(cloud, q, s');
    SubsetCardinality(Inside(cloud, q, s), Inside(cloud, q, s'));
  }

  /** A point stored at a small offset only by wrap-around is farther away than any bound. */
  lemma NotWrapped(cloud: Cloud, q: Vec, j: int, s: nat)
    requires Indexed(cloud) && s <= MAX_SHELL && 0 <= j < |cloud.points|
    requires SqDist(q, cloud.points[j]) <= Square(ShellBound(q, s, cloud.leaf))
    ensures Norm(Offset(q, cloud.points[j], cloud.leaf)) <= 1000
  {
    hide Norm, Offset, SqDist, Square, ShellBound, Indexed;
    LeafPositive(cloud);
    ShellBoundGrows(q, s, 1000, cloud.leaf);
    if Norm(Offset(q, cloud.points[j], cloud.leaf)) > 1000 {
      OutsideCube(q, cloud.points[j], 1000, cloud.leaf);
    }
  }

  /** Within the bound, being stored in the cube is lying in the cube. */
  lemma ReachIsCube(cloud: Cloud, q: Vec, j: int, s: nat)
    requires Indexed(cloud) && s <= MAX_SHELL && 0 <= j < |cloud.points|
    requires SqDist(q, cloud.points[j]) <= Square(ShellBound(q, s, cloud.leaf))
    ensures InReach(cloud, Cell(q, cloud.leaf), j, s) <==> Norm(Offset(q, cloud.points[j], cloud.leaf)) <= s
  {
    hide Norm, Offset, SqDist, Square, ShellBound, Indexed, StoredAt, Cell;
    LeafPositive(cloud);
    NotWrapped(cloud, q, j, s);
    StoredAtTrueOffset(cloud, q, j);
    var c, t := Cell(q, cloud.leaf), Offset(q, cloud.points[j], cloud.leaf);
    if InReach(cloud, c, j, s) {
      var o :| Norm(o) <= s && StoredAt(cloud, c, j, o);
      StoredAtOneOffset(cloud, c, j, o, t);
    }
  }

  lemma InsideIsWithin(cloud: Cloud, q: Vec, s: nat)
    requires Indexed(cloud) && s <= MAX_SHELL
    ensures cloud.leaf > 0.0
    ensures Within(DistanceMap(cloud.points, q, Reached(cloud, Cell(q, cloud.leaf), s)),
                   Square(ShellBound(q, s, cloud.leaf))) == Inside(cloud, q, s)
  {
    hide Norm, Offset, SqDist, Square, ShellBound, Indexed, InReach, Cell;
    LeafPositive(cloud);
    var m, b := DistanceMap(cloud.points, q, Reached(cloud, Cell(q, cloud.leaf), s)),
      Square(ShellBound(q, s, cloud.leaf));
    forall j
      ensures j in Within(m, b) <==> j in Inside(cloud, q, s)
    {
      if 0 <= j < |cloud.points| && SqDist(q, cloud.points[j]) <= b {
        ReachIsCube(cloud, q, j, s);
      }
    }
  }

  /** Points not stored in the cube of s shells are at least as far away as its nearest face. */
  lemma UnreachedIsOutside(cloud: Cloud, q: Vec, s: nat, j: int)
    requires Indexed(cloud) && 0 <= j < |cloud.points| && !InReach(cloud, Cell(q, cloud.leaf), j, s)
    ensures cloud.leaf > 0.0
    ensures Norm(Offset(q, cloud.points[j], cloud.leaf)) > s
    ensures Square(ShellBound(q, s, cloud.leaf)) <= SqDist(q, cloud.points[j])
  {
    hide Square, SqDist, ShellBound, Norm, CoordKey, Cell, Offset, StoredAt, Indexed;
    LeafPositive(cloud);
    StoredAtTrueOffset(cloud, q, j);
    if Norm(Offset(q, cloud.points[j], cloud.leaf)) > s {
      OutsideCube(q, cloud.points[j], s, cloud.leaf);
    }
  }

  // ---------------------------------------------------------------- the shell pass

  ghost predicate Kept(top: TopK, cloud: Cloud, q: Vec, seen: set<int>)
    reads top, top.d2, top.jj
  {
    && top.Valid() && (forall j :: j in seen ==> 0 <= j < |cloud.points|)
    && IsKNearest(top.entries, DistanceMap(cloud.points, q, seen), top.k, true)
  }

  /** Merges one hit into the list. */
  method Merge(cloud: Cloud, q: Vec, j: nat, top: TopK, ghost seen: set<int>)
    requires j < |cloud.points| && j !in seen && Kept(top, cloud, q, seen)
    modifies top, top.d2, top.jj
    ensures Kept(top, cloud, q, seen + {j})
  {
    hide SqDist;
    var d := SqDist(q, cloud.points[j]);
    PushKeeps(top.entries, DistanceMap(cloud.points, q, seen), Entry(d, j), top.k, true);
    top.Offer(d, j);
    assert DistanceMap(cloud.points, q, seen + {j}) == DistanceMap(cloud.points, q, seen)[j := d];
  }

  /** One lane's probe and the merge of its hit. The lanes of a round only read, and lane 0 merges their hits in lane
      order. */
  method ProbeCell(cloud: Cloud, view: View, q: Vec, s: nat, t: nat, top: TopK, ghost seen: set<int>,
                   ghost built: State)
    returns (ghost after: set<int>)
    requires Indexed(cloud) && Serves(view, cloud, built)
    requires s <= MAX_SHELL && t < Cells(s) && Collected(cloud, Cell(q, cloud.leaf), seen, s, t)
      && Kept(top, cloud, q, seen)
    modifies top, top.d2, top.jj
    ensures Collected(cloud, Cell(q, cloud.leaf), after, s, t + 1) && Kept(top, cloud, q, after)
  {
    hide Collected, Encode, Norm, CoordKey, SqDist, Cells, IsKNearest, Inv;
    after := seen;
    var c, o := Cell(q, cloud.leaf), Decode(t, s);
    if Norm(o) == s {
      var j := Probe(cloud, view, CoordKey(Shift(c, o)), built);
      VisitShell(cloud, c, seen, s, t, j);
      if j >= 0 {
        Merge(cloud, q, j, top, seen);
        after := seen + {j};
      }
    } else {
      VisitInner(cloud, c, seen, s, t);
    }
  }

  /** The test of the early stop after shell s. */
  lemma FiringTest(cloud: Cloud, q: Vec, r: seq<Entry>, k: nat, s: nat)
    requires Indexed(cloud) && s <= MAX_SHELL && 0 < k
    requires IsKNearest(r, DistanceMap(cloud.points, q, Reached(cloud, Cell(q, cloud.leaf), s)), k, true)
    ensures cloud.leaf > 0.0
    ensures Fires(cloud, q, k, s) <==> |r| == k && r[k - 1].d <= Square(ShellBound(q, s, cloud.leaf))
  {
    hide Norm, Offset, SqDist, Square, ShellBound, Indexed, InReach, Cell, IsKNearest, Inside, Within;
    InsideIsWithin(cloud, q, s);
    KthWithin(r, DistanceMap(cloud.points, q, Reached(cloud, Cell(q, cloud.leaf), s)), k, true,
              Square(ShellBound(q, s, cloud.leaf)));
  }

  /** Scans shell s: every cell of it is probed once. */
  method ScanShell(cloud: Cloud, view: View, q: Vec, s: nat, top: TopK, ghost seen: set<int>, ghost built: State)
    returns (ghost after: set<int>)
    requires Indexed(cloud) && Serves(view, cloud, built) && s <= MAX_SHELL
    requires Collected(cloud, Cell(q, cloud.leaf), seen, s, 0) && Kept(top, cloud, q, seen)
    modifies top, top.d2, top.jj
    ensures Collected(cloud, Cell(q, cloud.leaf), after, s + 1, 0) && Kept(top, cloud, q, after)
  {
    hide Encode, Norm, CoordKey, SqDist, Square, ShellBound, Cells, StoredAt, Collected, IsKNearest, Indexed, Serves;
    LeafPositive(cloud);
    ghost var c := Cell(q, cloud.leaf);
    after := seen;
    var base := 0;
    while base < Cells(s)
      invariant Kept(top, cloud, q, after)
      invariant Collected(cloud, c, after, s, if base < Cells(s) then base else Cells(s))
      decreases Cells(s) - base
    {
      var lane := 0;
      while lane < 32 && base + lane < Cells(s)
        invariant lane <= 32 && base + lane <= Cells(s)
        invariant Kept(top, cloud, q, after) && Collected(cloud, c, after, s, base + lane)
      {
        after := ProbeCell(cloud, view, q, s, base + lane, top, after, built);
        lane := lane + 1;
      }
      base := base + 32;
    }
    NextShell(cloud, c, after, s);
  }

  /** Grows shells until the k-th best distance is within the bound, or up to the last shell. The list ends as the k
      nearest of the points stored in the cube of the last shell scanned; the bound fires at the first shell at which it
      can. */
  method Shells(cloud: Cloud, view: View, q: Vec, top: TopK, ghost built: State) returns (stop: bool, ghost last: nat)
    requires Indexed(cloud) && Serves(view, cloud, built) && top.Valid() && top.entries == []
    modifies top, top.d2, top.jj
    ensures cloud.leaf > 0.0 && last <= MAX_SHELL
    ensures Kept(top, cloud, q, Reached(cloud, Cell(q, cloud.leaf), last))
    ensures stop <==> Fires(cloud, q, top.k, last)
    ensures forall s :: 0 <= s < last ==> !Fires(cloud, q, top.k, s)
    ensures !stop ==> last == MAX_SHELL
    ensures stop <==> Fires(cloud, q, top.k, MAX_SHELL)
  {
    hide Encode, Norm, CoordKey, SqDist, Square, ShellBound, Cells, StoredAt, Collected, IsKNearest, Reached, Fires,
      Indexed, Serves;
    LeafPositive(cloud);
    stop, last := false, 0;
    var s := 0;
    ghost var c, seen := Cell(q, cloud.leaf), {};
    NothingVisited(cloud, c, q, top);
    while s <= MAX_SHELL && !stop
      invariant Kept(top, cloud, q, seen) && s <= MAX_SHELL + 1
      invariant Collected(cloud, c, seen, s, 0)
      invariant s > 0 ==> last == s - 1 && seen == Reached(cloud, c, last) && (stop <==> Fires(cloud, q, top.k, last))
      invariant s == 0 ==> !stop
      invariant forall i :: 0 <= i < s - 1 ==> !Fires(cloud, q, top.k, i)
      decreases MAX_SHELL + 1 - s
    {
      seen := ScanShell(cloud, view, q, s, top, seen, built);
      SameLength(cloud);
      CollectedIsReached(cloud, c, seen, s);
      FiringTest(cloud, q, top.entries, top.k, s);
      if top.n >= top.k {
        if top.d2[top.k - 1] <= Square(ShellBound(q, s, cloud.leaf)) {
          stop := true;
        }
      }
      last, s := s, s + 1;
    }
    if stop {
      FiresLater(cloud, q, top.k, last, MAX_SHELL);
    }
  }

  lemma SameLength(cloud: Cloud)
    requires Indexed(cloud)
    ensures |cloud.points| == |cloud.keys|
  {
  }

  lemma NothingVisited(cloud: Cloud, c: VoxelCoord, q: Vec, top: TopK)
    requires top.Valid() && top.entries == []
    ensures Collected(cloud, c, {}, 0, 0) && Kept(top, cloud, q, {})
  {
    forall o
      ensures !Visited(o, 0, 0)
    {
      if Norm(o) == 0 {
        DecodeEncode(o, 0);
      }
    }
  }
}
