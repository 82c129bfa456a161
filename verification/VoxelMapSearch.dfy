/** Searching the incremental voxel map of point containers: the cells around the query, each scanned linearly. */
module VoxelMapSearch {
  import opened Arithmetic
  import opened Geometry
  import opened Voxels
  import opened KNearest
  import opened KnnResult
  import opened GaussianVoxel
  import opened IncrementalVoxelMap
  import FlatContainer

  type Points = seq<Vec>

  function PointKind(setting: FlatContainer.Setting): Kind<Points> {
    Kind([], (points: Points, x: Sample) => FlatContainer.Added(setting, points, x.p), (points: Points) => points)
  }

  // ---------------------------------------------------------------- every stored point lies in the cell of its voxel

  ghost predicate InCell(points: Points, c: VoxelCoord, leaf: real)
    requires leaf > 0.0
  {
    forall i :: 0 <= i < |points| ==> Cell(points[i], leaf) == c
  }

  ghost predicate VoxelOk(setting: FlatContainer.Setting, v: Voxel<Points>, leaf: real)
    requires leaf > 0.0
  {
    InCell(v.contents, v.coord, leaf) && FlatContainer.Sparse(setting, v.contents)
  }

  ghost predicate AllOk(setting: FlatContainer.Setting, flat: seq<Voxel<Points>>, leaf: real)
    requires leaf > 0.0
  {
    forall i :: 0 <= i < |flat| ==> VoxelOk(setting, flat[i], leaf)
  }

  lemma {:induction false} TouchKeepsOk(setting: FlatContainer.Setting, flat: seq<Voxel<Points>>, leaf: real, lru: nat,
                                        x: Sample)
    requires leaf > 0.0 && AllOk(setting, flat, leaf)
    ensures AllOk(setting, Touch(PointKind(setting), leaf, flat, lru, x), leaf)
  {
    hide Cell, FlatContainer.TooClose;
    var c := Cell(x.p, leaf);
    var i := Find(flat, c);
    var points: Points := if i < |flat| then flat[i].contents else [];
    FlatContainer.AddedStaysSparse(setting, points, x.p);
    assert VoxelOk(setting, Voxel(lru, c, FlatContainer.Added(setting, points, x.p)), leaf);
    hide VoxelOk;
  }

  lemma {:induction false} TouchAllKeepsOk(setting: FlatContainer.Setting, flat: seq<Voxel<Points>>, leaf: real,
                                           lru: nat, xs: seq<Sample>, n: nat)
    requires leaf > 0.0 && n <= |xs| && AllOk(setting, flat, leaf)
    ensures AllOk(setting, TouchAll(PointKind(setting), leaf, flat, lru, xs, n), leaf)
  {
    hide AllOk, Touch;
    if n > 0 {
      TouchAllKeepsOk(setting, flat, leaf, lru, xs, n - 1);
      TouchKeepsOk(setting, TouchAll(PointKind(setting), leaf, flat, lru, xs, n - 1), leaf, lru, xs[n - 1]);
    }
  }

  /** Every insertion keeps every stored point in the cell of its voxel, and every voxel sparse. */
  lemma {:induction false} InsertKeepsOk(setting: FlatContainer.Setting, flat: seq<Voxel<Points>>, leaf: real, lru: nat,
                                         horizon: nat, cycle: nat, xs: seq<Sample>)
    requires leaf > 0.0 && cycle > 0 && AllOk(setting, flat, leaf)
    ensures AllOk(setting, Inserted(PointKind(setting), leaf, flat, lru, horizon, cycle, xs), leaf)
  {
    hide TouchAll, Evict, VoxelOk;
    TouchAllKeepsOk(setting, flat, leaf, lru, xs, |xs|);
    var touched := TouchAll(PointKind(setting), leaf, flat, lru, xs, |xs|);
    var kept := if (lru + 1) % cycle == 0 then Evict(touched, horizon, lru + 1) else touched;
    EvictMembers(touched, horizon, lru + 1);
    forall i | 0 <= i < |kept|
      ensures VoxelOk(setting, kept[i], leaf)
    {
      assert kept[i] in kept && kept[i] in touched;
    }
    assert Inserted(PointKind(setting), leaf, flat, lru, horizon, cycle, xs) == FinalizeAll(PointKind(setting), kept);
  }

  // ---------------------------------------------------------------- global point indices

  const WIDTH: nat := 0x1_0000_0000

  function CalcIndex(voxelId: nat, pointId: nat): int {
    voxelId * WIDTH + pointId
  }

  function VoxelId(j: int): int {
    j / WIDTH
  }

  function PointId(j: int): int {
    j % WIDTH
  }

  /** On 64-bit words, shifting and or-ing two 32-bit ids is this packing, and shifting and masking takes it apart. */
  lemma IndexWords(v: bv64, p: bv64)
    requires v < 0x1_0000_0000 && p < 0x1_0000_0000
    ensures var j := (v << 32) | p;
      j == v * 0x1_0000_0000 + p && j >> 32 == v && j & 0xFFFF_FFFF == p
  {
  }

  lemma IndexRoundTrip(v: nat, p: nat)
    requires p < WIDTH
    ensures VoxelId(CalcIndex(v, p)) == v && PointId(CalcIndex(v, p)) == p
  {
    DivMod(v, p, WIDTH);
  }

  /** Indices are ordered by voxel, and within a voxel by point. */
  lemma IndexOrder(v: nat, p: nat, v': nat, p': nat)
    requires p < WIDTH && p' < WIDTH
    ensures CalcIndex(v, p) < CalcIndex(v', p') <==> v < v' || (v == v' && p < p')
  {
    if v < v' {
      ProductAtLeast(v', v + 1, WIDTH);
    } else if v' < v {
      ProductAtLeast(v, v' + 1, WIDTH);
    }
  }

  lemma IndexOfParts(j: int)
    requires j >= 0
    ensures VoxelId(j) >= 0 && PointId(j) >= 0 && CalcIndex(VoxelId(j), PointId(j)) == j
  {
  }

  /** The index names a stored point. */
  ghost predicate Live(flat: seq<Voxel<Points>>, j: int) {
    0 <= j && VoxelId(j) < |flat| && PointId(j) < |flat[VoxelId(j)].contents|
  }

  ghost function PointAt(flat: seq<Voxel<Points>>, j: int): Vec
    requires Live(flat, j)
  {
    flat[VoxelId(j)].contents[PointId(j)]
  }

  ghost function CoordOf(flat: seq<Voxel<Points>>, j: int): VoxelCoord
    requires Live(flat, j)
  {
    flat[VoxelId(j)].coord
  }

  /** Ids fit into their 32 bits. */
  ghost predicate IdsFit(flat: seq<Voxel<Points>>) {
    |flat| <= WIDTH && forall i :: 0 <= i < |flat| ==> |flat[i].contents| <= WIDTH
  }

  ghost predicate AllLive(flat: seq<Voxel<Points>>, ids: set<int>) {
    forall j :: j in ids ==> Live(flat, j)
  }

  ghost function Candidates(flat: seq<Voxel<Points>>, q: Vec, ids: set<int>, far: real): map<int, real>
    requires AllLive(flat, ids)
  {
    map j | j in ids && SqDist(PointAt(flat, j), q) < far :: SqDist(PointAt(flat, j), q)
  }

  /** The global indices of the first n points of a voxel. */
  ghost function VoxelIds(v: nat, n: nat): (s: set<int>)
    requires n <= WIDTH
    ensures forall j :: j in s <==> j >= 0 && VoxelId(j) == v && PointId(j) < n
  {
    if n == 0 then {}
    else
      IndexRoundTrip(v, n - 1);
      VoxelIds(v, n - 1) + {CalcIndex(v, n - 1)}
  }

  // ---------------------------------------------------------------- the search as a function

  /** Offering the first n points of a voxel. */
  ghost function Scanned(points: Points, voxelId: nat, n: nat, q: Vec, r: seq<Entry>, k: nat,
                         far: real): (s: seq<Entry>)
    requires n <= |points| && |r| <= k && 0 < k
    ensures |s| <= k
  {
    if n == 0 then r
    else Offer(Scanned(points, voxelId, n - 1, q, r, k, far),
               Entry(SqDist(points[n - 1], q), CalcIndex(voxelId, n - 1)), k, far)
  }

  /** The cells that the first n offsets of the pattern lead to, one after the other. */
  ghost function SearchResult(flat: seq<Voxel<Points>>, offsets: seq<VoxelCoord>, n: nat, center: VoxelCoord, q: Vec,
                              k: nat, far: real): (s: seq<Entry>)
    requires n <= |offsets| && 0 < k
    ensures |s| <= k
  {
    if n == 0 then []
    else
      var t, i := SearchResult(flat, offsets, n - 1, center, q, k, far), Find(flat, Shift(center, offsets[n - 1]));
      if i < |flat| then Scanned(flat[i].contents, i, |flat[i].contents|, q, t, k, far) else t
  }

  lemma OfferKeepsAscending(r: seq<Entry>, e: Entry, k: nat, far: real)
    requires |r| <= k && 0 < k && Ascending(r, false)
    ensures Ascending(Offer(r, e, k, far), false)
  {
    var base := if |r| < k then r else r[..k - 1];
    InsertAtSplits(base, e, false);
    InsertCells(base, e, false);
    hide Insert, InsertAt;
  }

  method ScanVoxel(points: Points, voxelId: nat, q: Vec, result: KnnResult)
    requires result.Valid() && Ascending(result.entries, false)
    modifies result, result.indices, result.distances
    ensures result.Valid() && Ascending(result.entries, false)
    ensures result.entries == Scanned(points, voxelId, |points|, q, old(result.entries), result.k, result.far)
  {
    for i := 0 to |points|
      invariant result.Valid() && Ascending(result.entries, false)
      invariant result.entries == Scanned(points, voxelId, i, q, old(result.entries), result.k, result.far)
    {
      hide Ascending, Push, SqDist;
      OfferKeepsAscending(result.entries, Entry(SqDist(points[i], q), CalcIndex(voxelId, i)), result.k, result.far);
      result.Push(CalcIndex(voxelId, i), SqDist(points[i], q));
    }
  }

  /** nearest_neighbor_search (k = 1) and knn_search. */
  method KnnSearch(voxelMap: IncrementalVoxelMap<Points>, q: Vec, k: nat, kIndices: array<int>, kSqDists: array<real>,
                   far: real, invalid: int)
    returns (found: nat, ghost entries: seq<Entry>)
    requires voxelMap.Valid() && 0 < k && kIndices.Length == kSqDists.Length == k
    modifies kIndices, kSqDists
    ensures found == |entries| <= k && forall a :: 0 <= a < found ==> Entry(kSqDists[a], kIndices[a]) == entries[a]
    ensures Unused(kIndices, kSqDists, found, k, far, invalid)
    ensures voxelMap.leaf > 0.0
    ensures entries == SearchResult(voxelMap.flatVoxels, voxelMap.searchOffsets, |voxelMap.searchOffsets|,
                                    Cell(q, voxelMap.leaf), q, k, far)
  {
    hide Mutual, Recent, Cell, Scanned;
    var result := new KnnResult(kIndices, kSqDists, k, far, invalid);
    var flat, voxels, offsets, center := voxelMap.flatVoxels, voxelMap.voxels, voxelMap.searchOffsets,
      Cell(q, voxelMap.leaf);
    for o := 0 to |offsets|
      invariant result.Valid() && Ascending(result.entries, false)
      invariant result.k == k && result.far == far && result.invalid == invalid
      invariant result.indices == kIndices && result.distances == kSqDists
      invariant result.entries == SearchResult(flat, offsets, o, center, q, k, far)
    {
      var coord := Shift(center, offsets[o]);
      LookupIsFind(flat, voxels, coord);
      FoundBelow(flat, voxels, coord);
      if coord in voxels {
        var voxelIndex := voxels[coord];
        ScanVoxel(flat[voxelIndex].contents, voxelIndex, q, result);
      }
    }
    found, entries := result.numFound, result.entries;
  }

  lemma FoundBelow(flat: seq<Voxel<Points>>, voxels: map<VoxelCoord, nat>, c: VoxelCoord)
    requires Mutual(flat, voxels)
    ensures c in voxels ==> voxels[c] < |flat|
  {
  }

  // ------------------------------------------------------ when the result is the k nearest of the cells of the pattern

  lemma CandidatesExtend(flat: seq<Voxel<Points>>, q: Vec, seen: set<int>, j: int, far: real)
    requires AllLive(flat, seen) && Live(flat, j)
    ensures AllLive(flat, seen + {j})
    ensures var m, d := Candidates(flat, q, seen, far), SqDist(PointAt(flat, j), q);
      Candidates(flat, q, seen + {j}, far) == (if d < far then m[j := d] else m) && (j in m <==> j in seen && d < far)
        && (j in m ==> m[j] == d)
  {
    hide SqDist, PointAt, Live;
  }

  /** With room for one entry, offering a candidate a second time changes nothing. */
  lemma AgainKeeps(r: seq<Entry>, m: map<int, real>, e: Entry)
    requires IsKNearest(r, m, 1, false) && e.j in m && e.d == m[e.j]
    ensures Push(r, e, 1, false) == r && m[e.j := e.d] == m
  {
    NoneNearer(r, m, e.j);
    assert m[e.j := e.d] == m;
  }

  lemma OfferKeeps(flat: seq<Voxel<Points>>, q: Vec, seen: set<int>, j: int, r: seq<Entry>, k: nat, far: real)
    requires 0 < k && AllLive(flat, seen) && Live(flat, j) && (k == 1 || j !in seen)
    requires IsKNearest(r, Candidates(flat, q, seen, far), k, false) && |r| <= k
    ensures AllLive(flat, seen + {j})
    ensures IsKNearest(Offer(r, Entry(SqDist(PointAt(flat, j), q), j), k, far), Candidates(flat, q, seen + {j}, far), k,
                       false)
  {
    hide SqDist, Live, IsKNearest, Candidates, PointAt;
    CandidatesExtend(flat, q, seen, j, far);
    var m, e := Candidates(flat, q, seen, far), Entry(SqDist(PointAt(flat, j), q), j);
    if e.d < far {
      if j in seen {
        AgainKeeps(r, m, e);
      } else {
        PushKeeps(r, m, e, k, false);
      }
    }
  }

  lemma LiveIndex(flat: seq<Voxel<Points>>, v: nat, p: nat)
    requires v < |flat| && p < |flat[v].contents| && p < WIDTH
    ensures Live(flat, CalcIndex(v, p)) && PointAt(flat, CalcIndex(v, p)) == flat[v].contents[p]
  {
    IndexRoundTrip(v, p);
  }

  lemma VoxelIdsStep(v: nat, n: nat)
    requires n < WIDTH
    ensures VoxelIds(v, n + 1) == VoxelIds(v, n) + {CalcIndex(v, n)} && CalcIndex(v, n) !in VoxelIds(v, n)
      && VoxelIds(v, 0) == {}
  {
    IndexRoundTrip(v, n);
  }

  lemma NotYetSeen(v: nat, i: nat, n: nat, seen: set<int>)
    requires i < n <= WIDTH
    ensures seen !! VoxelIds(v, n) ==> CalcIndex(v, i) !in seen
  {
    IndexRoundTrip(v, i);
    assert CalcIndex(v, i) in VoxelIds(v, n);
  }

  lemma {:induction false} ScanKeeps(flat: seq<Voxel<Points>>, v: nat, n: nat, q: Vec, seen: set<int>, r: seq<Entry>,
                                     k: nat, far: real)
    requires v < |flat| && n <= |flat[v].contents| <= WIDTH && 0 < k && |r| <= k && AllLive(flat, seen)
    requires k == 1 || seen !! VoxelIds(v, |flat[v].contents|)
    requires IsKNearest(r, Candidates(flat, q, seen, far), k, false)
    ensures AllLive(flat, seen + VoxelIds(v, n))
    ensures IsKNearest(Scanned(flat[v].contents, v, n, q, r, k, far), Candidates(flat, q, seen + VoxelIds(v, n), far),
                       k, false)
  {
    hide VoxelIds, CalcIndex, IsKNearest, Candidates, Live, SqDist, Offer, AllLive;
    if n == 0 {
      VoxelIdsStep(v, 0);
      assert seen + VoxelIds(v, 0) == seen;
    } else {
      ScanKeeps(flat, v, n - 1, q, seen, r, k, far);
      VoxelIdsStep(v, n - 1);
      NotYetSeen(v, n - 1, |flat[v].contents|, seen);
      LiveIndex(flat, v, n - 1);
      var before := seen + VoxelIds(v, n - 1);
      assert seen + VoxelIds(v, n) == before + {CalcIndex(v, n - 1)};
      OfferKeeps(flat, q, before, CalcIndex(v, n - 1), Scanned(flat[v].contents, v, n - 1, q, r, k, far), k, far);
    }
  }

  /** Some of the first n offsets leads from the centre to the cell c. */
  ghost predicate Reaches(offsets: seq<VoxelCoord>, n: nat, center: VoxelCoord, c: VoxelCoord)
    requires n <= |offsets|
  {
    exists i :: 0 <= i < n && Shift(center, offsets[i]) == c
  }

  /** The stored points of the cells that the first n offsets lead to. */
  ghost predicate IsSearched(flat: seq<Voxel<Points>>, offsets: seq<VoxelCoord>, n: nat, center: VoxelCoord,
                             seen: set<int>)
    requires n <= |offsets|
  {
    forall j :: j in seen <==> Live(flat, j) && Reaches(offsets, n, center, CoordOf(flat, j))
  }

  ghost predicate DistinctOffsets(offsets: seq<VoxelCoord>) {
    forall i, j :: 0 <= i < j < |offsets| ==> offsets[i] != offsets[j]
  }

  lemma NewCell(offsets: seq<VoxelCoord>, n: nat, center: VoxelCoord)
    requires n < |offsets| && DistinctOffsets(offsets)
    ensures !Reaches(offsets, n, center, Shift(center, offsets[n]))
  {
  }

  /** A cell reached by one more offset: the points of its voxel are new, unless an offset is repeated. */
  lemma SeenStep(flat: seq<Voxel<Points>>, offsets: seq<VoxelCoord>, n: nat, center: VoxelCoord, seen: set<int>)
    requires DistinctCoords(flat) && n < |offsets| && IdsFit(flat) && IsSearched(flat, offsets, n, center, seen)
    ensures var i := Find(flat, Shift(center, offsets[n]));
      if i < |flat| then
        && |flat[i].contents| <= WIDTH
        && IsSearched(flat, offsets, n + 1, center, seen + VoxelIds(i, |flat[i].contents|))
        && (DistinctOffsets(offsets) ==> seen !! VoxelIds(i, |flat[i].contents|))
      else IsSearched(flat, offsets, n + 1, center, seen)
  {
    hide VoxelIds, VoxelId, PointId, Shift, Find;
    var c := Shift(center, offsets[n]);
    var i := Find(flat, c);
    forall j | Live(flat, j)
      ensures Reaches(offsets, n + 1, center, CoordOf(flat, j)) <==>
        Reaches(offsets, n, center, CoordOf(flat, j)) || CoordOf(flat, j) == c
      ensures CoordOf(flat, j) == c <==> i < |flat| && VoxelId(j) == i
    {
      IndexOfParts(j);
    }
    forall j | 0 <= j
      ensures VoxelId(j) >= 0 && PointId(j) >= 0
    {
      IndexOfParts(j);
    }
    if i < |flat| && DistinctOffsets(offsets) {
      forall j | j in VoxelIds(i, |flat[i].contents|)
        ensures j !in seen
      {
        assert Live(flat, j) && CoordOf(flat, j) == c;
        NewCell(offsets, n, center);
      }
    }
  }

  /** The k nearest of the stored points of the cells of the pattern, when k is 1 or no offset is repeated. */
  lemma {:induction false} SearchIsKNearest(flat: seq<Voxel<Points>>, offsets: seq<VoxelCoord>, n: nat,
                                            center: VoxelCoord, q: Vec, k: nat, far: real)
    returns (seen: set<int>)
    requires DistinctCoords(flat) && IdsFit(flat) && n <= |offsets| && 0 < k && (k == 1 || DistinctOffsets(offsets))
    ensures IsSearched(flat, offsets, n, center, seen) && AllLive(flat, seen)
    ensures IsKNearest(SearchResult(flat, offsets, n, center, q, k, far), Candidates(flat, q, seen, far), k, false)
  {
    if n == 0 {
      seen := {};
      assert Candidates(flat, q, seen, far) == map[];
    } else {
      hide IsKNearest, Candidates, VoxelIds, DistinctCoords, IdsFit, DistinctOffsets, IsSearched, AllLive, Scanned,
        Shift, Find;
      seen := SearchIsKNearest(flat, offsets, n - 1, center, q, k, far);
      SeenStep(flat, offsets, n - 1, center, seen);
      var i := Find(flat, Shift(center, offsets[n - 1]));
      if i < |flat| {
        ScanKeeps(flat, i, |flat[i].contents|, q, seen, SearchResult(flat, offsets, n - 1, center, q, k, far), k, far);
        seen := seen + VoxelIds(i, |flat[i].contents|);
      }
    }
  }

  // ---------------------------------------------------------------- of equally far points the one visited first

  /** Offering candidates one after the other. */
  ghost function OfferAll(r: seq<Entry>, cs: seq<Entry>, k: nat, far: real): (s: seq<Entry>)
    requires |r| <= k && 0 < k
    ensures |s| <= k
  {
    if |cs| == 0 then r else Offer(OfferAll(r, cs[..|cs| - 1], k, far), cs[|cs| - 1], k, far)
  }

  /** The first n points of a voxel as candidates. */
  ghost function VoxelEntries(points: Points, voxelId: nat, n: nat, q: Vec): seq<Entry>
    requires n <= |points|
  {
    if n == 0 then []
    else VoxelEntries(points, voxelId, n - 1, q) + [Entry(SqDist(points[n - 1], q), CalcIndex(voxelId, n - 1))]
  }

  /** What the search visits: the cells of the pattern in its order, and the points of each in theirs. */
  ghost function Visited(flat: seq<Voxel<Points>>, offsets: seq<VoxelCoord>, n: nat, center: VoxelCoord,
                         q: Vec): seq<Entry>
    requires n <= |offsets|
  {
    if n == 0 then []
    else
      var t, i := Visited(flat, offsets, n - 1, center, q), Find(flat, Shift(center, offsets[n - 1]));
      if i < |flat| then t + VoxelEntries(flat[i].contents, i, |flat[i].contents|, q) else t
  }

  lemma {:induction false} OfferJoin(r: seq<Entry>, a: seq<Entry>, b: seq<Entry>, k: nat, far: real)
    requires |r| <= k && 0 < k
    ensures OfferAll(r, a + b, k, far) == OfferAll(OfferAll(r, a, k, far), b, k, far)
  {
    hide Offer;
    if |b| == 0 {
      assert a + b == a;
    } else {
      assert (a + b)[..|a + b| - 1] == a + b[..|b| - 1];
      OfferJoin(r, a, b[..|b| - 1], k, far);
    }
  }

  lemma {:induction false} ScanOffers(points: Points, voxelId: nat, n: nat, q: Vec, r: seq<Entry>, k: nat, far: real)
    requires n <= |points| && |r| <= k && 0 < k
    ensures Scanned(points, voxelId, n, q, r, k, far) == OfferAll(r, VoxelEntries(points, voxelId, n, q), k, far)
  {
    hide Offer, SqDist, CalcIndex;
    if n > 0 {
      ScanOffers(points, voxelId, n - 1, q, r, k, far);
      var cs := VoxelEntries(points, voxelId, n, q);
      assert cs[..|cs| - 1] == VoxelEntries(points, voxelId, n - 1, q);
    }
  }

  lemma {:induction false} SearchOffers(flat: seq<Voxel<Points>>, offsets: seq<VoxelCoord>, n: nat, center: VoxelCoord,
                                        q: Vec, k: nat, far: real)
    requires n <= |offsets| && 0 < k
    ensures SearchResult(flat, offsets, n, center, q, k, far)
      == OfferAll([], Visited(flat, offsets, n, center, q), k, far)
  {
    hide Scanned, VoxelEntries, Find, Shift;
    if n > 0 {
      SearchOffers(flat, offsets, n - 1, center, q, k, far);
      var t, i := Visited(flat, offsets, n - 1, center, q), Find(flat, Shift(center, offsets[n - 1]));
      if i < |flat| {
        var points := flat[i].contents;
        ScanOffers(points, i, |points|, q, SearchResult(flat, offsets, n - 1, center, q, k, far), k, far);
        OfferJoin([], t, VoxelEntries(points, i, |points|, q), k, far);
      }
    }
  }

  /** The distances of the candidates by the number of their visit. */
  ghost function Numbered(cs: seq<Entry>, far: real): map<int, real> {
    map i: int | 0 <= i < |cs| && cs[i].d < far :: cs[i].d
  }

  /** `s` lists the visits whose candidates `r` lists. */
  ghost predicate Names(r: seq<Entry>, s: seq<Entry>, cs: seq<Entry>) {
    |s| == |r| && forall a :: 0 <= a < |s| ==> 0 <= s[a].j < |cs| && r[a] == cs[s[a].j] && s[a].d == r[a].d
  }

  lemma {:induction false} SamePlace(r: seq<Entry>, s: seq<Entry>, e: Entry, e': Entry)
    requires |r| == |s| && e.d == e'.d && forall a :: 0 <= a < |r| ==> r[a].d == s[a].d
    ensures InsertAt(r, e, false) == InsertAt(s, e', false)
  {
    if |r| > 0 {
      SamePlace(r[..|r| - 1], s[..|s| - 1], e, e');
    }
  }

  lemma InsertNames(r: seq<Entry>, s: seq<Entry>, cs: seq<Entry>, i: nat)
    requires Names(r, s, cs) && i < |cs|
    ensures Names(Insert(r, cs[i], false), Insert(s, Entry(cs[i].d, i), false), cs)
  {
    SamePlace(r, s, cs[i], Entry(cs[i].d, i));
    InsertCells(r, cs[i], false);
    InsertCells(s, Entry(cs[i].d, i), false);
    hide Insert, InsertAt;
  }

  lemma PushNames(r: seq<Entry>, s: seq<Entry>, cs: seq<Entry>, i: nat, k: nat)
    requires Names(r, s, cs) && i < |cs| && |r| <= k && 0 < k
    ensures Names(Push(r, cs[i], k, false), Push(s, Entry(cs[i].d, i), k, false), cs)
  {
    hide Insert;
    if |r| < k {
      InsertNames(r, s, cs, i);
    } else {
      InsertNames(r[..k - 1], s[..k - 1], cs, i);
    }
  }

  lemma VisitsSoFar(s: seq<Entry>, cs: seq<Entry>, k: nat, far: real)
    requires IsKNearest(s, Numbered(cs, far), k, true)
    ensures |s| <= k && forall x :: x in s ==> x.j < |cs|
  {
  }

  lemma OneMoreVisit(t: seq<Entry>, cs: seq<Entry>, far: real)
    requires |cs| > 0 && t == cs[..|cs| - 1]
    ensures var n, m := |t|, Numbered(t, far);
      n !in m && Numbered(cs, far) == if cs[n].d < far then m[n := cs[n].d] else m
  {
  }

  lemma StillNames(r: seq<Entry>, s: seq<Entry>, t: seq<Entry>, cs: seq<Entry>)
    requires Names(r, s, t) && t <= cs
    ensures Names(r, s, cs)
  {
  }

  lemma OfferStep(r: seq<Entry>, was: seq<Entry>, t: seq<Entry>, cs: seq<Entry>, k: nat, far: real)
    returns (s: seq<Entry>)
    requires 0 < k && |r| <= k && |cs| > 0 && t == cs[..|cs| - 1]
    requires Names(r, was, t) && IsKNearest(was, Numbered(t, far), k, true)
    ensures Names(Offer(r, cs[|t|], k, far), s, cs) && IsKNearest(s, Numbered(cs, far), k, true)
  {
    hide IsKNearest, Push, Numbered, Names;
    var n := |t|;
    var e := Entry(cs[n].d, n);
    VisitsSoFar(was, t, k, far);
    OneMoreVisit(t, cs, far);
    StillNames(r, was, t, cs);
    s := was;
    if e.d < far {
      PushKeeps(was, Numbered(t, far), e, k, true);
      LatestIsPlain(was, e, k);
      PushNames(r, was, cs, n, k);
      s := Push(was, e, k, true);
    }
  }

  lemma {:induction false} OffersInOrder(cs: seq<Entry>, k: nat, far: real) returns (s: seq<Entry>)
    requires 0 < k
    ensures Names(OfferAll([], cs, k, far), s, cs) && IsKNearest(s, Numbered(cs, far), k, true)
  {
    if |cs| == 0 {
      s := [];
    } else {
      hide IsKNearest, Push, Numbered, Names, Offer;
      var t := cs[..|cs| - 1];
      var was := OffersInOrder(t, k, far);
      s := OfferStep(OfferAll([], t, k, far), was, t, cs, k, far);
    }
  }

  /** For every pattern, even one with repeats: the result lists the k first visits by distance, of equally far ones the
      earlier visit. */
  lemma SearchInVisitOrder(flat: seq<Voxel<Points>>, offsets: seq<VoxelCoord>, center: VoxelCoord, q: Vec, k: nat,
                           far: real)
    returns (s: seq<Entry>)
    requires 0 < k
    ensures var cs := Visited(flat, offsets, |offsets|, center, q);
      && Names(SearchResult(flat, offsets, |offsets|, center, q, k, far), s, cs)
      && IsKNearest(s, Numbered(cs, far), k, true)
  {
    hide IsKNearest, Names;
    SearchOffers(flat, offsets, |offsets|, center, q, k, far);
    s := OffersInOrder(Visited(flat, offsets, |offsets|, center, q), k, far);
  }

  // -------------------------------------------------------------- a near enough result is the nearest of the whole map

  /** The pattern includes the 27 cells around the centre. */
  ghost predicate CoversCube(offsets: seq<VoxelCoord>) {
    forall o :: Norm(o) <= 1 ==> o in offsets
  }

  lemma CubeCovers()
    ensures CoversCube(CubeOffsets())
  {
    hide Row, Rows, Slabs;
    forall o: VoxelCoord | Norm(o) <= 1
      ensures o in CubeOffsets()
    {
      RowHas(o.x, o.y, 2, o.z);
      RowsHave(o.x, 2, o.y, o);
      SlabsHave(2, o.x, o);
    }
  }

  lemma {:induction false} RowHas(i: int, j: int, n: int, k: int)
    requires -1 <= k < n
    ensures VoxelCoord(i, j, k) in Row(i, j, n)
    decreases n - k
  {
    if k < n - 1 {
      RowHas(i, j, n - 1, k);
    }
  }

  lemma {:induction false} RowsHave(i: int, n: int, j: int, c: VoxelCoord)
    requires -1 <= j < n && c in Row(i, j, 2)
    ensures c in Rows(i, n)
    decreases n - j
  {
    hide Row;
    if j < n - 1 {
      RowsHave(i, n - 1, j, c);
    }
  }

  lemma {:induction false} SlabsHave(n: int, i: int, c: VoxelCoord)
    requires -1 <= i < n && c in Rows(i, 2)
    ensures c in Slabs(n)
    decreases n - i
  {
    hide Rows;
    if i < n - 1 {
      SlabsHave(n - 1, i, c);
    }
  }

  lemma Symmetric(p: Vec, q: Vec)
    ensures SqDist(p, q) == SqDist(q, p)
  {
    assert Square(p.x - q.x) == Square(q.x - p.x) && Square(p.y - q.y) == Square(q.y - p.y)
      && Square(p.z - q.z) == Square(q.z - p.z);
  }

  /** A point outside the 27 cells around the query is at least a leaf away. */
  lemma OutsideIsFar(q: Vec, p: Vec, leaf: real)
    requires leaf > 0.0 && Norm(Offset(q, p, leaf)) > 1
    ensures SqDist(p, q) >= Square(leaf)
  {
    hide SqDist, FracMin, Norm, Offset, Square;
    OutsideCube(q, p, 1, leaf);
    Symmetric(p, q);
    BoundAtLeast(q, leaf);
  }

  lemma BoundAtLeast(q: Vec, leaf: real)
    requires leaf > 0.0
    ensures Square(leaf) <= Square(ShellBound(q, 1, leaf))
  {
    hide FracMin, Square;
    var m := FracMin(q, leaf);
    assert ShellBound(q, 1, leaf) == m * leaf + leaf;
    assert m * leaf >= 0.0;
    SquareMonotone(leaf, ShellBound(q, 1, leaf));
  }

  /** A stored point within the 27 cells is searched. */
  lemma NearIsSearched(setting: FlatContainer.Setting, flat: seq<Voxel<Points>>, leaf: real, offsets: seq<VoxelCoord>,
                       q: Vec, seen: set<int>, j: int)
    requires leaf > 0.0 && AllOk(setting, flat, leaf) && CoversCube(offsets)
      && IsSearched(flat, offsets, |offsets|, Cell(q, leaf), seen)
    requires Live(flat, j)
    ensures Norm(Offset(q, PointAt(flat, j), leaf)) <= 1 ==> j in seen
  {
    hide FastFloor, Norm;
    var p, o := PointAt(flat, j), Offset(q, PointAt(flat, j), leaf);
    IndexOfParts(j);
    assert VoxelOk(setting, flat[VoxelId(j)], leaf);
    assert Cell(p, leaf) == CoordOf(flat, j);
    assert Shift(Cell(q, leaf), o) == CoordOf(flat, j);
    if Norm(o) <= 1 {
      var i :| 0 <= i < |offsets| && offsets[i] == o;
      assert Reaches(offsets, |offsets|, Cell(q, leaf), CoordOf(flat, j));
    }
  }

  /** With the 27 cells searched: a result within a leaf is the nearest stored point of the whole map, its index names
      that point, and no result means that no stored point is within a leaf. */
  lemma NearestIsGlobal(setting: FlatContainer.Setting, flat: seq<Voxel<Points>>, leaf: real, offsets: seq<VoxelCoord>,
                        q: Vec, far: real)
    requires leaf > 0.0 && DistinctCoords(flat) && IdsFit(flat) && AllOk(setting, flat, leaf) && CoversCube(offsets)
    ensures var r := SearchResult(flat, offsets, |offsets|, Cell(q, leaf), q, 1, far);
      && (|r| == 1 ==> Live(flat, r[0].j) && r[0].d == SqDist(PointAt(flat, r[0].j), q))
      && (|r| == 1 && r[0].d <= Square(leaf) ==> forall j :: Live(flat, j) ==> r[0].d <= SqDist(PointAt(flat, j), q))
      && (|r| == 0 ==> forall j :: Live(flat, j) ==>
          SqDist(PointAt(flat, j), q) >= Square(leaf) || SqDist(PointAt(flat, j), q) >= far)
  {
    hide SqDist, Square, FastFloor, AllOk, DistinctCoords, IdsFit, CoversCube, SearchResult;
    var r := SearchResult(flat, offsets, |offsets|, Cell(q, leaf), q, 1, far);
    var seen := SearchIsKNearest(flat, offsets, |offsets|, Cell(q, leaf), q, 1, far);
    var m := Candidates(flat, q, seen, far);
    if |r| == 1 {
      assert r[0] in r && r[0].j in m && r[0].j in seen;
    }
    forall j | Live(flat, j)
      ensures SqDist(PointAt(flat, j), q) >= Square(leaf) || SqDist(PointAt(flat, j), q) >= far
        || (|r| == 1 && r[0].d <= SqDist(PointAt(flat, j), q))
    {
      if j !in seen {
        NearIsSearched(setting, flat, leaf, offsets, q, seen, j);
        OutsideIsFar(q, PointAt(flat, j), leaf);
      } else if j in m {
        NoneNearer(r, m, j);
      }
    }
  }

  /** The global indices of the points of the first n voxels. */
  ghost function AllIds(flat: seq<Voxel<Points>>, n: nat): (s: set<int>)
    requires n <= |flat| && IdsFit(flat)
    ensures forall j :: j in s <==> Live(flat, j) && VoxelId(j) < n
  {
    hide VoxelId, PointId;
    if n == 0 then
      NoIdBelowZero();
      {}
    else AllIds(flat, n - 1) + VoxelIds(n - 1, |flat[n - 1].contents|)
  }

  lemma NoIdBelowZero()
    ensures forall j :: 0 <= j ==> VoxelId(j) >= 0 && PointId(j) >= 0
  {
  }

  lemma LiveIsIn(flat: seq<Voxel<Points>>, seen: set<int>)
    requires IdsFit(flat) && AllLive(flat, seen)
    ensures AllLive(flat, AllIds(flat, |flat|)) && seen <= AllIds(flat, |flat|)
  {
    hide IdsFit, VoxelId, PointId;
    forall j | j in seen
      ensures j in AllIds(flat, |flat|)
    {
      assert Live(flat, j);
    }
  }

  lemma SearchedIsPart(flat: seq<Voxel<Points>>, q: Vec, seen: set<int>, all: set<int>, far: real)
    requires AllLive(flat, seen) && AllLive(flat, all) && seen <= all
    ensures Part(Candidates(flat, q, seen, far), Candidates(flat, q, all, far))
  {
    hide SqDist, Live, PointAt;
  }

  /** For any number of neighbours: the result is the k nearest of the whole map exactly when every point left out has k
      of the searched points no farther than itself, and with the 27 cells it is whenever the last distance is within a
      leaf. */
  lemma KNearestIsGlobal(setting: FlatContainer.Setting, flat: seq<Voxel<Points>>, leaf: real, offsets: seq<VoxelCoord>,
                         q: Vec, k: nat, far: real)
    returns (seen: set<int>)
    requires leaf > 0.0 && DistinctCoords(flat) && IdsFit(flat) && AllOk(setting, flat, leaf)
    requires 0 < k && (k == 1 || DistinctOffsets(offsets))
    ensures IsSearched(flat, offsets, |offsets|, Cell(q, leaf), seen)
    ensures AllLive(flat, seen) && AllLive(flat, AllIds(flat, |flat|))
    ensures var r := SearchResult(flat, offsets, |offsets|, Cell(q, leaf), q, k, far);
      var m, all := Candidates(flat, q, seen, far), Candidates(flat, q, AllIds(flat, |flat|), far);
      && (IsKNearest(r, all, k, false) <==> forall j :: j in all && j !in m ==> |Within(m, all[j])| >= k)
      && (CoversCube(offsets) && |r| == k && r[k - 1].d <= Square(leaf) ==> IsKNearest(r, all, k, false))
  {
    hide SqDist, Square, Cell, AllOk, DistinctCoords, IdsFit, CoversCube, SearchResult, IsKNearest, Live, VoxelId,
      PointId;
    var r := SearchResult(flat, offsets, |offsets|, Cell(q, leaf), q, k, far);
    seen := SearchIsKNearest(flat, offsets, |offsets|, Cell(q, leaf), q, k, far);
    LiveIsIn(flat, seen);
    SearchedIsPart(flat, q, seen, AllIds(flat, |flat|), far);
    var m, all := Candidates(flat, q, seen, far), Candidates(flat, q, AllIds(flat, |flat|), far);
    PartSuffices(r, m, all, k, false);
    if CoversCube(offsets) && |r| == k && r[k - 1].d <= Square(leaf) {
      forall j | j in all && j !in m
        ensures all[j] >= Square(leaf)
      {
        NearIsSearched(setting, flat, leaf, offsets, q, seen, j);
        OutsideIsFar(q, PointAt(flat, j), leaf);
      }
      ExtendsByDistance(r, m, all, k, false);
    }
  }

  lemma NoneNearer(r: seq<Entry>, m: map<int, real>, j: int)
    requires IsKNearest(r, m, 1, false) && j in m
    ensures |r| == 1 && r[0].d <= m[j]
  {
    if Has(r, j) {
      var e :| e in r && e.j == j;
      assert e == r[0];
    } else if |r| == 1 {
      assert r[0] in r;
    }
  }

  // ---------------------------------------------------------------- the repeated centre of the 27-cell pattern

  /** After set_search_offsets(27) on a new map: the centre, and then all 27 cells. */
  function CentreAndCube(): seq<VoxelCoord> {
    [VoxelCoord(0, 0, 0)] + CubeOffsets()
  }

  /** One voxel with one point. */
  ghost function OnePoint(c: VoxelCoord, q: Vec): seq<Voxel<Points>> {
    [Voxel(0, c, [q])]
  }

  ghost predicate AllSame(r: seq<Entry>, e: Entry) {
    forall a :: 0 <= a < |r| ==> r[a] == e
  }

  lemma {:induction false} CopiesPileUp(c: VoxelCoord, q: Vec, offsets: seq<VoxelCoord>, n: nat, k: nat, far: real)
    requires n <= |offsets| && k >= 2 && far > 0.0
    ensures var r := SearchResult(OnePoint(c, q), offsets, n, c, q, k, far);
      && AllSame(r, Entry(0.0, 0))
      && (|r| >= 1 <== exists i :: 0 <= i < n && offsets[i] == VoxelCoord(0, 0, 0))
      && (|r| >= 2 <== exists i, j :: 0 <= i < j < n && offsets[i] == offsets[j] == VoxelCoord(0, 0, 0))
  {
    if n > 0 {
      hide Find, Scanned, Offer, Shift, SqDist, AllSame;
      CopiesPileUp(c, q, offsets, n - 1, k, far);
      var t := SearchResult(OnePoint(c, q), offsets, n - 1, c, q, k, far);
      OneScan(q, t, k, far);
      CopyInserted(t, Entry(0.0, 0), k, far);
      FindOne(c, q, offsets[n - 1]);
    } else {
      assert SearchResult(OnePoint(c, q), offsets, 0, c, q, k, far) == [];
    }
  }

  lemma FindOne(c: VoxelCoord, q: Vec, o: VoxelCoord)
    ensures Find(OnePoint(c, q), Shift(c, o)) == if o == VoxelCoord(0, 0, 0) then 0 else 1
  {
    assert OnePoint(c, q)[..0] == [];
  }

  lemma OneScan(q: Vec, t: seq<Entry>, k: nat, far: real)
    requires |t| <= k && 0 < k
    ensures Scanned([q], 0, 1, q, t, k, far) == Offer(t, Entry(0.0, 0), k, far)
  {
    assert Scanned([q], 0, 0, q, t, k, far) == t;
    assert SqDist(q, q) == 0.0;
  }

  lemma CopyInserted(t: seq<Entry>, e: Entry, k: nat, far: real)
    requires |t| <= k && 2 <= k && AllSame(t, e) && e.d < far
    ensures var r := Offer(t, e, k, far); AllSame(r, e) && |r| == if |t| < k then |t| + 1 else k
  {
    InsertCells(t, e, false);
  }

  /** The pattern that starts with the centre and goes on with the cube gives the k nearest of its cells for every map
      exactly when k is 1. */
  lemma {:induction false} RepeatedCentre(k: nat, far: real)
    requires k >= 1 && far > 0.0
    ensures k == 1 <==>
      forall flat: seq<Voxel<Points>>, c: VoxelCoord, q: Vec :: DistinctCoords(flat) && IdsFit(flat) ==>
      ExactOn(flat, c, q, k, far)
  {
    hide CentreAndCube, IdsFit, DistinctCoords, SearchResult, IsSearched, Candidates, IsKNearest, AllLive;
    if k == 1 {
      forall flat: seq<Voxel<Points>>, c: VoxelCoord, q: Vec | DistinctCoords(flat) && IdsFit(flat)
        ensures ExactOn(flat, c, q, k, far)
      {
        var seen := SearchIsKNearest(flat, CentreAndCube(), |CentreAndCube()|, c, q, k, far);
      }
    } else {
      var c, q := VoxelCoord(0, 0, 0), Vec(0.0, 0.0, 0.0);
      OnePointFits(c, q);
      SamePointTwice(c, q, k, far);
    }
  }

  ghost predicate ExactOn(flat: seq<Voxel<Points>>, c: VoxelCoord, q: Vec, k: nat, far: real)
    requires 0 < k
  {
    exists seen :: IsSearched(flat, CentreAndCube(), |CentreAndCube()|, c, seen) && AllLive(flat, seen)
      && IsKNearest(SearchResult(flat, CentreAndCube(), |CentreAndCube()|, c, q, k, far),
                    Candidates(flat, q, seen, far), k, false)
  }

  lemma OnePointFits(c: VoxelCoord, q: Vec)
    ensures DistinctCoords(OnePoint(c, q)) && IdsFit(OnePoint(c, q))
  {
  }

  /** For more than one neighbour, a lone point in the centre cell is returned twice. */
  lemma {:induction false} SamePointTwice(c: VoxelCoord, q: Vec, k: nat, far: real)
    requires k >= 2 && far > 0.0
    ensures !ExactOn(OnePoint(c, q), c, q, k, far)
  {
    hide SearchResult, CubeOffsets;
    var offsets := CentreAndCube();
    CubeCovers();
    assert VoxelCoord(0, 0, 0) in CubeOffsets();
    var i :| 0 <= i < |CubeOffsets()| && CubeOffsets()[i] == VoxelCoord(0, 0, 0);
    assert offsets[0] == offsets[i + 1] == VoxelCoord(0, 0, 0);
    CopiesPileUp(c, q, offsets, |offsets|, k, far);
    var r := SearchResult(OnePoint(c, q), offsets, |offsets|, c, q, k, far);
    assert r[0].j == r[1].j;
    assert !Distinct(r);
  }
}
