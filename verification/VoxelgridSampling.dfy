/** The sequential voxel-grid downsampling: its result is exactly the voxel averages, sums are conserved, and sampling
    again changes nothing. */
module VoxelgridSampling {
  import opened Collections
  import opened Geometry
  import opened Voxels
  import opened QuickSort
  import opened Downsampling
  import HashIndex

  ghost function Items(points: seq<Vec>, leaf: real): (s: seq<Item>)
    requires leaf > 0.0
    ensures |s| == |points| && forall i :: 0 <= i < |s| ==> s[i] == Item(PointKey(points[i], leaf), i)
  {
    seq(|points|, i requires 0 <= i < |points| => Item(PointKey(points[i], leaf), i))
  }

  method MakeItems(points: seq<Vec>, leaf: real) returns (coordPt: array<Item>)
    requires leaf > 0.0
    ensures fresh(coordPt) && coordPt[..] == Items(points, leaf)
  {
    hide PointKey;
    coordPt := new Item[|points|];
    for i := 0 to |points|
      invariant forall j :: 0 <= j < i ==> coordPt[j] == Item(PointKey(points[j], leaf), j)
    {
      coordPt[i] := Item(PointKey(points[i], leaf), i);
    }
  }

  // ----------------------------------------------------------- the sorted items describe the same voxels as the points

  ghost predicate Arranged(points: seq<Vec>, leaf: real, s: seq<Item>)
    requires leaf > 0.0
  {
    multiset(s) == multiset(Items(points, leaf))
  }

  lemma ArrangedIndices(points: seq<Vec>, leaf: real, s: seq<Item>)
    requires leaf > 0.0 && Arranged(points, leaf, s)
    ensures |s| == |points| && IndicesOf(points, s)
    ensures forall j :: 0 <= j < |s| ==> s[j].i < |points| && s[j].key == PointKey(points[s[j].i], leaf)
  {
    hide PointKey;
    SameElements(s, Items(points, leaf));
    forall j | 0 <= j < |s|
      ensures s[j].i < |points| && s[j].key == PointKey(points[s[j].i], leaf)
    {
      assert s[j] in Items(points, leaf);
    }
  }

  lemma SeenIsOccupied(points: seq<Vec>, leaf: real, s: seq<Item>, key: nat)
    requires leaf > 0.0 && Arranged(points, leaf, s) && |s| == |points|
    ensures Seen(s, 0, |s|, key) <==> Occupied(points, leaf, key)
  {
    hide PointKey;
    ArrangedIndices(points, leaf, s);
    SameElements(s, Items(points, leaf));
    if Occupied(points, leaf, key) {
      var i :| 0 <= i < |points| && PointKey(points[i], leaf) == key;
      assert Items(points, leaf)[i] in s;
      var j :| 0 <= j < |s| && s[j] == Items(points, leaf)[i];
    }
  }

  function AddIf(a: Sum4, points: seq<Vec>, x: Item, key: nat): Sum4
    requires x.i < |points|
  {
    if x.key == key then Add(a, points[x.i]) else a
  }

  lemma {:induction false} PrefixSum(points: seq<Vec>, s: seq<Item>, t: seq<Item>, hi: nat, key: nat)
    requires hi <= |s| && hi <= |t| && IndicesOf(points, s) && IndicesOf(points, t) && forall j :: 0 <= j < hi ==>
      s[j] == t[j]
    ensures KeySum(points, s, 0, hi, key) == KeySum(points, t, 0, hi, key)
    decreases hi
  {
    if hi > 0 {
      PrefixSum(points, s, t, hi - 1, key);
    }
  }

  function Without<T>(t: seq<T>, p: nat): (r: seq<T>)
    requires p < |t|
    ensures |r| == |t| - 1 && forall j :: 0 <= j < |r| ==> r[j] == if j < p then t[j] else t[j + 1]
  {
    t[..p] + t[p + 1..]
  }

  /** The position of an item does not matter to the sums. */
  lemma {:induction false} RemoveOne(points: seq<Vec>, t: seq<Item>, p: nat, hi: nat, key: nat)
    requires p < hi <= |t| && IndicesOf(points, t)
    ensures IndicesOf(points, Without(t, p))
    ensures KeySum(points, t, 0, hi, key) == AddIf(KeySum(points, Without(t, p), 0, hi - 1, key), points, t[p], key)
    decreases hi
  {
    if p == hi - 1 {
      PrefixSum(points, t, Without(t, p), hi - 1, key);
    } else {
      RemoveOne(points, t, p, hi - 1, key);
    }
  }

  lemma DropSame<T>(s: seq<T>, t: seq<T>, p: nat)
    requires multiset(s) == multiset(t) && p < |t| && |s| > 0 && s[|s| - 1] == t[p]
    ensures multiset(s[..|s| - 1]) == multiset(Without(t, p))
  {
    Dropped(s, |s| - 1);
    Dropped(t, p);
    assert Without(s, |s| - 1) == s[..|s| - 1];
  }

  lemma Dropped<T>(t: seq<T>, p: nat)
    requires p < |t|
    ensures multiset(Without(t, p)) == multiset(t) - multiset{t[p]}
  {
    assert t == t[..p] + [t[p]] + t[p + 1..];
  }

  lemma {:induction false} PermutedSum(points: seq<Vec>, s: seq<Item>, t: seq<Item>, key: nat)
    requires IndicesOf(points, s) && IndicesOf(points, t) && multiset(s) == multiset(t)
    ensures |s| == |t| && KeySum(points, s, 0, |s|, key) == KeySum(points, t, 0, |t|, key)
    decreases |s|
  {
    SameElements(s, t);
    if |s| > 0 {
      var n := |s| - 1;
      assert s[n] in t;
      var p :| 0 <= p < |t| && t[p] == s[n];
      RemoveOne(points, t, p, |t|, key);
      DropSame(s, t, p);
      hide Without;
      PermutedSum(points, s[..n], Without(t, p), key);
      PrefixSum(points, s, s[..n], n, key);
    }
  }

  lemma {:induction false} ItemsSum(points: seq<Vec>, leaf: real, n: nat, key: nat)
    requires leaf > 0.0 && n <= |points| && IndicesOf(points, Items(points, leaf))
    ensures KeySum(points, Items(points, leaf), 0, n, key) == CellSum(points, leaf, n, key)
  {
    if n > 0 {
      ItemsSum(points, leaf, n - 1, key);
    }
  }

  /** A block sweep over all sorted items yields the voxel averages of the cloud. */
  lemma WholeBlock(points: seq<Vec>, leaf: real, s: seq<Item>, out: seq<Vec>, keys: seq<nat>)
    requires leaf > 0.0 && Arranged(points, leaf, s) && IndicesOf(points, s)
      && BlockAverages(points, s, 0, |s|, out, keys)
    ensures VoxelAverages(points, leaf, out, keys)
  {
    hide PointKey, Seen, Occupied, IsMean, Arranged;
    ArrangedIndices(points, leaf, s);
    forall k
      ensures Seen(s, 0, |s|, k) <==> Occupied(points, leaf, k)
    {
      SeenIsOccupied(points, leaf, s, k);
    }
    forall k
      ensures KeySum(points, s, 0, |s|, k) == CellSum(points, leaf, |points|, k)
    {
      SortedSum(points, leaf, s, k);
    }
  }

  lemma SortedSum(points: seq<Vec>, leaf: real, s: seq<Item>, key: nat)
    requires leaf > 0.0 && Arranged(points, leaf, s) && IndicesOf(points, s)
    ensures KeySum(points, s, 0, |s|, key) == CellSum(points, leaf, |points|, key)
  {
    hide PointKey, KeySum, CellSum;
    assert Arranged(points, leaf, Items(points, leaf));
    ArrangedIndices(points, leaf, Items(points, leaf));
    PermutedSum(points, s, Items(points, leaf), key);
    ItemsSum(points, leaf, |points|, key);
  }

  // ---------------------------------------------------------------- voxelgrid_sampling

  lemma FirstIsLeast(points: seq<Vec>, leaf: real, s: seq<Item>)
    requires leaf > 0.0 && Arranged(points, leaf, s) && Sorted(s, KeyLess) && |points| > 0
    ensures |s| == |points| && IndicesOf(points, s) && (s[0].key != INVALID_KEY <==> SomeInRange(points, leaf))
  {
    hide PointKey, Sorted;
    ArrangedIndices(points, leaf, s);
    SameElements(s, Items(points, leaf));
    if SomeInRange(points, leaf) {
      var i :| 0 <= i < |points| && PointKey(points[i], leaf) != INVALID_KEY;
      assert Items(points, leaf)[i] in s;
      var j :| 0 <= j < |s| && s[j] == Items(points, leaf)[i];
      if j > 0 {
        SortedAt(s, 0, j);
      }
    }
  }

  ghost predicate IsDownsampling(points: seq<Vec>, leaf: real, out: seq<Vec>)
    requires leaf > 0.0
  {
    exists keys :: VoxelAverages(points, leaf, out, keys)
  }

  lemma NothingOccupied(points: seq<Vec>, leaf: real, out: seq<Vec>)
    requires leaf > 0.0 && !SomeInRange(points, leaf) && |out| > 0
    ensures !IsDownsampling(points, leaf, out)
  {
    hide PointKey;
    forall keys
      ensures !VoxelAverages(points, leaf, out, keys)
    {
      if |keys| == |out| {
        assert keys[0] in keys;
        assert !Occupied(points, leaf, keys[0]);
      }
    }
  }

  /** The result is the voxel averages exactly when the cloud is empty or has a point in range; otherwise it is one of
      the out-of-range points. */
  method Sample(points: seq<Vec>, leaf: real, lib: Library<Item>) returns (out: seq<Vec>)
    requires leaf > 0.0 && SortsPartitions(lib, KeyLess)
    ensures IsDownsampling(points, leaf, out) <==> points == [] || SomeInRange(points, leaf)
    ensures points != [] && !SomeInRange(points, leaf) ==> |out| == 1 && out[0] in points
    ensures |out| <= |points|
  {
    hide SortsPartitions, Sorted, PointKey, SomeInRange, Occupied, BlockAverages;
    if |points| == 0 {
      EmptyCloud(leaf);
      return [];
    }
    var coordPt := MakeItems(points, leaf);
    SortContract(lib, KeyLess, coordPt[..]);
    var s := lib.sort(coordPt[..]);
    FirstIsLeast(points, leaf, s);
    ghost var keys;
    out, keys := Sweep(points, s, 0, |s|);
    if s[0].key != INVALID_KEY {
      WholeBlock(points, leaf, s, out, keys);
    } else {
      NothingOccupied(points, leaf, out);
    }
  }

  lemma EmptyCloud(leaf: real)
    requires leaf > 0.0
    ensures IsDownsampling([], leaf, [])
  {
    assert VoxelAverages([], leaf, [], []);
  }

  // ---------------------------------------------------------------- the result is determined by the cloud

  lemma {:induction false} AscendingUnique(a: seq<nat>, b: seq<nat>)
    requires HashIndex.StrictlyAscending(a) && HashIndex.StrictlyAscending(b) && forall k :: k in a <==> k in b
    ensures a == b
    decreases |a|
  {
    assert |a| > 0 ==> a[0] in b;
    assert |b| > 0 ==> b[0] in a;
    if |a| > 0 {
      var x, y := a[|a| - 1], b[|b| - 1];
      assert x in b && y in a;
      ButLast(a);
      ButLast(b);
      assert x == y;
      var a', b' := a[..|a| - 1], b[..|b| - 1];
      forall k
        ensures k in a' <==> k in b'
      {
        assert k in a <==> k in b;
      }
      AscendingUnique(a', b');
    }
  }

  lemma ButLast(a: seq<nat>)
    requires |a| > 0 && HashIndex.StrictlyAscending(a)
    ensures a == a[..|a| - 1] + [a[|a| - 1]] && forall k :: k in a ==> k <= a[|a| - 1]
    ensures forall k :: k in a[..|a| - 1] <==> k in a && k != a[|a| - 1]
  {
  }

  lemma DownsamplingUnique(points: seq<Vec>, leaf: real, out: seq<Vec>, keys: seq<nat>, out': seq<Vec>, keys': seq<nat>)
    requires leaf > 0.0 && VoxelAverages(points, leaf, out, keys) && VoxelAverages(points, leaf, out', keys')
    ensures out == out' && keys == keys'
  {
    hide Occupied, CellSum;
    AscendingUnique(keys, keys');
  }

  // ---------------------------------------------------------------- conservation

  function Plus(a: Sum4, b: Sum4): Sum4 {
    Sum4(a.x + b.x, a.y + b.y, a.z + b.z, a.w + b.w)
  }

  /** The sum of all points in range. */
  ghost function InRangeSum(points: seq<Vec>, leaf: real, n: nat): Sum4
    requires leaf > 0.0 && n <= |points|
  {
    if n == 0 then ZERO
    else
      var t := InRangeSum(points, leaf, n - 1);
      if PointKey(points[n - 1], leaf) != INVALID_KEY then Add(t, points[n - 1]) else t
  }

  function Scaled(v: Vec, w: real): Sum4 {
    Sum4(v.x * w, v.y * w, v.z * w, w)
  }

  /** The first m output points, each weighted by the number of points of its voxel. */
  ghost function Weighted(points: seq<Vec>, leaf: real, out: seq<Vec>, keys: seq<nat>, m: nat): Sum4
    requires leaf > 0.0 && m <= |out| && |out| == |keys|
  {
    if m == 0 then ZERO
    else Plus(Weighted(points, leaf, out, keys, m - 1),
              Scaled(out[m - 1], CellSum(points, leaf, |points|, keys[m - 1]).w))
  }

  ghost function CellSums(points: seq<Vec>, leaf: real, n: nat, keys: seq<nat>, m: nat): Sum4
    requires leaf > 0.0 && n <= |points| && m <= |keys|
  {
    if m == 0 then ZERO else Plus(CellSums(points, leaf, n, keys, m - 1), CellSum(points, leaf, n, keys[m - 1]))
  }

  lemma MeanScaledBack(v: Vec, a: Sum4)
    requires IsMean(v, a)
    ensures Scaled(v, a.w) == a
  {
    Quotient(a.x, a.w);
    Quotient(a.y, a.w);
    Quotient(a.z, a.w);
  }

  lemma Quotient(a: real, w: real)
    requires w > 0.0
    ensures a / w * w == a
  {
  }

  lemma {:induction false} WeightedIsCellSums(points: seq<Vec>, leaf: real, out: seq<Vec>, keys: seq<nat>, m: nat)
    requires leaf > 0.0 && VoxelAverages(points, leaf, out, keys) && m <= |out|
    ensures Weighted(points, leaf, out, keys, m) == CellSums(points, leaf, |points|, keys, m)
  {
    hide Scaled, IsMean, CellSum, Plus;
    if m > 0 {
      WeightedIsCellSums(points, leaf, out, keys, m - 1);
      MeanScaledBack(out[m - 1], CellSum(points, leaf, |points|, keys[m - 1]));
    }
  }

  lemma {:induction false} NoCellSums(points: seq<Vec>, leaf: real, keys: seq<nat>, m: nat)
    requires leaf > 0.0 && m <= |keys|
    ensures CellSums(points, leaf, 0, keys, m) == ZERO
  {
    if m > 0 {
      NoCellSums(points, leaf, keys, m - 1);
    }
  }

  /** One more point joins the one voxel that has its key. */
  lemma {:induction false} CellSumsStep(points: seq<Vec>, leaf: real, n: nat, keys: seq<nat>, m: nat)
    requires leaf > 0.0 && 0 < n <= |points| && m <= |keys| && HashIndex.StrictlyAscending(keys)
    ensures var t := CellSums(points, leaf, n - 1, keys, m);
      CellSums(points, leaf, n, keys, m) ==
      if PointKey(points[n - 1], leaf) in keys[..m] then Add(t, points[n - 1]) else t
  {
    hide PointKey;
    if m > 0 {
      CellSumsStep(points, leaf, n, keys, m - 1);
      PrefixMembers(keys, m, PointKey(points[n - 1], leaf));
    }
  }

  lemma PrefixMembers(keys: seq<nat>, m: nat, k: nat)
    requires 0 < m <= |keys| && HashIndex.StrictlyAscending(keys)
    ensures k in keys[..m] <==> k in keys[..m - 1] || k == keys[m - 1]
    ensures keys[m - 1] !in keys[..m - 1]
  {
    assert keys[..m] == keys[..m - 1] + [keys[m - 1]];
  }

  lemma OccupiedByPoint(points: seq<Vec>, leaf: real, i: nat)
    requires leaf > 0.0 && i < |points|
    ensures Occupied(points, leaf, PointKey(points[i], leaf)) <==> PointKey(points[i], leaf) != INVALID_KEY
  {
    hide PointKey;
  }

  lemma {:induction false} CellSumsCover(points: seq<Vec>, leaf: real, n: nat, keys: seq<nat>)
    requires leaf > 0.0 && n <= |points| && HashIndex.StrictlyAscending(keys) && forall k :: k in keys <==>
      Occupied(points, leaf, k)
    ensures CellSums(points, leaf, n, keys, |keys|) == InRangeSum(points, leaf, n)
  {
    hide PointKey;
    if n == 0 {
      NoCellSums(points, leaf, keys, |keys|);
    } else {
      CellSumsCover(points, leaf, n - 1, keys);
      CellSumsStep(points, leaf, n, keys, |keys|);
      assert keys[..|keys|] == keys;
      OccupiedByPoint(points, leaf, n - 1);
    }
  }

  /** Weighted by the sizes of their voxels, the output points add up to the points in range. */
  lemma SumsAreConserved(points: seq<Vec>, leaf: real, out: seq<Vec>, keys: seq<nat>)
    requires leaf > 0.0 && VoxelAverages(points, leaf, out, keys)
    ensures Weighted(points, leaf, out, keys, |out|) == InRangeSum(points, leaf, |points|)
  {
    hide IsMean, Weighted, CellSums, InRangeSum, CellSum;
    WeightedIsCellSums(points, leaf, out, keys, |out|);
    CellSumsCover(points, leaf, |points|, keys);
  }

  // ---------------------------------------------------------------- sampling again

  /** On one axis: w values in the half-open cell c add up to a. */
  ghost predicate InBox(a: real, w: real, c: int, leaf: real) {
    (w == 0.0 && a == 0.0) || (w > 0.0 && c as real * leaf * w <= a < (c + 1) as real * leaf * w)
  }

  lemma BoxStep(a: real, w: real, c: int, leaf: real, v: real)
    requires InBox(a, w, c, leaf) && leaf > 0.0 && FastFloor(v / leaf) == c
    ensures InBox(a + v, w + 1.0, c, leaf)
  {
    hide FastFloor;
    var u := v / leaf;
    assert c as real <= u < (c + 1) as real;
    CellScale(v, leaf, u);
    Scaled3(c as real, u, (c + 1) as real, leaf, v);
    BoxAdd(a, w, c as real * leaf, (c + 1) as real * leaf, v);
  }

  lemma Scaled3(lo: real, u: real, hi: real, s: real, v: real)
    requires lo <= u < hi && s > 0.0 && v == u * s
    ensures lo * s <= v < hi * s
  {
    ProductPositive(hi - u, s);
    assert (hi - u) * s == hi * s - u * s;
    assert (u - lo) * s >= 0.0;
  }

  lemma BoxAdd(a: real, w: real, lo: real, hi: real, v: real)
    requires (w == 0.0 && a == 0.0) || (w > 0.0 && lo * w <= a < hi * w)
    requires lo <= v < hi
    ensures w + 1.0 > 0.0 && lo * (w + 1.0) <= a + v < hi * (w + 1.0)
  {
    assert lo * (w + 1.0) == lo * w + lo && hi * (w + 1.0) == hi * w + hi;
  }

  lemma BoxMean(a: real, w: real, c: int, leaf: real)
    requires InBox(a, w, c, leaf) && leaf > 0.0 && w > 0.0
    ensures FastFloor(a / w / leaf) == c
  {
    var m := a / w;
    var u := m / leaf;
    Quotient(a, w);
    Quotient(m, leaf);
    Between(c as real * leaf, m, w);
    Between(c as real, u, leaf);
    StrictlyBetween(m, (c + 1) as real * leaf, w);
    StrictlyBetween(u, (c + 1) as real, leaf);
  }

  lemma ProductPositive(a: real, w: real)
    requires a > 0.0 && w > 0.0
    ensures a * w > 0.0
  {
  }

  lemma Between(lo: real, m: real, w: real)
    requires w > 0.0 && lo * w <= m * w
    ensures lo <= m
  {
    if lo > m {
      ProductPositive(lo - m, w);
    }
  }

  lemma StrictlyBetween(m: real, hi: real, w: real)
    requires w > 0.0 && m * w < hi * w
    ensures m < hi
  {
    if m > hi {
      ProductPositive(m - hi, w);
    }
  }

  lemma {:induction false} SumInBox(points: seq<Vec>, leaf: real, n: nat, key: nat, c: VoxelCoord)
    requires leaf > 0.0 && n <= |points| && c == KeyCoord(key) && key != INVALID_KEY
    ensures var a := CellSum(points, leaf, n, key);
      InBox(a.x, a.w, c.x, leaf) && InBox(a.y, a.w, c.y, leaf) && InBox(a.z, a.w, c.z, leaf)
  {
    hide InBox, PointKey, KeyCoord, FastFloor;
    if n == 0 {
      EmptyBox(c.x, leaf);
      EmptyBox(c.y, leaf);
      EmptyBox(c.z, leaf);
    } else {
      SumInBox(points, leaf, n - 1, key, c);
      var a, p := CellSum(points, leaf, n - 1, key), points[n - 1];
      if PointKey(p, leaf) == key {
        KeyGivesCell(p, leaf, key);
        BoxStep(a.x, a.w, c.x, leaf, p.x);
        BoxStep(a.y, a.w, c.y, leaf, p.y);
        BoxStep(a.z, a.w, c.z, leaf, p.z);
      }
    }
  }

  lemma EmptyBox(c: int, leaf: real)
    ensures InBox(0.0, 0.0, c, leaf)
  {
  }

  lemma KeyGivesCell(p: Vec, leaf: real, key: nat)
    requires leaf > 0.0 && key != INVALID_KEY && PointKey(p, leaf) == key
    ensures Cell(p, leaf) == KeyCoord(key) && LeafInRange(leaf) && Voxels.InRange(Cell(p, leaf))
  {
    hide CoordKey, KeyCoord;
    PackThenUnpack(Cell(p, leaf));
  }

  /** The centroid of the points of a voxel has the key of that voxel. */
  lemma CentroidStays(points: seq<Vec>, leaf: real, key: nat, v: Vec)
    requires leaf > 0.0 && Occupied(points, leaf, key) && IsMean(v, CellSum(points, leaf, |points|, key))
    ensures PointKey(v, leaf) == key
  {
    hide CellSum, InBox, KeyCoord, CoordKey, FastFloor;
    var i :| 0 <= i < |points| && PointKey(points[i], leaf) == key;
    KeyGivesCell(points[i], leaf, key);
    var a, c := CellSum(points, leaf, |points|, key), KeyCoord(key);
    SumInBox(points, leaf, |points|, key, c);
    BoxMean(a.x, a.w, c.x, leaf);
    BoxMean(a.y, a.w, c.y, leaf);
    BoxMean(a.z, a.w, c.z, leaf);
    assert Cell(v, leaf) == Cell(points[i], leaf);
  }

  /** The only point with its key among points of ascending keys. */
  lemma {:induction false} OwnSum(out: seq<Vec>, leaf: real, keys: seq<nat>, n: nat, j: nat)
    requires leaf > 0.0 && |keys| == |out| && HashIndex.StrictlyAscending(keys) && j < |out| && n <= |out|
    requires forall i :: 0 <= i < |out| ==> PointKey(out[i], leaf) == keys[i]
    ensures CellSum(out, leaf, n, keys[j]) == if j < n then Add(ZERO, out[j]) else ZERO
  {
    hide PointKey;
    if n > 0 {
      OwnSum(out, leaf, keys, n - 1, j);
    }
  }

  /** Sampling the result again at the same leaf size returns it unchanged. */
  lemma SamplingAgain(points: seq<Vec>, leaf: real, out: seq<Vec>, again: seq<Vec>)
    requires leaf > 0.0 && IsDownsampling(points, leaf, out) && IsDownsampling(out, leaf, again)
    ensures again == out
  {
    hide PointKey, CellSum, Occupied, VoxelAverages;
    var keys :| VoxelAverages(points, leaf, out, keys);
    var keys' :| VoxelAverages(out, leaf, again, keys');
    SelfAverages(points, leaf, out, keys);
    DownsamplingUnique(out, leaf, out, keys, again, keys');
  }

  lemma SelfAverages(points: seq<Vec>, leaf: real, out: seq<Vec>, keys: seq<nat>)
    requires leaf > 0.0 && VoxelAverages(points, leaf, out, keys)
    ensures VoxelAverages(out, leaf, out, keys)
  {
    hide PointKey, CellSum;
    forall j | 0 <= j < |out|
      ensures PointKey(out[j], leaf) == keys[j] && Occupied(out, leaf, keys[j])
    {
      hide IsMean;
      assert keys[j] in keys;
      CentroidStays(points, leaf, keys[j], out[j]);
    }
    forall j | 0 <= j < |out|
      ensures IsMean(out[j], CellSum(out, leaf, |out|, keys[j]))
    {
      OwnSum(out, leaf, keys, |out|, j);
      MeanOfOne(out[j]);
    }
    forall k
      ensures k in keys <==> Occupied(out, leaf, k)
    {
      if Occupied(out, leaf, k) {
        var i :| 0 <= i < |out| && PointKey(out[i], leaf) == k;
        assert keys[i] in keys;
      }
    }
  }

  /** A result with a point in range is in range itself, so the second sampling is not the exceptional case. */
  lemma ResultInRange(points: seq<Vec>, leaf: real, out: seq<Vec>)
    requires leaf > 0.0 && IsDownsampling(points, leaf, out)
    ensures out == [] || SomeInRange(out, leaf)
  {
    hide PointKey, CellSum;
    var keys :| VoxelAverages(points, leaf, out, keys);
    if out != [] {
      assert keys[0] in keys;
      CentroidStays(points, leaf, keys[0], out[0]);
    }
  }

  /** Sampling twice is sampling once, for every cloud, even when the result is the exceptional out-of-range point. */
  method SampleTwice(points: seq<Vec>, leaf: real, lib: Library<Item>, lib': Library<Item>)
    returns (out: seq<Vec>, again: seq<Vec>)
    requires leaf > 0.0 && SortsPartitions(lib, KeyLess) && SortsPartitions(lib', KeyLess)
    ensures again == out
  {
    hide SortsPartitions, IsDownsampling, PointKey;
    out := Sample(points, leaf, lib);
    again := Sample(out, leaf, lib');
    if points == [] || SomeInRange(points, leaf) {
      ResultInRange(points, leaf, out);
      SamplingAgain(points, leaf, out, again);
    } else {
      StaysOutOfRange(points, leaf, out);
    }
  }

  lemma StaysOutOfRange(points: seq<Vec>, leaf: real, out: seq<Vec>)
    requires leaf > 0.0 && !SomeInRange(points, leaf) && |out| == 1 && out[0] in points
    ensures !SomeInRange(out, leaf)
  {
    hide PointKey;
  }
}
