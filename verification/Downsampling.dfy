/** Voxel-grid downsampling: points sorted by the key of their voxel, and one average written per run of equal keys. */
module Downsampling {
  import opened Geometry
  import opened Voxels
  import opened QuickSort
  import HashIndex

  /** A packed voxel key with the index of its point. */
  datatype Item = Item(key: nat, i: nat)

  predicate KeyLess(a: Item, b: Item) {
    a.key < b.key
  }

  lemma KeyLessIsWeakOrder()
    ensures StrictWeakOrder(KeyLess)
  {
  }

  /** A homogeneous sum of points: the last coordinate counts them. */
  datatype Sum4 = Sum4(x: real, y: real, z: real, w: real)

  const ZERO: Sum4 := Sum4(0.0, 0.0, 0.0, 0.0)

  function Add(a: Sum4, p: Vec): Sum4 {
    Sum4(a.x + p.x, a.y + p.y, a.z + p.z, a.w + 1.0)
  }

  function Mean(a: Sum4): Vec
    requires a.w > 0.0
  {
    Vec(a.x / a.w, a.y / a.w, a.z / a.w)
  }

  /** The homogeneous coordinate is 1 and is scaled, floored and range-checked like the other three. */
  predicate LeafInRange(leaf: real)
    requires leaf > 0.0
  {
    AxisInRange(FastFloor(1.0 / leaf))
  }

  /** So no point is kept at all unless the leaf is larger than 2^-20. */
  lemma LeafRange(leaf: real)
    requires leaf > 0.0
    ensures LeafInRange(leaf) <==> leaf * 1048576.0 > 1.0
  {
    var u := 1.0 / leaf;
    assert u * leaf == 1.0 && u > 0.0;
    if leaf * 1048576.0 > 1.0 {
      assert u < 1048576.0 by {
        if u >= 1048576.0 {
          ProductMonotone(1048576.0, u, leaf, leaf);
        }
      }
    } else {
      assert u >= 1048576.0 by {
        assert u * (leaf * 1048576.0) == 1048576.0;
        ProductMonotone(u, u, leaf * 1048576.0, 1.0);
      }
    }
  }

  function PointKey(p: Vec, leaf: real): (key: nat)
    requires leaf > 0.0
    ensures key == INVALID_KEY || key < 0x8000_0000_0000_0000
  {
    if LeafInRange(leaf) then VoxelKey(p, leaf) else INVALID_KEY
  }

  // ---------------------------------------------------------------- the result, defined on the points themselves

  /** The sum of the first n points with the given key. */
  ghost function CellSum(points: seq<Vec>, leaf: real, n: nat, key: nat): (a: Sum4)
    requires leaf > 0.0 && n <= |points|
  {
    if n == 0 then ZERO
    else
      var t := CellSum(points, leaf, n - 1, key);
      if PointKey(points[n - 1], leaf) == key then Add(t, points[n - 1]) else t
  }

  ghost predicate Occupied(points: seq<Vec>, leaf: real, key: nat)
    requires leaf > 0.0
  {
    key != INVALID_KEY && exists i :: 0 <= i < |points| && PointKey(points[i], leaf) == key
  }

  ghost predicate IsMean(v: Vec, a: Sum4) {
    a.w > 0.0 && v == Mean(a)
  }

  /** One point per occupied voxel, in strictly ascending key order, each the average of exactly the points of its
      voxel. */
  ghost predicate VoxelAverages(points: seq<Vec>, leaf: real, out: seq<Vec>, keys: seq<nat>)
    requires leaf > 0.0
  {
    && |out| == |keys| && HashIndex.StrictlyAscending(keys)
    && (forall k :: k in keys <==> Occupied(points, leaf, k))
    && (forall j :: 0 <= j < |out| ==> IsMean(out[j], CellSum(points, leaf, |points|, keys[j])))
  }

  ghost predicate SomeInRange(points: seq<Vec>, leaf: real)
    requires leaf > 0.0
  {
    exists i :: 0 <= i < |points| && PointKey(points[i], leaf) != INVALID_KEY
  }

  // ---------------------------------------------------------------- the sweep over a block of the sorted items

  ghost predicate IndicesOf(points: seq<Vec>, s: seq<Item>) {
    forall j :: 0 <= j < |s| ==> s[j].i < |points| && s[j].key <= INVALID_KEY
  }

  /** The sum of the points of the items in [lo, hi) with the given key. */
  ghost function KeySum(points: seq<Vec>, s: seq<Item>, lo: nat, hi: nat, key: nat): (a: Sum4)
    requires hi <= |s| && IndicesOf(points, s)
    ensures a.w >= 0.0
    decreases hi
  {
    if hi <= lo then ZERO
    else
      var t := KeySum(points, s, lo, hi - 1, key);
      if s[hi - 1].key == key then Add(t, points[s[hi - 1].i]) else t
  }

  ghost predicate Seen(s: seq<Item>, lo: nat, hi: nat, key: nat)
    requires hi <= |s|
  {
    key != INVALID_KEY && exists j :: lo <= j < hi && s[j].key == key
  }

  /** One average per valid key of the block, in strictly ascending order. */
  ghost predicate BlockAverages(points: seq<Vec>, s: seq<Item>, lo: nat, hi: nat, out: seq<Vec>, keys: seq<nat>)
    requires hi <= |s| && IndicesOf(points, s)
  {
    && |out| == |keys| && HashIndex.StrictlyAscending(keys)
    && (forall k :: k in keys <==> Seen(s, lo, hi, k))
    && (forall j :: 0 <= j < |out| ==> IsMean(out[j], KeySum(points, s, lo, hi, keys[j])))
  }

  /** In the middle of a block: the last key is still open, with `sum` the sum of its points so far. */
  ghost predicate Swept(points: seq<Vec>, s: seq<Item>, lo: nat, i: nat, out: seq<Vec>, keys: seq<nat>, sum: Sum4)
    requires i <= |s| && IndicesOf(points, s)
  {
    && lo < i && |keys| == |out| + 1 && HashIndex.StrictlyAscending(keys)
    && (forall k :: k in keys <==> Seen(s, lo, i, k))
    && (forall j :: 0 <= j < |out| ==> IsMean(out[j], KeySum(points, s, lo, i, keys[j])))
    && sum == KeySum(points, s, lo, i, keys[|out|]) && sum.w > 0.0
    && (s[i - 1].key == keys[|out|] || s[i - 1].key == INVALID_KEY)
  }

  lemma SweptStart(points: seq<Vec>, s: seq<Item>, lo: nat)
    requires lo < |s| && IndicesOf(points, s) && s[lo].key != INVALID_KEY
    ensures Swept(points, s, lo, lo + 1, [], [s[lo].key], Add(ZERO, points[s[lo].i]))
  {
    assert KeySum(points, s, lo, lo, s[lo].key) == ZERO;
  }

  lemma SeenStep(s: seq<Item>, lo: nat, i: nat, key: nat)
    requires lo < i < |s|
    ensures Seen(s, lo, i + 1, key) <==> Seen(s, lo, i, key) || (key != INVALID_KEY && s[i].key == key)
  {
  }

  /** Keys other than that of the next item keep their sums. */
  lemma OtherKeysKeep(points: seq<Vec>, s: seq<Item>, lo: nat, i: nat, out: seq<Vec>, keys: seq<nat>)
    requires lo < i < |s| && IndicesOf(points, s) && |out| <= |keys| && s[i].key !in keys[..|out|]
    requires forall j :: 0 <= j < |out| ==> IsMean(out[j], KeySum(points, s, lo, i, keys[j]))
    ensures forall j :: 0 <= j < |out| ==> IsMean(out[j], KeySum(points, s, lo, i + 1, keys[j]))
  {
    forall j | 0 <= j < |out|
      ensures IsMean(out[j], KeySum(points, s, lo, i + 1, keys[j]))
    {
      assert keys[..|out|][j] == keys[j];
      hide IsMean;
    }
  }

  /** Invalid keys are skipped. */
  lemma SkipStep(points: seq<Vec>, s: seq<Item>, lo: nat, i: nat, out: seq<Vec>, keys: seq<nat>, sum: Sum4)
    requires i < |s| && IndicesOf(points, s) && Swept(points, s, lo, i, out, keys, sum) && s[i].key == INVALID_KEY
    ensures Swept(points, s, lo, i + 1, out, keys, sum)
  {
    hide Seen, IsMean;
    forall k
      ensures Seen(s, lo, i + 1, k) <==> Seen(s, lo, i, k)
    {
      SeenStep(s, lo, i, k);
    }
    assert !Seen(s, lo, i, INVALID_KEY) by {
      NotSeenInvalid(s, lo, i);
    }
    OtherKeysKeep(points, s, lo, i, out, keys);
    assert keys[|out|] in keys;
  }

  lemma NotSeenInvalid(s: seq<Item>, lo: nat, i: nat)
    requires i <= |s|
    ensures !Seen(s, lo, i, INVALID_KEY)
  {
  }

  /** An equal key joins the open run. */
  lemma SameStep(points: seq<Vec>, s: seq<Item>, lo: nat, i: nat, out: seq<Vec>, keys: seq<nat>, sum: Sum4)
    requires i < |s| && IndicesOf(points, s) && Swept(points, s, lo, i, out, keys, sum)
    requires s[i].key != INVALID_KEY && s[i].key == s[i - 1].key
    ensures Swept(points, s, lo, i + 1, out, keys, Add(sum, points[s[i].i]))
  {
    hide Seen, IsMean;
    assert keys[|out|] in keys;
    forall k
      ensures Seen(s, lo, i + 1, k) <==> Seen(s, lo, i, k)
    {
      SeenStep(s, lo, i, k);
    }
    OtherKeysKeep(points, s, lo, i, out, keys);
  }

  lemma SortedAt(s: seq<Item>, i: nat, j: nat)
    requires Sorted(s, KeyLess) && i < j < |s|
    ensures s[i].key <= s[j].key
  {
  }

  /** A new key closes the open run and starts its own. */
  lemma NewStep(points: seq<Vec>, s: seq<Item>, lo: nat, i: nat, out: seq<Vec>, keys: seq<nat>, sum: Sum4)
    requires i < |s| && IndicesOf(points, s) && Swept(points, s, lo, i, out, keys, sum) && Sorted(s, KeyLess)
    requires s[i].key != INVALID_KEY && s[i].key != s[i - 1].key
    ensures Swept(points, s, lo, i + 1, out + [Mean(sum)], keys + [s[i].key], Add(ZERO, points[s[i].i]))
  {
    hide Seen, KeySum, Sorted;
    SortedAt(s, i - 1, i);
    var key, out', keys' := s[i].key, out + [Mean(sum)], keys + [s[i].key];
    assert forall j :: 0 <= j < |keys| ==> keys[j] < key;
    assert keys'[..|out'|] == keys;
    forall k
      ensures Seen(s, lo, i + 1, k) <==> k in keys'
    {
      SeenStep(s, lo, i, k);
    }
    assert IsMean(Mean(sum), KeySum(points, s, lo, i, keys[|out|]));
    assert forall j :: 0 <= j < |out'| ==> IsMean(out'[j], KeySum(points, s, lo, i, keys'[j]));
    OtherKeysKeep(points, s, lo, i, out', keys');
    assert key !in keys;
    UnseenSum(points, s, lo, i, key);
    KeySumNext(points, s, lo, i);
  }

  lemma {:induction false} UnseenSum(points: seq<Vec>, s: seq<Item>, lo: nat, i: nat, key: nat)
    requires i <= |s| && IndicesOf(points, s) && key != INVALID_KEY && !Seen(s, lo, i, key)
    ensures KeySum(points, s, lo, i, key) == ZERO
    decreases i
  {
    if i > lo {
      assert s[i - 1].key != key;
      UnseenSum(points, s, lo, i - 1, key);
    }
  }

  lemma KeySumNext(points: seq<Vec>, s: seq<Item>, lo: nat, i: nat)
    requires lo <= i < |s| && IndicesOf(points, s)
    ensures KeySum(points, s, lo, i + 1, s[i].key) == Add(KeySum(points, s, lo, i, s[i].key), points[s[i].i])
  {
  }

  lemma CloseBlock(points: seq<Vec>, s: seq<Item>, lo: nat, hi: nat, out: seq<Vec>, keys: seq<nat>, sum: Sum4)
    requires hi <= |s| && IndicesOf(points, s) && Swept(points, s, lo, hi, out, keys, sum)
    ensures BlockAverages(points, s, lo, hi, out + [Mean(sum)], keys)
  {
    hide Seen, KeySum;
    assert IsMean(Mean(sum), KeySum(points, s, lo, hi, keys[|out|]));
  }

  /** The number of runs that a sweep over [lo, hi) closes. */
  function Runs(s: seq<Item>, lo: nat, hi: nat): (r: nat)
    requires hi <= |s|
    ensures lo < hi ==> 1 <= r <= hi - lo
    decreases hi
  {
    if hi <= lo then 0
    else if hi == lo + 1 then 1
    else Runs(s, lo, hi - 1) + if s[hi - 1].key != INVALID_KEY && s[hi - 2].key != s[hi - 1].key then 1 else 0
  }

  /** The sweep over [lo, hi): the averages of its valid keys, unless it starts with an invalid key; then its one output
      is that item's point. */
  method Sweep(points: seq<Vec>, s: seq<Item>, lo: nat, hi: nat) returns (out: seq<Vec>, ghost keys: seq<nat>)
    requires lo < hi <= |s| && IndicesOf(points, s) && Sorted(s, KeyLess)
    ensures s[lo].key != INVALID_KEY ==> BlockAverages(points, s, lo, hi, out, keys)
    ensures s[lo].key == INVALID_KEY ==> out == [points[s[lo].i]]
    ensures |out| == Runs(s, lo, hi)
  {
    hide Swept, BlockAverages, Sorted, KeySum;
    out, keys := [], [s[lo].key];
    var sum := Add(ZERO, points[s[lo].i]);
    if s[lo].key != INVALID_KEY {
      SweptStart(points, s, lo);
    }
    var i := lo + 1;
    while i < hi
      invariant lo < i <= hi && |out| + 1 == Runs(s, lo, i) && sum.w > 0.0
      invariant s[lo].key != INVALID_KEY ==> Swept(points, s, lo, i, out, keys, sum)
      invariant s[lo].key == INVALID_KEY ==> out == [] && sum == Add(ZERO, points[s[lo].i])
    {
      SortedAt(s, lo, i);
      if s[i].key != INVALID_KEY {
        if s[i - 1].key != s[i].key {
          NewStep(points, s, lo, i, out, keys, sum);
          out, keys, sum := out + [Mean(sum)], keys + [s[i].key], ZERO;
        } else {
          SameStep(points, s, lo, i, out, keys, sum);
        }
        sum := Add(sum, points[s[i].i]);
      } else if s[lo].key != INVALID_KEY {
        SkipStep(points, s, lo, i, out, keys, sum);
      }
      i := i + 1;
    }
    if s[lo].key != INVALID_KEY {
      CloseBlock(points, s, lo, hi, out, keys, sum);
    } else {
      MeanOfOne(points[s[lo].i]);
    }
    out := out + [Mean(sum)];
  }

  lemma MeanOfOne(p: Vec)
    ensures Mean(Add(ZERO, p)) == p
  {
  }
}
