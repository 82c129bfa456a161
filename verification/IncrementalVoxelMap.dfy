/** The incremental voxel map: a hash map into a flat vector of voxels, with least-recently-used eviction. */
module IncrementalVoxelMap {
  import Arithmetic
  import opened Voxels
  import opened GaussianVoxel

  datatype Voxel<V> = Voxel(lru: nat, coord: VoxelCoord, contents: V)

  /** What a kind of voxel contents does: a new one, adding a transformed point, finalizing. */
  datatype Kind<!V> = Kind(empty: V, add: (V, Sample) -> V, finalize: V -> V)

  // ---------------------------------------------------------------- inserting, as functions on the flat vector

  /** The position of the voxel at c, or the length of the vector. */
  ghost function Find<V>(flat: seq<Voxel<V>>, c: VoxelCoord): (i: nat)
    ensures i <= |flat| && (i < |flat| ==> flat[i].coord == c) && forall j :: 0 <= j < i ==> flat[j].coord != c
  {
    if |flat| == 0 then 0
    else
      var i := Find(flat[..|flat| - 1], c);
      if i < |flat| - 1 || flat[|flat| - 1].coord == c then i else |flat|
  }

  /** One point goes to the voxel of its cell, which is created behind the others if need be. */
  ghost function Touch<V>(kind: Kind<V>, leaf: real, flat: seq<Voxel<V>>, lru: nat, x: Sample): seq<Voxel<V>>
    requires leaf > 0.0
  {
    var c := Cell(x.p, leaf);
    var i := Find(flat, c);
    if i < |flat| then flat[i := Voxel(lru, c, kind.add(flat[i].contents, x))]
    else flat + [Voxel(lru, c, kind.add(kind.empty, x))]
  }

  ghost function TouchAll<V>(kind: Kind<V>, leaf: real, flat: seq<Voxel<V>>, lru: nat, xs: seq<Sample>,
                             n: nat): seq<Voxel<V>>
    requires leaf > 0.0 && n <= |xs|
  {
    if n == 0 then flat else Touch(kind, leaf, TouchAll(kind, leaf, flat, lru, xs, n - 1), lru, xs[n - 1])
  }

  /** std::remove_if and erase: the voxels used within the horizon, in their order. */
  function Evict<V>(flat: seq<Voxel<V>>, horizon: nat, counter: nat): seq<Voxel<V>> {
    if |flat| == 0 then []
    else
      var t, v := Evict(flat[..|flat| - 1], horizon, counter), flat[|flat| - 1];
      if v.lru + horizon < counter then t else t + [v]
  }

  ghost function FinalizeAll<V>(kind: Kind<V>, flat: seq<Voxel<V>>): (r: seq<Voxel<V>>)
    ensures |r| == |flat| && forall i :: 0 <= i < |r| ==> r[i] == flat[i].(contents := kind.finalize(flat[i].contents))
  {
    seq(|flat|, i requires 0 <= i < |flat| => flat[i].(contents := kind.finalize(flat[i].contents)))
  }

  /** The flat vector after an insertion that ends with the given counter. */
  ghost function Inserted<V>(kind: Kind<V>, leaf: real, flat: seq<Voxel<V>>, lru: nat, horizon: nat, cycle: nat,
                             xs: seq<Sample>): seq<Voxel<V>>
    requires leaf > 0.0 && cycle > 0
  {
    var touched := TouchAll(kind, leaf, flat, lru, xs, |xs|);
    FinalizeAll(kind, if (lru + 1) % cycle == 0 then Evict(touched, horizon, lru + 1) else touched)
  }

  // ---------------------------------------------------------------- the invariants

  ghost predicate DistinctCoords<V(!new)>(flat: seq<Voxel<V>>) {
    forall i, j :: 0 <= i < j < |flat| ==> flat[i].coord != flat[j].coord
  }

  /** The hash map and the flat vector are mutually inverse. */
  ghost predicate Mutual<V(!new)>(flat: seq<Voxel<V>>, voxels: map<VoxelCoord, nat>) {
    && (forall i :: 0 <= i < |flat| ==> flat[i].coord in voxels && voxels[flat[i].coord] == i)
    && (forall c :: c in voxels ==> voxels[c] < |flat| && flat[voxels[c]].coord == c)
  }

  /** Every live voxel was last used before now, and within the horizon of the last clearing. */
  ghost predicate Recent<V(!new)>(flat: seq<Voxel<V>>, horizon: nat, cycle: nat, counter: nat)
    requires cycle > 0
  {
    forall i :: 0 <= i < |flat| ==> flat[i].lru < counter && counter - counter % cycle <= flat[i].lru + horizon
  }

  /** So it is no older than the horizon and one clearing cycle. */
  lemma AgeIsBounded<V(!new)>(flat: seq<Voxel<V>>, horizon: nat, cycle: nat, counter: nat, i: nat)
    requires cycle > 0 && Recent(flat, horizon, cycle, counter) && i < |flat|
    ensures flat[i].lru < counter <= flat[i].lru + horizon + cycle - 1
  {
  }

  // ---------------------------------------------------------------- lemmas about the pieces

  lemma TouchKeepsDistinct<V(!new)>(kind: Kind<V>, leaf: real, flat: seq<Voxel<V>>, lru: nat, x: Sample)
    requires leaf > 0.0 && DistinctCoords(flat)
    ensures DistinctCoords(Touch(kind, leaf, flat, lru, x))
  {
    hide Cell;
  }

  lemma {:induction false} EvictMembers<V(!new)>(flat: seq<Voxel<V>>, horizon: nat, counter: nat)
    ensures forall v :: v in Evict(flat, horizon, counter) <==> v in flat && v.lru + horizon >= counter
  {
    if |flat| > 0 {
      EvictMembers(flat[..|flat| - 1], horizon, counter);
      assert flat == flat[..|flat| - 1] + [flat[|flat| - 1]];
    }
  }

  lemma {:induction false} EvictKeepsDistinct<V(!new)>(flat: seq<Voxel<V>>, horizon: nat, counter: nat)
    requires DistinctCoords(flat)
    ensures DistinctCoords(Evict(flat, horizon, counter))
  {
    if |flat| > 0 {
      var t, r := flat[..|flat| - 1], Evict(flat[..|flat| - 1], horizon, counter);
      EvictKeepsDistinct(t, horizon, counter);
      EvictMembers(t, horizon, counter);
      forall i | 0 <= i < |r|
        ensures r[i].coord != flat[|flat| - 1].coord
      {
        assert r[i] in r && r[i] in t;
        var j :| 0 <= j < |t| && t[j] == r[i];
        assert flat[j] == r[i];
      }
    }
  }

  /** Looking a coordinate up in the hash map finds the same position as scanning the vector. */
  lemma LookupIsFind<V(!new)>(flat: seq<Voxel<V>>, voxels: map<VoxelCoord, nat>, c: VoxelCoord)
    requires Mutual(flat, voxels)
    ensures Find(flat, c) == if c in voxels then voxels[c] else |flat|
  {
  }

  lemma MutualIsDistinct<V(!new)>(flat: seq<Voxel<V>>, voxels: map<VoxelCoord, nat>)
    requires Mutual(flat, voxels)
    ensures DistinctCoords(flat)
  {
  }

  lemma {:induction false} TouchedRecently<V(!new)>(kind: Kind<V>, leaf: real, flat: seq<Voxel<V>>, lru: nat,
                                                    xs: seq<Sample>, n: nat, bound: int)
    requires leaf > 0.0 && n <= |xs| && bound <= lru && forall i :: 0 <= i < |flat| ==> bound <= flat[i].lru <= lru
    ensures forall v :: v in TouchAll(kind, leaf, flat, lru, xs, n) ==> bound <= v.lru <= lru
  {
    hide Cell;
    if n > 0 {
      TouchedRecently(kind, leaf, flat, lru, xs, n - 1, bound);
      var t := TouchAll(kind, leaf, flat, lru, xs, n - 1);
      assert forall i :: 0 <= i < |t| ==> t[i] in t;
    }
  }

  /** Between two clearings the clearing threshold does not move; at a clearing everything older is evicted. */
  lemma StaysRecent<V(!new)>(kind: Kind<V>, leaf: real, flat: seq<Voxel<V>>, lru: nat, horizon: nat, cycle: nat,
                             xs: seq<Sample>)
    requires leaf > 0.0 && cycle > 0 && Recent(flat, horizon, cycle, lru)
    ensures Recent(Inserted(kind, leaf, flat, lru, horizon, cycle, xs), horizon, cycle, lru + 1)
  {
    hide TouchAll, Evict;
    var touched := TouchAll(kind, leaf, flat, lru, xs, |xs|);
    TouchedRecently(kind, leaf, flat, lru, xs, |xs|, lru - lru % cycle - horizon);
    EvictMembers(touched, horizon, lru + 1);
    NextThreshold(lru, cycle);
    var kept := if (lru + 1) % cycle == 0 then Evict(touched, horizon, lru + 1) else touched;
    forall i | 0 <= i < |kept|
      ensures kept[i].lru < lru + 1 && lru + 1 - (lru + 1) % cycle <= kept[i].lru + horizon
    {
      assert kept[i] in kept && kept[i] in touched;
    }
    assert Inserted(kind, leaf, flat, lru, horizon, cycle, xs) == FinalizeAll(kind, kept);
  }

  lemma NextThreshold(lru: nat, cycle: nat)
    requires cycle > 0
    ensures (lru + 1) % cycle != 0 ==> lru + 1 - (lru + 1) % cycle == lru - lru % cycle
  {
    var q, r := lru / cycle, lru % cycle;
    assert lru == q * cycle + r;
    if r + 1 < cycle {
      Arithmetic.DivMod(q, r + 1, cycle);
    } else {
      assert lru + 1 == (q + 1) * cycle + 0;
      Arithmetic.DivMod(q + 1, 0, cycle);
    }
  }

  // ---------------------------------------------------------------- what an insertion means for one cell

  ghost predicate LiveAt<V(!new)>(flat: seq<Voxel<V>>, c: VoxelCoord) {
    Find(flat, c) < |flat|
  }

  ghost function VoxelAt<V>(flat: seq<Voxel<V>>, c: VoxelCoord): Voxel<V>
    requires Find(flat, c) < |flat|
  {
    flat[Find(flat, c)]
  }

  ghost function ContentsAt<V>(kind: Kind<V>, flat: seq<Voxel<V>>, c: VoxelCoord): V {
    if Find(flat, c) < |flat| then VoxelAt(flat, c).contents else kind.empty
  }

  /** The first n points that fall into the cell, added in their order. */
  ghost function FoldCell<V>(kind: Kind<V>, leaf: real, xs: seq<Sample>, n: nat, c: VoxelCoord, start: V): V
    requires leaf > 0.0 && n <= |xs|
  {
    if n == 0 then start
    else
      var t := FoldCell(kind, leaf, xs, n - 1, c, start);
      if Cell(xs[n - 1].p, leaf) == c then kind.add(t, xs[n - 1]) else t
  }

  ghost predicate Hit(leaf: real, xs: seq<Sample>, n: nat, c: VoxelCoord)
    requires leaf > 0.0 && n <= |xs|
  {
    exists i :: 0 <= i < n && Cell(xs[i].p, leaf) == c
  }

  lemma TouchMeans<V(!new)>(kind: Kind<V>, leaf: real, flat: seq<Voxel<V>>, lru: nat, x: Sample, c: VoxelCoord)
    requires leaf > 0.0
    ensures var t := Touch(kind, leaf, flat, lru, x);
      if Cell(x.p, leaf) == c then LiveAt(t, c)
        && VoxelAt(t, c) == Voxel(lru, c, kind.add(ContentsAt(kind, flat, c), x))
      else (LiveAt(t, c) <==> LiveAt(flat, c)) && (LiveAt(flat, c) ==> VoxelAt(t, c) == VoxelAt(flat, c))
  {
    hide Cell;
    var t := Touch(kind, leaf, flat, lru, x);
    var i := Find(flat, Cell(x.p, leaf));
    FirstIsFind(t, c, if Find(flat, c) < |flat| then Find(flat, c) else if Cell(x.p, leaf) == c then |flat| else |t|);
  }

  lemma FirstIsFind<V(!new)>(flat: seq<Voxel<V>>, c: VoxelCoord, i: nat)
    requires i <= |flat| && (i < |flat| ==> flat[i].coord == c) && forall j :: 0 <= j < i ==> flat[j].coord != c
    ensures Find(flat, c) == i
  {
  }

  lemma {:induction false} TouchAllMeans<V(!new)>(kind: Kind<V>, leaf: real, flat: seq<Voxel<V>>, lru: nat,
                                                  xs: seq<Sample>, n: nat, c: VoxelCoord)
    requires leaf > 0.0 && n <= |xs|
    ensures var t := TouchAll(kind, leaf, flat, lru, xs, n);
      && (LiveAt(t, c) <==> LiveAt(flat, c) || Hit(leaf, xs, n, c))
      && ContentsAt(kind, t, c) == FoldCell(kind, leaf, xs, n, c, ContentsAt(kind, flat, c))
      && (LiveAt(t, c) ==> VoxelAt(t, c).lru == if Hit(leaf, xs, n, c) then lru else VoxelAt(flat, c).lru)
  {
    hide Cell, Touch, Find;
    if n > 0 {
      TouchAllMeans(kind, leaf, flat, lru, xs, n - 1, c);
      TouchMeans(kind, leaf, TouchAll(kind, leaf, flat, lru, xs, n - 1), lru, xs[n - 1], c);
    }
  }

  lemma EvictMeans<V(!new)>(flat: seq<Voxel<V>>, horizon: nat, counter: nat, c: VoxelCoord)
    requires DistinctCoords(flat)
    ensures var t := Evict(flat, horizon, counter);
      && (LiveAt(t, c) <==> LiveAt(flat, c) && VoxelAt(flat, c).lru + horizon >= counter)
      && (LiveAt(t, c) ==> VoxelAt(t, c) == VoxelAt(flat, c))
  {
    hide Evict;
    var t := Evict(flat, horizon, counter);
    EvictMembers(flat, horizon, counter);
    if LiveAt(t, c) {
      assert VoxelAt(t, c) in t && VoxelAt(t, c) in flat;
      var i :| 0 <= i < |flat| && flat[i] == VoxelAt(t, c);
      assert Find(flat, c) == i;
    }
    if LiveAt(flat, c) && VoxelAt(flat, c).lru + horizon >= counter {
      assert VoxelAt(flat, c) in flat && VoxelAt(flat, c) in t;
      var i :| 0 <= i < |t| && t[i] == VoxelAt(flat, c);
    }
  }

  lemma FinalizeMeans<V(!new)>(kind: Kind<V>, flat: seq<Voxel<V>>, c: VoxelCoord)
    ensures var t := FinalizeAll(kind, flat);
      && (LiveAt(t, c) <==> LiveAt(flat, c))
      && (LiveAt(flat, c) ==> VoxelAt(t, c) == VoxelAt(flat, c).(contents := kind.finalize(VoxelAt(flat, c).contents)))
  {
    FirstIsFind(FinalizeAll(kind, flat), c, Find(flat, c));
  }

  /** When the voxel of a cell was last used, counting this insertion. */
  ghost function LastUse<V>(leaf: real, flat: seq<Voxel<V>>, lru: nat, xs: seq<Sample>, c: VoxelCoord): nat
    requires leaf > 0.0
  {
    if Hit(leaf, xs, |xs|, c) || Find(flat, c) == |flat| then lru else VoxelAt(flat, c).lru
  }

  /** Cell by cell: a voxel is live afterwards exactly when it was live or hit, and no clearing found it out of the
      horizon; its contents are the finalized sum of its old contents and the new points of its cell. */
  lemma {:induction false} InsertMeans<V(!new)>(kind: Kind<V>, leaf: real, flat: seq<Voxel<V>>, lru: nat, horizon: nat,
                                                cycle: nat, xs: seq<Sample>, c: VoxelCoord)
    requires leaf > 0.0 && cycle > 0 && DistinctCoords(flat)
    ensures var r, last := Inserted(kind, leaf, flat, lru, horizon, cycle, xs), LastUse(leaf, flat, lru, xs, c);
      && (LiveAt(r, c) <==>
          (LiveAt(flat, c) || Hit(leaf, xs, |xs|, c)) && ((lru + 1) % cycle == 0 ==> last + horizon >= lru + 1))
      && (LiveAt(r, c) ==>
          VoxelAt(r, c) == Voxel(last, c, kind.finalize(FoldCell(kind, leaf, xs, |xs|, c, ContentsAt(kind, flat, c)))))
  {
    hide Find, TouchAll, Evict, Hit, FoldCell, FinalizeAll, DistinctCoords;
    var touched := TouchAll(kind, leaf, flat, lru, xs, |xs|);
    TouchAllMeans(kind, leaf, flat, lru, xs, |xs|, c);
    TouchAllKeepsDistinct(kind, leaf, flat, lru, xs, |xs|);
    EvictMeans(touched, horizon, lru + 1, c);
    FinalizeMeans(kind, if (lru + 1) % cycle == 0 then Evict(touched, horizon, lru + 1) else touched, c);
  }

  // --------------------------------------------------------------- what an insertion means for the order of the voxels

  /** The first of the first n points that falls into the cell, or n. */
  ghost function FirstHit(leaf: real, xs: seq<Sample>, n: nat, c: VoxelCoord): (i: nat)
    requires leaf > 0.0 && n <= |xs|
    ensures i <= n && (i < n <==> Hit(leaf, xs, n, c)) && (i < n ==> Cell(xs[i].p, leaf) == c)
    ensures forall j :: 0 <= j < i ==> Cell(xs[j].p, leaf) != c
  {
    hide Cell;
    if n == 0 then 0
    else
      var i := FirstHit(leaf, xs, n - 1, c);
      if i < n - 1 || Cell(xs[n - 1].p, leaf) == c then i else n
  }

  /** A point leaves every voxel where it is; a new voxel comes last. */
  lemma TouchFinds<V(!new)>(kind: Kind<V>, leaf: real, flat: seq<Voxel<V>>, lru: nat, x: Sample, c: VoxelCoord)
    requires leaf > 0.0
    ensures var t := Touch(kind, leaf, flat, lru, x);
      && |t| >= |flat| && (Cell(x.p, leaf) == c ==> Find(t, c) < |t|)
      && Find(t, c) == if Find(flat, c) < |flat| then Find(flat, c) else if Cell(x.p, leaf) == c then |flat| else |t|
  {
    hide Cell;
    var t := Touch(kind, leaf, flat, lru, x);
    FirstIsFind(t, c, if Find(flat, c) < |flat| then Find(flat, c) else if Cell(x.p, leaf) == c then |flat| else |t|);
  }

  lemma {:induction false} TouchAllFinds<V(!new)>(kind: Kind<V>, leaf: real, flat: seq<Voxel<V>>, lru: nat,
                                                  xs: seq<Sample>, n: nat, c: VoxelCoord)
    requires leaf > 0.0 && n <= |xs|
    ensures var t := TouchAll(kind, leaf, flat, lru, xs, n);
      && |t| >= |flat|
      && (LiveAt(flat, c) ==> Find(t, c) == Find(flat, c))
      && (!LiveAt(flat, c) && Hit(leaf, xs, n, c) ==> |flat| <= Find(t, c) < |t|)
      && (!LiveAt(flat, c) && !Hit(leaf, xs, n, c) ==> Find(t, c) == |t|)
  {
    hide Cell, Touch, Find;
    if n == 0 {
      FoundWithin(flat, c);
    } else {
      TouchAllFinds(kind, leaf, flat, lru, xs, n - 1, c);
      TouchFinds(kind, leaf, TouchAll(kind, leaf, flat, lru, xs, n - 1), lru, xs[n - 1], c);
    }
  }

  lemma FoundWithin<V(!new)>(flat: seq<Voxel<V>>, c: VoxelCoord)
    ensures Find(flat, c) <= |flat|
  {
  }

  /** New voxels stand in the order of their first hits. */
  lemma {:induction false} NewInOrder<V(!new)>(kind: Kind<V>, leaf: real, flat: seq<Voxel<V>>, lru: nat,
                                               xs: seq<Sample>, n: nat, c: VoxelCoord, d: VoxelCoord)
    requires leaf > 0.0 && n <= |xs| && !LiveAt(flat, c) && !LiveAt(flat, d)
    requires FirstHit(leaf, xs, n, c) < FirstHit(leaf, xs, n, d) < n
    ensures var t := TouchAll(kind, leaf, flat, lru, xs, n); Find(t, c) < Find(t, d)
  {
    hide Cell, Touch, Find;
    var t := TouchAll(kind, leaf, flat, lru, xs, n - 1);
    TouchAllFinds(kind, leaf, flat, lru, xs, n - 1, c);
    TouchAllFinds(kind, leaf, flat, lru, xs, n - 1, d);
    TouchFinds(kind, leaf, t, lru, xs[n - 1], c);
    TouchFinds(kind, leaf, t, lru, xs[n - 1], d);
    if FirstHit(leaf, xs, n - 1, d) < n - 1 {
      NewInOrder(kind, leaf, flat, lru, xs, n - 1, c, d);
    }
  }

  /** Eviction leaves the survivors in their order. */
  lemma {:induction false} EvictInOrder<V(!new)>(flat: seq<Voxel<V>>, horizon: nat, counter: nat, i: nat, j: nat)
    returns (i': nat, j': nat)
    requires i < j < |flat| && flat[i].lru + horizon >= counter && flat[j].lru + horizon >= counter
    ensures var r := Evict(flat, horizon, counter); i' < j' < |r| && r[i'] == flat[i] && r[j'] == flat[j]
  {
    var s := flat[..|flat| - 1];
    var t := Evict(s, horizon, counter);
    assert s[i] == flat[i];
    if j < |flat| - 1 {
      assert s[j] == flat[j];
      i', j' := EvictInOrder(s, horizon, counter, i, j);
    } else {
      EvictMembers(s, horizon, counter);
      assert s[i] in s && s[i] in t;
      i' :| 0 <= i' < |t| && t[i'] == s[i];
      j' := |t|;
    }
  }

  lemma EvictKeepsOrder<V(!new)>(flat: seq<Voxel<V>>, horizon: nat, counter: nat, c: VoxelCoord, d: VoxelCoord)
    requires DistinctCoords(flat) && Find(flat, c) < Find(flat, d) && LiveAt(flat, d)
    requires LiveAt(Evict(flat, horizon, counter), c) && LiveAt(Evict(flat, horizon, counter), d)
    ensures Find(Evict(flat, horizon, counter), c) < Find(Evict(flat, horizon, counter), d)
  {
    hide Evict, DistinctCoords;
    var r := Evict(flat, horizon, counter);
    EvictMeans(flat, horizon, counter, c);
    EvictMeans(flat, horizon, counter, d);
    EvictKeepsDistinct(flat, horizon, counter);
    var i, j := EvictInOrder(flat, horizon, counter, Find(flat, c), Find(flat, d));
    OnlyPosition(r, c, i);
    OnlyPosition(r, d, j);
  }

  lemma OnlyPosition<V(!new)>(flat: seq<Voxel<V>>, c: VoxelCoord, i: nat)
    requires DistinctCoords(flat) && i < |flat| && flat[i].coord == c
    ensures Find(flat, c) == i
  {
    FirstIsFind(flat, c, i);
  }

  /** c has its voxel in front of d's before an insertion, or will have it there: a voxel live before stands in front of
      every new one, and of two new ones the one hit first. */
  ghost predicate Precedes<V(!new)>(leaf: real, flat: seq<Voxel<V>>, xs: seq<Sample>, c: VoxelCoord, d: VoxelCoord)
    requires leaf > 0.0
  {
    if LiveAt(flat, c) && LiveAt(flat, d) then Find(flat, c) < Find(flat, d)
    else if LiveAt(flat, c) || LiveAt(flat, d) then LiveAt(flat, c)
    else FirstHit(leaf, xs, |xs|, c) < FirstHit(leaf, xs, |xs|, d)
  }

  lemma TouchInOrder<V(!new)>(kind: Kind<V>, leaf: real, flat: seq<Voxel<V>>, lru: nat, xs: seq<Sample>, c: VoxelCoord,
                              d: VoxelCoord)
    requires leaf > 0.0 && Precedes(leaf, flat, xs, c, d)
    ensures var t := TouchAll(kind, leaf, flat, lru, xs, |xs|); LiveAt(t, c) && LiveAt(t, d) ==> Find(t, c) < Find(t, d)
  {
    hide Cell, TouchAll;
    TouchAllFinds(kind, leaf, flat, lru, xs, |xs|, c);
    TouchAllFinds(kind, leaf, flat, lru, xs, |xs|, d);
    if !LiveAt(flat, c) && !LiveAt(flat, d) && FirstHit(leaf, xs, |xs|, d) < |xs| {
      NewInOrder(kind, leaf, flat, lru, xs, |xs|, c, d);
    }
  }

  /** Of two cells live after an insertion the one that precedes has its voxel in front. */
  lemma {:induction false} InsertKeepsOrder<V(!new)>(kind: Kind<V>, leaf: real, flat: seq<Voxel<V>>, lru: nat,
                                                     horizon: nat, cycle: nat, xs: seq<Sample>, c: VoxelCoord,
                                                     d: VoxelCoord)
    requires leaf > 0.0 && cycle > 0 && DistinctCoords(flat) && Precedes(leaf, flat, xs, c, d)
    ensures var r := Inserted(kind, leaf, flat, lru, horizon, cycle, xs);
      LiveAt(r, c) && LiveAt(r, d) ==> Find(r, c) < Find(r, d)
  {
    hide Find, TouchAll, Evict, FinalizeAll, DistinctCoords, Precedes;
    var touched := TouchAll(kind, leaf, flat, lru, xs, |xs|);
    var kept := if (lru + 1) % cycle == 0 then Evict(touched, horizon, lru + 1) else touched;
    TouchInOrder(kind, leaf, flat, lru, xs, c, d);
    TouchAllKeepsDistinct(kind, leaf, flat, lru, xs, |xs|);
    EvictMeans(touched, horizon, lru + 1, c);
    EvictMeans(touched, horizon, lru + 1, d);
    FinalizeFinds(kind, kept, c);
    FinalizeFinds(kind, kept, d);
    if (lru + 1) % cycle == 0 && LiveAt(kept, c) && LiveAt(kept, d) {
      EvictKeepsOrder(touched, horizon, lru + 1, c, d);
    }
  }

  lemma FinalizeFinds<V(!new)>(kind: Kind<V>, flat: seq<Voxel<V>>, c: VoxelCoord)
    ensures |FinalizeAll(kind, flat)| == |flat| && Find(FinalizeAll(kind, flat), c) == Find(flat, c)
  {
    FirstIsFind(FinalizeAll(kind, flat), c, Find(flat, c));
  }

  lemma {:induction false} TouchAllKeepsDistinct<V(!new)>(kind: Kind<V>, leaf: real, flat: seq<Voxel<V>>, lru: nat,
                                                          xs: seq<Sample>, n: nat)
    requires leaf > 0.0 && n <= |xs| && DistinctCoords(flat)
    ensures DistinctCoords(TouchAll(kind, leaf, flat, lru, xs, n))
  {
    hide DistinctCoords, Touch, Cell;
    if n > 0 {
      TouchAllKeepsDistinct(kind, leaf, flat, lru, xs, n - 1);
      TouchKeepsDistinct(kind, leaf, TouchAll(kind, leaf, flat, lru, xs, n - 1), lru, xs[n - 1]);
    }
  }

  // ---------------------------------------------------------------- the map

  class IncrementalVoxelMap<V(!new)> {
    const leaf: real
    const kind: Kind<V>
    var lruHorizon: nat
    var lruClearCycle: nat
    var lruCounter: nat
    var searchOffsets: seq<VoxelCoord>
    var flatVoxels: seq<Voxel<V>>
    var voxels: map<VoxelCoord, nat>

    ghost predicate Valid()
      reads this
    {
      && leaf > 0.0 && lruClearCycle > 0
      && Mutual(flatVoxels, voxels)
      && Recent(flatVoxels, lruHorizon, lruClearCycle, lruCounter)
    }

    constructor (leafSize: real, kind: Kind<V>)
      requires leafSize > 0.0
      ensures Valid() && flatVoxels == [] && leaf == leafSize && this.kind == kind
      ensures lruHorizon == 100 && lruClearCycle == 10 && lruCounter == 0 && searchOffsets == [VoxelCoord(0, 0, 0)]
    {
      leaf, this.kind := leafSize, kind;
      lruHorizon, lruClearCycle, lruCounter := 100, 10, 0;
      flatVoxels, voxels := [], map[];
      new;
      SetSearchOffsets(1);
    }

    /** 1, 7 or 27 cells; 27 extends the present pattern instead of replacing it, any other number means 1. */
    method SetSearchOffsets(numOffsets: int)
      modifies this`searchOffsets
      ensures numOffsets != 7 && numOffsets != 27 ==> searchOffsets == [VoxelCoord(0, 0, 0)]
      ensures numOffsets == 7 ==> |searchOffsets| == 7 && forall o :: o in searchOffsets <==>
        Abs(o.x) + Abs(o.y) + Abs(o.z) <= 1
      // The centre comes first, then the positive and then the negative directions.
      ensures numOffsets == 7 ==> forall axis :: 0 <= axis < 3 ==>
        searchOffsets[axis + 1] == Step(axis, 1) && searchOffsets[axis + 4] == Step(axis, -1)
      ensures numOffsets == 7 ==> searchOffsets[0] == VoxelCoord(0, 0, 0)
      ensures numOffsets == 27 ==> searchOffsets == old(searchOffsets) + CubeOffsets()
    {
      if numOffsets == 27 {
        AppendCube();
      } else if numOffsets == 7 {
        searchOffsets := [VoxelCoord(0, 0, 0), VoxelCoord(1, 0, 0), VoxelCoord(0, 1, 0), VoxelCoord(0, 0, 1),
                          VoxelCoord(-1, 0, 0), VoxelCoord(0, -1, 0), VoxelCoord(0, 0, -1)];
      } else {
        searchOffsets := [VoxelCoord(0, 0, 0)];
      }
    }

    method AppendCube()
      modifies this`searchOffsets
      ensures searchOffsets == old(searchOffsets) + CubeOffsets()
    {
      hide Slabs, Rows, Row;
      ghost var was := searchOffsets;
      SlabsFrom(-1);
      for i := -1 to 2
        invariant searchOffsets == was + Slabs(i)
      {
        SlabsFrom(i);
        RowsFrom(i, -1);
        for j := -1 to 2
          invariant searchOffsets == was + Slabs(i) + Rows(i, j)
        {
          RowsFrom(i, j);
          RowFrom(i, j, -1);
          for k := -1 to 2
            invariant searchOffsets == was + Slabs(i) + Rows(i, j) + Row(i, j, k)
          {
            RowFrom(i, j, k);
            searchOffsets := searchOffsets + [VoxelCoord(i, j, k)];
          }
        }
      }
    }

    /** Puts one transformed point into the voxel of its cell. */
    method InsertPoint(x: Sample)
      requires leaf > 0.0 && Mutual(flatVoxels, voxels)
      modifies this`flatVoxels, this`voxels
      ensures flatVoxels == Touch(kind, leaf, old(flatVoxels), lruCounter, x) && Mutual(flatVoxels, voxels)
    {
      hide Cell;
      var coord := Cell(x.p, leaf);
      LookupIsFind(flatVoxels, voxels, coord);
      if coord !in voxels {
        voxels := voxels[coord := |flatVoxels|];
        flatVoxels := flatVoxels + [Voxel(lruCounter, coord, kind.empty)];
      }
      var i := voxels[coord];
      flatVoxels := flatVoxels[i := Voxel(lruCounter, flatVoxels[i].coord, kind.add(flatVoxels[i].contents, x))];
    }

    /** Removes the voxels not used within the horizon and numbers the rest again. */
    method RemoveOld()
      requires DistinctCoords(flatVoxels)
      modifies this`flatVoxels, this`voxels
      ensures flatVoxels == Evict(old(flatVoxels), lruHorizon, lruCounter) && Mutual(flatVoxels, voxels)
    {
      EvictKeepsDistinct(flatVoxels, lruHorizon, lruCounter);
      hide Evict;
      flatVoxels := Evict(flatVoxels, lruHorizon, lruCounter);
      voxels := map[];
      for i := 0 to |flatVoxels|
        modifies this`voxels
        invariant forall j :: 0 <= j < i ==> flatVoxels[j].coord in voxels && voxels[flatVoxels[j].coord] == j
        invariant forall c :: c in voxels ==> voxels[c] < i && flatVoxels[voxels[c]].coord == c
      {
        voxels := voxels[flatVoxels[i].coord := i];
      }
    }

    method FinalizeVoxels()
      requires Mutual(flatVoxels, voxels)
      modifies this`flatVoxels
      ensures flatVoxels == FinalizeAll(kind, old(flatVoxels)) && Mutual(flatVoxels, voxels)
    {
      for i := 0 to |flatVoxels|
        invariant |flatVoxels| == |old(flatVoxels)|
        invariant forall j :: 0 <= j < i ==> flatVoxels[j] == FinalizeAll(kind, old(flatVoxels))[j]
        invariant forall j :: i <= j < |flatVoxels| ==> flatVoxels[j] == old(flatVoxels)[j]
      {
        flatVoxels := flatVoxels[i := flatVoxels[i].(contents := kind.finalize(flatVoxels[i].contents))];
      }
    }

    /** Inserts a point cloud moved by a transformation, evicts on every lruClearCycle-th call, and finalizes every
        voxel. */
    method Insert(points: seq<Sample>, transform: Sample -> Sample)
      requires Valid()
      modifies this`lruCounter, this`flatVoxels, this`voxels
      ensures Valid() && lruCounter == old(lruCounter) + 1
      ensures flatVoxels == Inserted(kind, leaf, old(flatVoxels), old(lruCounter), lruHorizon, lruClearCycle,
                                     Moved(points, transform))
    {
      hide Mutual, Recent, Touch;
      ghost var xs := Moved(points, transform);
      for i := 0 to |points|
        invariant Mutual(flatVoxels, voxels) && lruCounter == old(lruCounter)
        invariant flatVoxels == TouchAll(kind, leaf, old(flatVoxels), lruCounter, xs, i)
      {
        InsertPoint(transform(points[i]));
      }
      lruCounter := lruCounter + 1;
      if lruCounter % lruClearCycle == 0 {
        MutualIsDistinct(flatVoxels, voxels);
        RemoveOld();
      }
      FinalizeVoxels();
      StaysRecent(kind, leaf, old(flatVoxels), old(lruCounter), lruHorizon, lruClearCycle, xs);
    }
  }

  function Moved(points: seq<Sample>, transform: Sample -> Sample): (xs: seq<Sample>)
    ensures |xs| == |points| && forall i :: 0 <= i < |xs| ==> xs[i] == transform(points[i])
  {
    seq(|points|, i requires 0 <= i < |points| => transform(points[i]))
  }

  /** A step along an axis. */
  function Step(axis: nat, d: int): VoxelCoord {
    if axis == 0 then VoxelCoord(d, 0, 0) else if axis == 1 then VoxelCoord(0, d, 0) else VoxelCoord(0, 0, d)
  }

  function Row(i: int, j: int, n: int): (r: seq<VoxelCoord>)
    ensures |r| == if n <= -1 then 0 else n + 1
    decreases n
  {
    if n <= -1 then [] else Row(i, j, n - 1) + [VoxelCoord(i, j, n - 1)]
  }

  function Rows(i: int, n: int): (r: seq<VoxelCoord>)
    ensures |r| == if n <= -1 then 0 else 3 * (n + 1)
    decreases n
  {
    if n <= -1 then [] else Rows(i, n - 1) + Row(i, n - 1, 2)
  }

  function Slabs(n: int): (r: seq<VoxelCoord>)
    ensures |r| == if n <= -1 then 0 else 9 * (n + 1)
    decreases n
  {
    if n <= -1 then [] else Slabs(n - 1) + Rows(n - 1, 2)
  }

  lemma RowFrom(i: int, j: int, n: int)
    requires n >= -1
    ensures Row(i, j, -1) == [] && Row(i, j, n + 1) == Row(i, j, n) + [VoxelCoord(i, j, n)]
  {
  }

  lemma RowsFrom(i: int, n: int)
    requires n >= -1
    ensures Rows(i, -1) == [] && Rows(i, n + 1) == Rows(i, n) + Row(i, n, 2)
  {
  }

  lemma SlabsFrom(n: int)
    requires n >= -1
    ensures Slabs(-1) == [] && Slabs(n + 1) == Slabs(n) + Rows(n, 2)
  {
  }

  /** The 27 offsets of the 3 x 3 x 3 cube in the order of the loops. */
  function CubeOffsets(): (r: seq<VoxelCoord>)
    ensures |r| == 27
  {
    Slabs(2)
  }

  /** The offset at each place of the cube: z runs fastest, then y, then x. */
  lemma CubePlaces(i: int, j: int, k: int)
    requires -1 <= i <= 1 && -1 <= j <= 1 && -1 <= k <= 1
    ensures CubeOffsets()[9 * (i + 1) + 3 * (j + 1) + k + 1] == VoxelCoord(i, j, k)
  {
    hide Row, Rows, Slabs;
    RowPlace(i, j, 2, k);
    RowsPlace(i, 2, j, k);
    SlabsPlace(2, i, j, k);
  }

  lemma {:induction false} RowPlace(i: int, j: int, n: int, k: int)
    requires -1 <= k < n
    ensures Row(i, j, n)[k + 1] == VoxelCoord(i, j, k)
    decreases n
  {
    if k < n - 1 {
      RowPlace(i, j, n - 1, k);
    }
  }

  lemma {:induction false} RowsPlace(i: int, n: int, j: int, k: int)
    requires -1 <= j < n && -1 <= k <= 1 && Row(i, j, 2)[k + 1] == VoxelCoord(i, j, k)
    ensures Rows(i, n)[3 * (j + 1) + k + 1] == VoxelCoord(i, j, k)
    decreases n
  {
    hide Row;
    if j < n - 1 {
      RowsPlace(i, n - 1, j, k);
    }
  }

  lemma {:induction false} SlabsPlace(n: int, i: int, j: int, k: int)
    requires -1 <= i < n && -1 <= j <= 1 && -1 <= k <= 1 && Rows(i, 2)[3 * (j + 1) + k + 1] == VoxelCoord(i, j, k)
    ensures Slabs(n)[9 * (i + 1) + 3 * (j + 1) + k + 1] == VoxelCoord(i, j, k)
    decreases n
  {
    hide Rows;
    if i < n - 1 {
      SlabsPlace(n - 1, i, j, k);
    }
  }
}
