/** The task-parallel three-way quicksort: tasks partition disjoint ranges of one array in place, in any
    interleaving. */
module QuickSort {
  /** Ranges shorter than this are sorted directly. */
  const CUTOFF: nat := 1024

  ghost predicate StrictWeakOrder<T(!new)>(less: (T, T) -> bool) {
    && (forall x :: !less(x, x))
    && (forall x, y, z :: less(x, y) && less(y, z) ==> less(x, z))
    && (forall x, y, z :: !less(x, y) && !less(y, z) ==> !less(x, z))
  }

  ghost predicate Sorted<T>(s: seq<T>, less: (T, T) -> bool) {
    forall i, j :: 0 <= i < j < |s| ==> !less(s[j], s[i])
  }

  /** std::sort and std::partition, known by their contracts; partition also returns the number of accepted elements. */
  datatype Library<!T> = Library(sort: seq<T> -> seq<T>, partition: (seq<T>, T -> bool) -> (seq<T>, nat))

  ghost predicate SortsPartitions<T(!new)>(lib: Library<T>, less: (T, T) -> bool) {
    && (forall s :: multiset(lib.sort(s)) == multiset(s) && |lib.sort(s)| == |s| && Sorted(lib.sort(s), less))
    && (forall s, p :: IsPartition(s, lib.partition(s, p), p))
  }

  ghost predicate IsPartition<T>(s: seq<T>, r: (seq<T>, nat), p: T -> bool) {
    && multiset(r.0) == multiset(s) && |r.0| == |s| && r.1 <= |s|
    && (forall i :: 0 <= i < r.1 ==> p(r.0[i]))
    && (forall i :: r.1 <= i < |s| ==> !p(r.0[i]))
  }

  function Median3<T>(a: T, b: T, c: T, less: (T, T) -> bool): (m: T)
    ensures m == a || m == b || m == c
  {
    if less(a, b) then (if less(b, c) then b else if less(a, c) then c else a)
    else (if less(a, c) then a else if less(b, c) then c else b)
  }

  /** At most one of the three lies strictly on either side of the median. */
  lemma MedianIsMiddle<T(!new)>(a: T, b: T, c: T, less: (T, T) -> bool)
    requires StrictWeakOrder(less)
    ensures var m := Median3(a, b, c, less);
      && !(less(a, m) && less(b, m)) && !(less(a, m) && less(c, m)) && !(less(b, m) && less(c, m))
      && !(less(m, a) && less(m, b)) && !(less(m, a) && less(m, c)) && !(less(m, b) && less(m, c))
  {
  }

  /** Nine samples spread over a range, the last one at its end. */
  function Samples<T>(s: seq<T>): (r: seq<T>)
    requires |s| >= 8
    ensures |r| == 9 && forall i :: 0 <= i < 9 ==> r[i] in s
  {
    var o := |s| / 8;
    [s[0], s[o], s[2 * o], s[3 * o], s[4 * o], s[5 * o], s[6 * o], s[7 * o], s[|s| - 1]]
  }

  /** The median of three medians of three samples each. */
  function Pivot<T>(s: seq<T>, less: (T, T) -> bool): (p: T)
    requires |s| >= 8
    ensures p in s
  {
    var r := Samples(s);
    var m1, m2, m3 := Median3(r[0], r[1], r[2], less), Median3(r[3], r[4], r[5], less), Median3(r[6], r[7], r[8], less);
    Median3(m1, m2, m3, less)
  }

  /** How many of three elements lie below p. */
  ghost function CountBelow<T>(a: T, b: T, c: T, p: T, less: (T, T) -> bool): nat {
    (if less(a, p) then 1 else 0) + (if less(b, p) then 1 else 0) + if less(c, p) then 1 else 0
  }

  ghost function CountAbove<T>(a: T, b: T, c: T, p: T, less: (T, T) -> bool): nat {
    (if less(p, a) then 1 else 0) + (if less(p, b) then 1 else 0) + if less(p, c) then 1 else 0
  }

  lemma MedianBounds<T(!new)>(a: T, b: T, c: T, p: T, less: (T, T) -> bool)
    requires StrictWeakOrder(less)
    ensures !less(Median3(a, b, c, less), p) ==> CountBelow(a, b, c, p, less) <= 1
    ensures !less(p, Median3(a, b, c, less)) ==> CountAbove(a, b, c, p, less) <= 1
  {
  }

  /** No more than five of the nine samples lie on either side of the pivot. */
  lemma PivotIsCentral<T(!new)>(s: seq<T>, less: (T, T) -> bool)
    requires StrictWeakOrder(less) && |s| >= 8
    ensures var r, p := Samples(s), Pivot(s, less);
      && CountBelow(r[0], r[1], r[2], p, less) + CountBelow(r[3], r[4], r[5], p, less) +
        CountBelow(r[6], r[7], r[8], p, less) <= 5
      && CountAbove(r[0], r[1], r[2], p, less) + CountAbove(r[3], r[4], r[5], p, less) +
        CountAbove(r[6], r[7], r[8], p, less) <= 5
  {
    hide StrictWeakOrder, Samples, Median3;
    var r, p := Samples(s), Pivot(s, less);
    MedianBounds(r[0], r[1], r[2], p, less);
    MedianBounds(r[3], r[4], r[5], p, less);
    MedianBounds(r[6], r[7], r[8], p, less);
    MedianIsMiddle(Median3(r[0], r[1], r[2], less), Median3(r[3], r[4], r[5], less), Median3(r[6], r[7], r[8], less),
                   less);
  }

  // ---------------------------------------------------------------- tasks

  /** A spawned call on [lo, hi), or one that has run its first partition: [lo, mid) lies below the pivot, [mid, hi)
      does not. */
  datatype Task<T> =
    | Call(lo: nat, hi: nat)
    | Half(lo: nat, hi: nat, mid: nat, pivot: T)

  ghost predicate InRange<T>(t: Task<T>, i: int) {
    t.lo <= i < t.hi
  }

  ghost predicate Together<T>(tasks: seq<Task<T>>, i: int, j: int) {
    exists k :: 0 <= k < |tasks| && InRange(tasks[k], i) && InRange(tasks[k], j)
  }

  ghost predicate TaskOk<T>(a: seq<T>, t: Task<T>, less: (T, T) -> bool) {
    && t.lo <= t.hi <= |a|
    && (t.Half? ==>
          && t.lo <= t.mid < t.hi
          && (forall i :: t.lo <= i < t.mid ==> less(a[i], t.pivot))
          && (forall i :: t.mid <= i < t.hi ==> !less(a[i], t.pivot))
          && exists i :: t.mid <= i < t.hi && a[i] == t.pivot)
  }

  /** Pending tasks work on disjoint ranges, and any two elements not in a common pending range are in order. */
  ghost predicate Inv<T(!new)>(a: seq<T>, tasks: seq<Task<T>>, less: (T, T) -> bool) {
    && (forall k :: 0 <= k < |tasks| ==> TaskOk(a, tasks[k], less))
    && (forall k, l, i :: 0 <= k < l < |tasks| && InRange(tasks[k], i) ==> !InRange(tasks[l], i))
    && (forall i, j :: 0 <= i < j < |a| && !Together(tasks, i, j) ==> !less(a[j], a[i]))
  }

  /** b is a with the elements of [lo, hi) rearranged. */
  ghost predicate Rearranged<T(!new)>(a: seq<T>, b: seq<T>, lo: nat, hi: nat) {
    && |a| == |b| && lo <= hi <= |a| && multiset(a) == multiset(b)
    && (forall i :: 0 <= i < |a| && !(lo <= i < hi) ==> b[i] == a[i])
    && (forall i :: lo <= i < hi ==> b[i] in a[lo..hi])
  }

  /** s with r written from position lo on. */
  function Written<T>(s: seq<T>, lo: nat, r: seq<T>): (w: seq<T>)
    requires lo + |r| <= |s|
    ensures |w| == |s| && w[lo..lo + |r|] == r
  {
    s[..lo] + r + s[lo + |r|..]
  }

  lemma RearrangedFrom<T(!new)>(a: seq<T>, lo: nat, hi: nat, r: seq<T>)
    requires lo <= hi <= |a| && multiset(r) == multiset(a[lo..hi]) && |r| == hi - lo
    ensures Rearranged(a, Written(a, lo, r), lo, hi)
    ensures forall x :: x in r <==> x in a[lo..hi]
  {
    var b := Written(a, lo, r);
    assert a == a[..lo] + a[lo..hi] + a[hi..];
    forall x
      ensures x in r <==> x in a[lo..hi]
    {
      assert x in r <==> x in multiset(r);
      assert x in a[lo..hi] <==> x in multiset(a[lo..hi]);
    }
    forall i | lo <= i < hi
      ensures b[i] in a[lo..hi]
    {
      assert b[i] == r[i - lo];
    }
  }

  // ---------------------------------------------------------------- what a step of a task keeps

  /** Rearranging a pending range keeps every other task, and every pair not both inside the range. */
  lemma RearrangeKeepsOthers<T(!new)>(a: seq<T>, b: seq<T>, tasks: seq<Task<T>>, k: nat, less: (T, T) -> bool)
    requires Inv(a, tasks, less) && k < |tasks| && Rearranged(a, b, tasks[k].lo, tasks[k].hi)
    ensures forall l :: 0 <= l < |tasks| && l != k ==> TaskOk(b, tasks[l], less)
    ensures forall i, j :: 0 <= i < j < |b| && !Together(tasks, i, j) ==> !less(b[j], b[i])
  {
    var t := tasks[k];
    forall l | 0 <= l < |tasks| && l != k
      ensures TaskOk(b, tasks[l], less)
    {
      assert TaskOk(a, tasks[l], less);
      forall i | tasks[l].lo <= i < tasks[l].hi
        ensures b[i] == a[i]
      {
        assert InRange(tasks[l], i);
        assert !InRange(t, i);
      }
      if tasks[l].Half? {
        var i :| tasks[l].mid <= i < tasks[l].hi && a[i] == tasks[l].pivot;
        assert b[i] == tasks[l].pivot;
      }
    }
    forall i, j | 0 <= i < j < |b| && !Together(tasks, i, j)
      ensures !less(b[j], b[i])
    {
      OutsidePair(a, b, tasks, k, less, i, j);
    }
  }

  lemma OutsidePair<T(!new)>(a: seq<T>, b: seq<T>, tasks: seq<Task<T>>, k: nat, less: (T, T) -> bool, i: nat, j: nat)
    requires Inv(a, tasks, less) && k < |tasks| && Rearranged(a, b, tasks[k].lo, tasks[k].hi)
    requires i < j < |b| && !Together(tasks, i, j)
    ensures !less(b[j], b[i])
  {
    var t := tasks[k];
    assert !(InRange(t, i) && InRange(t, j));
    if InRange(t, i) {
      var x :| t.lo <= x < t.hi && a[x] == b[i];
      assert InRange(t, x);
      assert !Together(tasks, x, j) by {
        NotTogether(tasks, k, x, j);
      }
    } else if InRange(t, j) {
      var x :| t.lo <= x < t.hi && a[x] == b[j];
      assert InRange(t, x);
      assert !Together(tasks, i, x) by {
        NotTogether(tasks, k, x, i);
      }
    }
  }

  lemma NotTogether<T>(tasks: seq<Task<T>>, k: nat, x: int, y: int)
    requires k < |tasks| && InRange(tasks[k], x) && !InRange(tasks[k], y)
    requires forall k, l, i :: 0 <= k < l < |tasks| && InRange(tasks[k], i) ==> !InRange(tasks[l], i)
    ensures !Together(tasks, x, y) && !Together(tasks, y, x)
  {
  }

  /** A task whose range comes out sorted is finished. */
  lemma FinishKeeps<T(!new)>(a: seq<T>, b: seq<T>, tasks: seq<Task<T>>, k: nat, less: (T, T) -> bool)
    requires Inv(a, tasks, less) && k < |tasks| && Rearranged(a, b, tasks[k].lo, tasks[k].hi)
      && Sorted(b[tasks[k].lo..tasks[k].hi], less)
    ensures Inv(b, tasks[..k] + tasks[k + 1..], less)
  {
    hide Rearranged, Sorted, Together;
    var rest := tasks[..k] + tasks[k + 1..];
    RearrangeKeepsOthers(a, b, tasks, k, less);
    DroppedCells(tasks, k);
    SameBounds(a, b, tasks[k].lo, tasks[k].hi);
    forall i, j | 0 <= i < j < |b| && !Together(rest, i, j)
      ensures !less(b[j], b[i])
    {
      ApartOrSorted(a, b, tasks, k, less, i, j);
    }
  }

  lemma SameBounds<T(!new)>(a: seq<T>, b: seq<T>, lo: nat, hi: nat)
    requires Rearranged(a, b, lo, hi)
    ensures |a| == |b| && lo <= hi <= |b|
  {
  }

  lemma DroppedCells<T>(tasks: seq<Task<T>>, k: nat)
    requires k < |tasks|
    ensures var rest := tasks[..k] + tasks[k + 1..];
      && (forall l :: 0 <= l < |rest| ==> rest[l] == if l < k then tasks[l] else tasks[l + 1])
      && (forall l :: 0 <= l < |tasks| && l != k ==> tasks[l] in rest)
  {
    var rest := tasks[..k] + tasks[k + 1..];
    assert forall l :: 0 <= l < |tasks| && l != k ==> tasks[l] == rest[if l < k then l else l - 1];
  }

  lemma ApartOrSorted<T(!new)>(a: seq<T>, b: seq<T>, tasks: seq<Task<T>>, k: nat, less: (T, T) -> bool, i: nat, j: nat)
    requires k < |tasks| && tasks[k].lo <= tasks[k].hi <= |b| && Sorted(b[tasks[k].lo..tasks[k].hi], less)
    requires i < j < |b| && !Together(tasks[..k] + tasks[k + 1..], i, j)
    requires !Together(tasks, i, j) ==> !less(b[j], b[i])
    ensures !less(b[j], b[i])
  {
    hide Together, Sorted;
    DroppedCells(tasks, k);
    if InRange(tasks[k], i) && InRange(tasks[k], j) {
      SortedPair(b, tasks[k].lo, tasks[k].hi, less, i, j);
    } else if Together(tasks, i, j) {
      Others(tasks, k, tasks[..k] + tasks[k + 1..], i, j);
    }
  }

  lemma SortedPair<T>(b: seq<T>, lo: nat, hi: nat, less: (T, T) -> bool, i: nat, j: nat)
    requires hi <= |b| && lo <= i < j < hi && Sorted(b[lo..hi], less)
    ensures !less(b[j], b[i])
  {
    assert b[lo..hi][i - lo] == b[i] && b[lo..hi][j - lo] == b[j];
  }

  lemma Others<T>(tasks: seq<Task<T>>, k: nat, rest: seq<Task<T>>, i: int, j: int)
    requires k < |tasks| && (forall l :: 0 <= l < |tasks| && l != k ==> tasks[l] in rest)
    requires Together(tasks, i, j) && !(InRange(tasks[k], i) && InRange(tasks[k], j))
    ensures Together(rest, i, j)
  {
    var l :| 0 <= l < |tasks| && InRange(tasks[l], i) && InRange(tasks[l], j);
    var m :| 0 <= m < |rest| && rest[m] == tasks[l];
  }

  /** The first partition keeps the task's range pending. */
  lemma HalfKeeps<T(!new)>(a: seq<T>, b: seq<T>, tasks: seq<Task<T>>, k: nat, half: Task<T>, less: (T, T) -> bool)
    requires Inv(a, tasks, less) && k < |tasks| && Rearranged(a, b, tasks[k].lo, tasks[k].hi)
    requires half.lo == tasks[k].lo && half.hi == tasks[k].hi && TaskOk(b, half, less)
    ensures Inv(b, tasks[k := half], less)
  {
    RearrangeKeepsOthers(a, b, tasks, k, less);
    var tasks' := tasks[k := half];
    assert forall l, i :: 0 <= l < |tasks| ==> InRange(tasks'[l], i) == InRange(tasks[l], i);
    forall i, j | 0 <= i < j < |b|
      ensures Together(tasks, i, j) ==> Together(tasks', i, j)
    {
      StillTogether(tasks, tasks', i, j);
    }
  }

  lemma StillTogether<T>(tasks: seq<Task<T>>, tasks': seq<Task<T>>, i: int, j: int)
    requires |tasks'| == |tasks| && forall l, x :: 0 <= l < |tasks| && InRange(tasks[l], x) ==> InRange(tasks'[l], x)
    ensures Together(tasks, i, j) ==> Together(tasks', i, j)
  {
    if Together(tasks, i, j) {
      var l :| 0 <= l < |tasks| && InRange(tasks[l], i) && InRange(tasks[l], j);
      assert InRange(tasks'[l], i) && InRange(tasks'[l], j);
    }
  }

  /** After both partitions the elements below, equivalent to and above the pivot lie in this order. */
  ghost predicate ThreeWay<T>(b: seq<T>, t: Task<T>, mid2: nat, less: (T, T) -> bool) {
    && t.Half? && t.lo <= t.mid < mid2 <= t.hi <= |b|
    && (forall i :: t.lo <= i < t.mid ==> less(b[i], t.pivot))
    && (forall i :: t.mid <= i < mid2 ==> !less(b[i], t.pivot) && !less(t.pivot, b[i]))
    && (forall i :: mid2 <= i < t.hi ==> less(t.pivot, b[i]))
  }

  lemma ThreeWayOrders<T(!new)>(b: seq<T>, t: Task<T>, mid2: nat, less: (T, T) -> bool, i: nat, j: nat)
    requires StrictWeakOrder(less) && ThreeWay(b, t, mid2, less)
    requires t.lo <= i < j < t.hi && !(j < t.mid) && !(mid2 <= i)
    ensures !less(b[j], b[i])
  {
  }

  /** The task replaced by the calls on its outer two parts. */
  function Spawned<T>(tasks: seq<Task<T>>, k: nat, mid2: nat): seq<Task<T>>
    requires k < |tasks| && tasks[k].Half?
  {
    tasks[..k] + [Call(tasks[k].lo, tasks[k].mid), Call(mid2, tasks[k].hi)] + tasks[k + 1..]
  }

  lemma SpawnedCells<T>(tasks: seq<Task<T>>, k: nat, mid2: nat)
    requires k < |tasks| && tasks[k].Half?
    ensures var rest := Spawned(tasks, k, mid2);
      && |rest| == |tasks| + 1 && rest[k] == Call(tasks[k].lo, tasks[k].mid) && rest[k + 1] == Call(mid2, tasks[k].hi)
      && (forall l {:trigger rest[l]} :: 0 <= l < k ==> rest[l] == tasks[l])
      && (forall l {:trigger rest[l]} :: k + 2 <= l < |rest| ==> rest[l] == tasks[l - 1])
  {
  }

  /** The other tasks are still there, next to the two parts. */
  lemma SpawnedAt<T>(tasks: seq<Task<T>>, k: nat, mid2: nat)
    requires k < |tasks| && tasks[k].Half?
    ensures var rest := Spawned(tasks, k, mid2);
      && |rest| == |tasks| + 1 && rest[k] == Call(tasks[k].lo, tasks[k].mid) && rest[k + 1] == Call(mid2, tasks[k].hi)
      && (forall l :: 0 <= l < |rest| && l != k && l != k + 1 ==> rest[l] == tasks[if l < k then l else l - 1])
      && (forall l :: 0 <= l < |tasks| && l != k ==> tasks[l] in rest)
  {
    hide Spawned;
    var rest := Spawned(tasks, k, mid2);
    SpawnedCells(tasks, k, mid2);
    forall l | 0 <= l < |tasks| && l != k
      ensures tasks[l] in rest
    {
      assert rest[if l < k then l else l + 1] == tasks[l];
    }
  }

  /** Two elements that are together no longer are in order: they are in different parts, or were apart before. */
  lemma ApartInOrder<T(!new)>(b: seq<T>, tasks: seq<Task<T>>, k: nat, mid2: nat, less: (T, T) -> bool, i: nat, j: nat)
    requires StrictWeakOrder(less) && k < |tasks| && ThreeWay(b, tasks[k], mid2, less) && i < j < |b|
    requires !Together(tasks, i, j) ==> !less(b[j], b[i])
    requires !Together(Spawned(tasks, k, mid2), i, j)
    ensures !less(b[j], b[i])
  {
    hide StrictWeakOrder, Spawned;
    var rest := Spawned(tasks, k, mid2);
    SpawnedAt(tasks, k, mid2);
    if InRange(tasks[k], i) && InRange(tasks[k], j) {
      assert !(InRange(rest[k], i) && InRange(rest[k], j)) && !(InRange(rest[k + 1], i) && InRange(rest[k + 1], j));
      ThreeWayOrders(b, tasks[k], mid2, less, i, j);
    } else if Together(tasks, i, j) {
      Others(tasks, k, rest, i, j);
    }
  }

  /** Spawning the outer two parts drops the middle one, which is in its final place. */
  lemma SpawnKeeps<T(!new)>(a: seq<T>, b: seq<T>, tasks: seq<Task<T>>, k: nat, mid2: nat, less: (T, T) -> bool)
    requires StrictWeakOrder(less) && Inv(a, tasks, less) && k < |tasks| && ThreeWay(b, tasks[k], mid2, less)
    requires Rearranged(a, b, tasks[k].lo, tasks[k].hi)
    ensures Inv(b, Spawned(tasks, k, mid2), less)
  {
    hide StrictWeakOrder, Rearranged, Together;
    var left, right := Call(tasks[k].lo, tasks[k].mid), Call(mid2, tasks[k].hi);
    var rest := Spawned(tasks, k, mid2);
    RearrangeKeepsOthers(a, b, tasks, k, less);
    SpawnedAt(tasks, k, mid2);
    SpawnDisjoint(tasks, k, left, right, rest);
    forall i, j | 0 <= i < j < |b| && !Together(rest, i, j)
      ensures !less(b[j], b[i])
    {
      ApartInOrder(b, tasks, k, mid2, less, i, j);
    }
  }

  lemma SpawnDisjoint<T>(tasks: seq<Task<T>>, k: nat, left: Task<T>, right: Task<T>, rest: seq<Task<T>>)
    requires k < |tasks| && rest == tasks[..k] + [left, right] + tasks[k + 1..]
    requires forall k, l, i :: 0 <= k < l < |tasks| && InRange(tasks[k], i) ==> !InRange(tasks[l], i)
    requires forall i :: InRange(left, i) || InRange(right, i) ==> InRange(tasks[k], i)
    requires forall i :: InRange(left, i) ==> !InRange(right, i)
    ensures forall k, l, i :: 0 <= k < l < |rest| && InRange(rest[k], i) ==> !InRange(rest[l], i)
  {
    forall x, y, i | 0 <= x < y < |rest| && InRange(rest[x], i)
      ensures !InRange(rest[y], i)
    {
      var p, q := if x <= k then x else x - 1, if y <= k then y else y - 1;
      assert x != k && x != k + 1 ==> rest[x] == tasks[p];
      assert y != k && y != k + 1 ==> rest[y] == tasks[q];
      assert InRange(tasks[p], i);
    }
  }

  // ---------------------------------------------------------------- termination

  ghost function Weight<T>(t: Task<T>): nat {
    var n := if t.lo <= t.hi then t.hi - t.lo else 0;
    if t.Call? then 3 * n + 1 else 3 * n
  }

  ghost function Weights<T>(tasks: seq<Task<T>>): nat {
    if tasks == [] then 0 else Weight(tasks[0]) + Weights(tasks[1..])
  }

  lemma {:induction false} WeightsAppend<T>(s: seq<Task<T>>, t: seq<Task<T>>)
    ensures Weights(s + t) == Weights(s) + Weights(t)
  {
    if s == [] {
      assert s + t == t;
    } else {
      assert (s + t)[1..] == s[1..] + t;
      WeightsAppend(s[1..], t);
    }
  }

  lemma WeightsOne<T>(t: Task<T>)
    ensures Weights([t]) == Weight(t)
  {
    assert [t][1..] == [];
  }

  lemma NoWeight<T>()
    ensures Weights<T>([]) == 0
  {
  }

  lemma WeightsReplace<T>(tasks: seq<Task<T>>, k: nat, news: seq<Task<T>>)
    requires k < |tasks|
    ensures Weights(tasks[..k] + news + tasks[k + 1..]) == Weights(tasks) - Weight(tasks[k]) + Weights(news)
  {
    WeightsAppend(tasks[..k] + news, tasks[k + 1..]);
    WeightsAppend(tasks[..k], news);
    WeightsAppend(tasks[..k], [tasks[k]] + tasks[k + 1..]);
    WeightsAppend([tasks[k]], tasks[k + 1..]);
    assert tasks == tasks[..k] + ([tasks[k]] + tasks[k + 1..]);
    WeightsOne(tasks[k]);
  }

  // ---------------------------------------------------------------- the sort

  method WriteRange<T>(a: array<T>, lo: nat, r: seq<T>)
    requires lo + |r| <= a.Length
    modifies a
    ensures a[..] == Written(old(a[..]), lo, r)
  {
    for i := 0 to |r|
      invariant forall x :: 0 <= x < a.Length ==> a[x] == if lo <= x < lo + i then r[x - lo] else old(a[x])
    {
      a[lo + i] := r[i];
    }
  }

  /** What every step of a task keeps, and what it lowers. */
  ghost predicate Stepped<T(!new)>(a: seq<T>, tasks: seq<Task<T>>, b: seq<T>, next: seq<Task<T>>,
                                   less: (T, T) -> bool) {
    Inv(b, next, less) && multiset(b) == multiset(a) && Weights(next) < Weights(tasks)
  }

  lemma SortStep<T(!new)>(a: seq<T>, tasks: seq<Task<T>>, k: nat, less: (T, T) -> bool, r: seq<T>)
    requires Inv(a, tasks, less) && k < |tasks| && tasks[k].Call? && TaskOk(a, tasks[k], less)
    requires multiset(r) == multiset(a[tasks[k].lo..tasks[k].hi]) && |r| == tasks[k].hi - tasks[k].lo && Sorted(r, less)
    ensures Stepped(a, tasks, Written(a, tasks[k].lo, r), tasks[..k] + tasks[k + 1..], less)
  {
    hide Inv, Rearranged, Written, Weights, Sorted;
    var t := tasks[k];
    RearrangedFrom(a, t.lo, t.hi, r);
    var b := Written(a, t.lo, r);
    assert tasks[..k] + tasks[k + 1..] == tasks[..k] + [] + tasks[k + 1..];
    WeightsReplace(tasks, k, []);
    NoWeight<T>();
    FinishKeeps(a, b, tasks, k, less);
    RearrangedPermutes(a, b, t.lo, t.hi);
  }

  lemma FirstStep<T(!new)>(a: seq<T>, tasks: seq<Task<T>>, k: nat, less: (T, T) -> bool, r: seq<T>, m: nat, pivot: T)
    requires StrictWeakOrder(less) && Inv(a, tasks, less) && k < |tasks| && tasks[k].Call? && TaskOk(a, tasks[k], less)
    requires pivot in a[tasks[k].lo..tasks[k].hi]
      && IsPartition(a[tasks[k].lo..tasks[k].hi], (r, m), x => less(x, pivot))
    ensures Stepped(a, tasks, Written(a, tasks[k].lo, r),
                    tasks[k := Half(tasks[k].lo, tasks[k].hi, tasks[k].lo + m, pivot)], less)
  {
    hide Inv, Rearranged, Written, Weights, StrictWeakOrder;
    var t := tasks[k];
    RearrangedFrom(a, t.lo, t.hi, r);
    var b, half := Written(a, t.lo, r), Half(t.lo, t.hi, t.lo + m, pivot);
    PivotInUpperHalf(b, a[t.lo..t.hi], r, m, half, less);
    HalfKeeps(a, b, tasks, k, half, less);
    assert tasks[k := half] == tasks[..k] + [half] + tasks[k + 1..];
    WeightsReplace(tasks, k, [half]);
    WeightsOne(half);
    RearrangedPermutes(a, b, t.lo, t.hi);
  }

  lemma SecondStep<T(!new)>(a: seq<T>, tasks: seq<Task<T>>, k: nat, less: (T, T) -> bool, r: seq<T>, m: nat)
    requires StrictWeakOrder(less) && Inv(a, tasks, less) && k < |tasks| && tasks[k].Half? && TaskOk(a, tasks[k], less)
    requires IsPartition(a[tasks[k].mid..tasks[k].hi], (r, m), x => !less(tasks[k].pivot, x))
    ensures tasks[k].mid + m <= tasks[k].hi
    ensures Stepped(a, tasks, Written(a, tasks[k].mid, r), Spawned(tasks, k, tasks[k].mid + m), less)
  {
    hide Inv, Rearranged, Written, Weights, StrictWeakOrder, ThreeWay, Pivot;
    var t := tasks[k];
    RearrangedFrom(a, t.mid, t.hi, r);
    var b := Written(a, t.mid, r);
    MiddleIsNotEmpty(a, b, a[t.mid..t.hi], r, m, t, less);
    WiderRange(a, b, t.lo, t.mid, t.hi);
    SpawnKeeps(a, b, tasks, k, t.mid + m, less);
    var left, right := Call(t.lo, t.mid), Call(t.mid + m, t.hi);
    WeightsReplace(tasks, k, [left, right]);
    TwoWeights(left, right, t, t.mid + m);
    RearrangedPermutes(a, b, t.lo, t.hi);
  }

  /** A small call: sort the range directly. */
  method SortRange<T(!new)>(a: array<T>, tasks: seq<Task<T>>, k: nat, less: (T, T) -> bool, lib: Library<T>)
    returns (next: seq<Task<T>>)
    requires SortsPartitions(lib, less) && Inv(a[..], tasks, less) && k < |tasks| && tasks[k].Call?
    modifies a
    ensures Stepped(old(a[..]), tasks, a[..], next, less)
  {
    hide Inv, SortsPartitions, Stepped, Sorted, Written;
    var t := tasks[k];
    TaskInBounds(a[..], tasks, k, less);
    SortContract(lib, less, a[t.lo..t.hi]);
    var r := lib.sort(a[t.lo..t.hi]);
    SortStep(a[..], tasks, k, less, r);
    WriteRange(a, t.lo, r);
    next := tasks[..k] + tasks[k + 1..];
  }

  lemma TaskInBounds<T(!new)>(a: seq<T>, tasks: seq<Task<T>>, k: nat, less: (T, T) -> bool)
    requires Inv(a, tasks, less) && k < |tasks|
    ensures TaskOk(a, tasks[k], less)
  {
  }

  lemma CallInBounds<T(!new)>(a: seq<T>, tasks: seq<Task<T>>, k: nat, less: (T, T) -> bool)
    requires Inv(a, tasks, less) && k < |tasks|
    ensures tasks[k].lo <= tasks[k].hi <= |a|
  {
    TaskInBounds(a, tasks, k, less);
  }

  lemma SortContract<T(!new)>(lib: Library<T>, less: (T, T) -> bool, s: seq<T>)
    requires SortsPartitions(lib, less)
    ensures multiset(lib.sort(s)) == multiset(s) && |lib.sort(s)| == |s| && Sorted(lib.sort(s), less)
  {
  }

  lemma PartitionContract<T(!new)>(lib: Library<T>, less: (T, T) -> bool, s: seq<T>, p: T -> bool)
    requires SortsPartitions(lib, less)
    ensures IsPartition(s, lib.partition(s, p), p)
  {
  }

  lemma RearrangedPermutes<T(!new)>(a: seq<T>, b: seq<T>, lo: nat, hi: nat)
    requires Rearranged(a, b, lo, hi)
    ensures multiset(a) == multiset(b)
  {
  }

  /** The first partition of a large call, by a pivot taken from its own range. */
  method FirstPartition<T(!new)>(a: array<T>, tasks: seq<Task<T>>, k: nat, less: (T, T) -> bool, lib: Library<T>)
    returns (next: seq<Task<T>>)
    requires StrictWeakOrder(less) && SortsPartitions(lib, less) && Inv(a[..], tasks, less) && k < |tasks|
    requires tasks[k].Call? && tasks[k].hi - tasks[k].lo >= CUTOFF
    modifies a
    ensures Stepped(old(a[..]), tasks, a[..], next, less)
  {
    hide Inv, SortsPartitions, StrictWeakOrder, Stepped, Written, Pivot, IsPartition, TaskOk;
    var t := tasks[k];
    TaskInBounds(a[..], tasks, k, less);
    CallInBounds(a[..], tasks, k, less);
    var s := a[t.lo..t.hi];
    var pivot := Pivot(s, less);
    PartitionContract(lib, less, s, x => less(x, pivot));
    var (r, m) := lib.partition(s, x => less(x, pivot));
    FirstStep(a[..], tasks, k, less, r, m, pivot);
    WriteRange(a, t.lo, r);
    next := tasks[k := Half(t.lo, t.hi, t.lo + m, pivot)];
  }

  /** The pivot is an element of the range, and not below itself: the upper half is not empty. */
  lemma PivotInUpperHalf<T(!new)>(b: seq<T>, s: seq<T>, r: seq<T>, m: nat, half: Task<T>, less: (T, T) -> bool)
    requires StrictWeakOrder(less) && half.Half? && half.lo <= half.hi <= |b| && |s| == |r| == half.hi - half.lo
      && m <= |r| && half.mid == half.lo + m
    requires half.pivot in s && (forall x :: x in r <==> x in s) && b[half.lo..half.hi] == r
    requires (forall i :: 0 <= i < m ==> less(r[i], half.pivot))
      && (forall i :: m <= i < |r| ==> !less(r[i], half.pivot))
    ensures TaskOk(b, half, less)
  {
    assert half.pivot in r;
    var i :| 0 <= i < |r| && r[i] == half.pivot;
    assert !less(half.pivot, half.pivot);
    assert i >= m;
    assert forall x :: half.lo <= x < half.hi ==> b[x] == r[x - half.lo];
    assert b[half.lo + i] == half.pivot;
  }

  /** The second partition, which separates the elements equivalent to the pivot, and the two spawned calls. */
  method SecondPartition<T(!new)>(a: array<T>, tasks: seq<Task<T>>, k: nat, less: (T, T) -> bool, lib: Library<T>)
    returns (next: seq<Task<T>>)
    requires StrictWeakOrder(less) && SortsPartitions(lib, less) && Inv(a[..], tasks, less) && k < |tasks|
      && tasks[k].Half?
    modifies a
    ensures Stepped(old(a[..]), tasks, a[..], next, less)
  {
    hide Inv, SortsPartitions, StrictWeakOrder, Stepped, Written;
    var t := tasks[k];
    TaskInBounds(a[..], tasks, k, less);
    var s := a[t.mid..t.hi];
    PartitionContract(lib, less, s, x => !less(t.pivot, x));
    var (r, m) := lib.partition(s, x => !less(t.pivot, x));
    SecondStep(a[..], tasks, k, less, r, m);
    WriteRange(a, t.mid, r);
    next := Spawned(tasks, k, t.mid + m);
  }

  lemma WiderRange<T(!new)>(a: seq<T>, b: seq<T>, lo: nat, mid: nat, hi: nat)
    requires Rearranged(a, b, mid, hi) && lo <= mid
    ensures Rearranged(a, b, lo, hi)
  {
    forall i | lo <= i < hi
      ensures b[i] in a[lo..hi]
    {
      if i >= mid {
        assert b[i] in a[mid..hi];
        var x :| mid <= x < hi && a[x] == b[i];
        assert a[lo..hi][x - lo] == b[i];
      } else {
        assert a[lo..hi][i - lo] == b[i];
      }
    }
  }

  /** The pivot itself lands in the middle part. */
  lemma MiddleIsNotEmpty<T(!new)>(a: seq<T>, b: seq<T>, s: seq<T>, r: seq<T>, m: nat, t: Task<T>, less: (T, T) -> bool)
    requires StrictWeakOrder(less) && t.Half? && TaskOk(a, t, less) && s == a[t.mid..t.hi]
      && Rearranged(a, b, t.mid, t.hi) && |a| == |b|
    requires |r| == |s| && m <= |r| && b[t.mid..t.hi] == r && forall x :: x in r <==> x in s
    requires (forall i :: 0 <= i < m ==> !less(t.pivot, r[i])) && (forall i :: m <= i < |r| ==> less(t.pivot, r[i]))
    ensures m > 0 && ThreeWay(b, t, t.mid + m, less)
  {
    var x :| t.mid <= x < t.hi && a[x] == t.pivot;
    assert s[x - t.mid] == t.pivot && t.pivot in r;
    var y :| 0 <= y < |r| && r[y] == t.pivot;
    assert !less(t.pivot, t.pivot);
    assert y < m;
    assert forall i :: t.mid <= i < t.hi ==> b[i] == r[i - t.mid];
    forall i | t.mid <= i < t.hi
      ensures !less(b[i], t.pivot)
    {
      StillNotBelow(a, b[i], t, less);
    }
  }

  lemma StillNotBelow<T(!new)>(a: seq<T>, x: T, t: Task<T>, less: (T, T) -> bool)
    requires t.Half? && TaskOk(a, t, less) && x in a[t.mid..t.hi]
    ensures !less(x, t.pivot)
  {
    var z :| 0 <= z < t.hi - t.mid && a[t.mid..t.hi][z] == x;
    assert a[t.mid + z] == x;
  }

  lemma TwoWeights<T>(left: Task<T>, right: Task<T>, t: Task<T>, mid2: nat)
    requires t.Half? && t.lo <= t.mid < mid2 <= t.hi && left == Call(t.lo, t.mid) && right == Call(mid2, t.hi)
    ensures Weights([left, right]) < Weight(t)
  {
    assert [left, right][1..] == [right];
    WeightsOne(right);
  }

  /** For every strict weak order, array and interleaving of the tasks: a sorted permutation, and always an end. */
  method QuickSortOmp<T(!new)>(a: array<T>, less: (T, T) -> bool, lib: Library<T>)
    requires StrictWeakOrder(less) && SortsPartitions(lib, less)
    modifies a
    ensures Sorted(a[..], less) && multiset(a[..]) == old(multiset(a[..]))
  {
    hide StrictWeakOrder, SortsPartitions;
    var tasks: seq<Task<T>> := [Call(0, a.Length)];
    StartsOk(a[..], less);
    while |tasks| > 0
      invariant Inv(a[..], tasks, less) && multiset(a[..]) == old(multiset(a[..]))
      decreases Weights(tasks)
    {
      hide Inv;
      var k :| 0 <= k < |tasks|;
      if tasks[k].Half? {
        tasks := SecondPartition(a, tasks, k, less, lib);
      } else if tasks[k].hi - tasks[k].lo < CUTOFF {
        tasks := SortRange(a, tasks, k, less, lib);
      } else {
        tasks := FirstPartition(a, tasks, k, less, lib);
      }
    }
    assert forall i, j :: !Together(tasks, i, j);
  }

  lemma StartsOk<T(!new)>(a: seq<T>, less: (T, T) -> bool)
    ensures Inv(a, [Call(0, |a|)], less)
  {
    var tasks: seq<Task<T>> := [Call(0, |a|)];
    forall i, j | 0 <= i < j < |a|
      ensures Together(tasks, i, j)
    {
      assert InRange(tasks[0], i) && InRange(tasks[0], j);
    }
  }
}
