/** The task-parallel merge sort: a call sorts its own range, its two halves by tasks of their own, and merges them in
    place. The tasks move one step at a time under any interleaving. */
module MergeSort {
  import opened QuickSort

  /** std::inplace_merge: two sorted parts become one sorted rearrangement. */
  ghost predicate Merges<T(!new)>(merge: (seq<T>, nat) -> seq<T>, less: (T, T) -> bool) {
    forall s: seq<T>, m: nat :: m <= |s| && Sorted(s[..m], less) && Sorted(s[m..], less) ==>
      multiset(merge(s, m)) == multiset(s) && |merge(s, m)| == |s| && Sorted(merge(s, m), less)
  }

  /** b is a with [lo, hi) sorted and nothing else changed. */
  ghost predicate SortedRange<T(!new)>(a: seq<T>, b: seq<T>, lo: nat, hi: nat, less: (T, T) -> bool) {
    && |a| == |b| && lo <= hi <= |a|
    && Sorted(b[lo..hi], less) && multiset(b[lo..hi]) == multiset(a[lo..hi])
    && forall i :: 0 <= i < |a| && !(lo <= i < hi) ==> b[i] == a[i]
  }

  lemma WrittenSorts<T(!new)>(a: seq<T>, lo: nat, hi: nat, r: seq<T>, less: (T, T) -> bool)
    requires lo <= hi <= |a| && |r| == hi - lo && Sorted(r, less) && multiset(r) == multiset(a[lo..hi])
    ensures SortedRange(a, Written(a, lo, r), lo, hi, less)
  {
    assert Written(a, lo, r)[lo..hi] == r;
  }

  lemma SplitAt<T>(s: seq<T>, lo: nat, mid: nat, hi: nat)
    requires lo <= mid <= hi <= |s|
    ensures multiset(s[lo..hi]) == multiset(s[lo..mid]) + multiset(s[mid..hi])
  {
    assert s[lo..hi] == s[lo..mid] + s[mid..hi];
  }

  lemma MergeContract<T(!new)>(merge: (seq<T>, nat) -> seq<T>, less: (T, T) -> bool, s: seq<T>, m: nat)
    requires Merges(merge, less) && m <= |s| && Sorted(s[..m], less) && Sorted(s[m..], less)
    ensures multiset(merge(s, m)) == multiset(s) && |merge(s, m)| == |s| && Sorted(merge(s, m), less)
  {
  }

  lemma MergedRange<T(!new)>(c: seq<T>, lo: nat, mid: nat, hi: nat, r: seq<T>, less: (T, T) -> bool,
                             merge: (seq<T>, nat) -> seq<T>)
    requires Merges(merge, less) && lo <= mid <= hi <= |c| && r == merge(c[lo..hi], mid - lo)
    requires Sorted(c[lo..mid], less) && Sorted(c[mid..hi], less)
    ensures |r| == hi - lo && SortedRange(c, Written(c, lo, r), lo, hi, less)
  {
    hide Sorted, Written;
    var s, m := c[lo..hi], mid - lo;
    assert s[..m] == c[lo..mid] && s[m..] == c[mid..hi];
    hide Merges;
    MergeContract(merge, less, s, m);
    WrittenSorts(c, lo, hi, r, less);
  }

  // ---------------------------------------------------------------- tasks

  /** A call on [lo, hi): not yet begun, waiting for the two tasks it spawned, or finished. */
  datatype Task =
    | Pending(lo: nat, hi: nat)
    | Forked(lo: nat, hi: nat, left: Task, right: Task)
    | Finished(lo: nat, hi: nat)

  ghost predicate Shape(t: Task, n: nat) {
    && t.lo <= t.hi <= n
    && (t.Forked? ==>
          && Shape(t.left, n) && Shape(t.right, n)
          && t.left.lo == t.lo && t.right.hi == t.hi && t.left.hi == t.right.lo == t.lo + (t.hi - t.lo) / 2)
  }

  /** Which call moves next: this one, or one inside a half. */
  datatype Move = Here | InLeft(inner: Move) | InRight(inner: Move)

  /** A call begins at once; it goes on to merge when both its tasks have finished. */
  predicate Enabled(t: Task, m: Move) {
    match t
    case Pending(_, _) => m.Here?
    case Finished(_, _) => false
    case Forked(_, _, left, right) =>
      match m
      case Here => left.Finished? && right.Finished?
      case InLeft(inner) => Enabled(left, inner)
      case InRight(inner) => Enabled(right, inner)
  }

  /** No deadlock: some call of an unfinished sort can move. */
  lemma {:induction false} SomeMoveIsEnabled(t: Task) returns (m: Move)
    requires !t.Finished?
    ensures Enabled(t, m)
  {
    m := Here;
    if t.Forked? {
      if !t.left.Finished? {
        var inner := SomeMoveIsEnabled(t.left);
        m := InLeft(inner);
      } else if !t.right.Finished? {
        var inner := SomeMoveIsEnabled(t.right);
        m := InRight(inner);
      }
    }
  }

  ghost function Steps(n: nat): nat {
    if n < CUTOFF then 1 else 2 + Steps(n / 2) + Steps(n - n / 2)
  }

  /** Moves still to be made. */
  ghost function Remaining(t: Task): nat {
    match t
    case Pending(lo, hi) => Steps(if lo <= hi then hi - lo else 0)
    case Forked(_, _, left, right) => 1 + Remaining(left) + Remaining(right)
    case Finished(_, _) => 0
  }

  /** How far the array has got from what it was: an unbegun range is untouched, a finished one is sorted. */
  ghost predicate Underway<T(!new)>(t: Task, was: seq<T>, now: seq<T>, less: (T, T) -> bool)
    requires |now| == |was| && Shape(t, |was|)
  {
    match t
    case Pending(lo, hi) => now[lo..hi] == was[lo..hi]
    case Forked(_, _, left, right) => Underway(left, was, now, less) && Underway(right, was, now, less)
    case Finished(lo, hi) => Sorted(now[lo..hi], less) && multiset(now[lo..hi]) == multiset(was[lo..hi])
  }

  ghost predicate Stage<T(!new)>(t: Task, was: seq<T>, now: seq<T>, less: (T, T) -> bool) {
    |now| == |was| && Shape(t, |was|) && Underway(t, was, now, less)
  }

  /** What happens outside its range does not concern a task. */
  lemma {:induction false} StageFrame<T(!new)>(t: Task, was: seq<T>, now: seq<T>, next: seq<T>, less: (T, T) -> bool)
    requires Stage(t, was, now, less)
    requires |next| == |now| && forall i :: t.lo <= i < t.hi && i < |now| ==> next[i] == now[i]
    ensures Stage(t, was, next, less)
    decreases t
  {
    if t.Forked? {
      StageFrame(t.left, was, now, next, less);
      StageFrame(t.right, was, now, next, less);
    } else {
      assert next[t.lo..t.hi] == now[t.lo..t.hi];
    }
  }

  lemma SidesOf<T(!new)>(t: Task, was: seq<T>, now: seq<T>, less: (T, T) -> bool)
    requires Stage(t, was, now, less) && t.Forked?
    ensures Stage(t.left, was, now, less) && Stage(t.right, was, now, less)
    ensures t.lo == t.left.lo <= t.left.hi == t.right.lo <= t.right.hi == t.hi <= |now|
  {
  }

  lemma FinishedRange<T(!new)>(was: seq<T>, now: seq<T>, lo: nat, hi: nat, less: (T, T) -> bool)
    requires Stage(Finished(lo, hi), was, now, less)
    ensures lo <= hi <= |now| == |was| && Sorted(now[lo..hi], less) && multiset(now[lo..hi]) == multiset(was[lo..hi])
  {
  }

  /** When both tasks have finished, whatever the order of their moves, both halves are sorted and the range is
      rearranged. */
  lemma HalvesSorted<T(!new)>(t: Task, was: seq<T>, now: seq<T>, less: (T, T) -> bool)
    requires Stage(t, was, now, less) && t.Forked? && t.left.Finished? && t.right.Finished?
    ensures t.lo <= t.left.hi <= t.hi <= |now| == |was|
    ensures Sorted(now[t.lo..t.left.hi], less) && Sorted(now[t.left.hi..t.hi], less)
    ensures multiset(now[t.lo..t.hi]) == multiset(was[t.lo..t.hi])
  {
    hide Sorted, Stage;
    SidesOf(t, was, now, less);
    FinishedRange(was, now, t.left.lo, t.left.hi, less);
    FinishedRange(was, now, t.right.lo, t.right.hi, less);
    SplitAt(now, t.lo, t.left.hi, t.hi);
    SplitAt(was, t.lo, t.left.hi, t.hi);
  }

  /** Spawning two tasks changes nothing in the array. */
  lemma Spawn<T(!new)>(was: seq<T>, now: seq<T>, lo: nat, hi: nat, less: (T, T) -> bool) returns (t': Task)
    requires Stage(Pending(lo, hi), was, now, less) && lo + CUTOFF <= hi
    ensures var mid := lo + (hi - lo) / 2; t' == Forked(lo, hi, Pending(lo, mid), Pending(mid, hi))
    ensures Stage(t', was, now, less) && Remaining(t') < Remaining(Pending(lo, hi))
  {
    var mid := lo + (hi - lo) / 2;
    t' := Forked(lo, hi, Pending(lo, mid), Pending(mid, hi));
    assert now[lo..mid] == now[lo..hi][..mid - lo] && now[mid..hi] == now[lo..hi][mid - lo..];
    assert was[lo..mid] == was[lo..hi][..mid - lo] && was[mid..hi] == was[lo..hi][mid - lo..];
  }

  /** A step of one half is a step of the whole. */
  lemma SideMoved<T(!new)>(t: Task, t': Task, was: seq<T>, now: seq<T>, next: seq<T>, less: (T, T) -> bool)
    requires Stage(t, was, now, less) && t.Forked? && t'.Forked? && t'.lo == t.lo && t'.hi == t.hi
    requires t'.left.lo == t.left.lo && t'.left.hi == t.left.hi && t'.right.lo == t.right.lo
      && t'.right.hi == t.right.hi
    requires Stage(t'.left, was, next, less) && Stage(t'.right, was, next, less)
    requires Remaining(t'.left) + Remaining(t'.right) < Remaining(t.left) + Remaining(t.right)
    ensures Stage(t', was, next, less) && Remaining(t') < Remaining(t)
  {
  }

  lemma NowFinished<T(!new)>(t: Task, was: seq<T>, now: seq<T>, next: seq<T>, lo: nat, hi: nat, less: (T, T) -> bool)
    requires SortedRange(now, next, lo, hi, less) && |now| == |was| && multiset(now[lo..hi]) == multiset(was[lo..hi])
    ensures Stage(Finished(lo, hi), was, next, less)
    ensures |next| == |now| && forall i :: 0 <= i < |now| && !(lo <= i < hi) ==> next[i] == now[i]
    ensures !t.Finished? ==> Remaining(Finished(lo, hi)) < Remaining(t)
  {
    StepsPositive(if t.lo <= t.hi then t.hi - t.lo else 0);
  }

  lemma {:induction false} StepsPositive(n: nat)
    ensures Steps(n) > 0
  {
  }

  /** The call of a short range sorts it. */
  method SortShort<T(!new)>(a: array<T>, lo: nat, hi: nat, less: (T, T) -> bool, lib: Library<T>)
    requires lo <= hi <= a.Length && SortsPartitions(lib, less)
    modifies a
    ensures SortedRange(old(a[..]), a[..], lo, hi, less)
  {
    hide SortsPartitions, Sorted, Written, SortedRange;
    SortContract(lib, less, a[lo..hi]);
    var r := lib.sort(a[lo..hi]);
    assert a[..][lo..hi] == a[lo..hi];
    WrittenSorts(a[..], lo, hi, r, less);
    WriteRange(a, lo, r);
  }

  /** Two sorted halves are merged in place. */
  method MergeHalves<T(!new)>(a: array<T>, lo: nat, mid: nat, hi: nat, less: (T, T) -> bool,
                              merge: (seq<T>, nat) -> seq<T>)
    requires lo <= mid <= hi <= a.Length && Merges(merge, less)
    requires Sorted(a[..][lo..mid], less) && Sorted(a[..][mid..hi], less)
    modifies a
    ensures SortedRange(old(a[..]), a[..], lo, hi, less)
  {
    hide Merges, Sorted, Written, SortedRange;
    assert a[..][lo..hi] == a[lo..hi];
    var r := merge(a[lo..hi], mid - lo);
    MergedRange(a[..], lo, mid, hi, r, less, merge);
    WriteRange(a, lo, r);
  }

  /** One step of one task: a short range is sorted, a long one spawns two tasks, and two finished halves are merged. */
  method Advance<T(!new)>(a: array<T>, t: Task, m: Move, less: (T, T) -> bool, lib: Library<T>,
                          merge: (seq<T>, nat) -> seq<T>,
                          ghost was: seq<T>)
    returns (t': Task)
    requires Stage(t, was, a[..], less) && Enabled(t, m) && SortsPartitions(lib, less) && Merges(merge, less)
    modifies a
    ensures t'.lo == t.lo && t'.hi == t.hi && Stage(t', was, a[..], less) && Remaining(t') < Remaining(t)
    ensures forall i :: 0 <= i < a.Length && !(t.lo <= i < t.hi) ==> a[i] == old(a[i])
    decreases t
  {
    hide SortsPartitions, Merges, Sorted, SortedRange, Stage, Remaining;
    ghost var now := a[..];
    match t
    case Pending(lo, hi) =>
      PendingRange(was, now, lo, hi, less);
      if hi - lo < CUTOFF {
        SortShort(a, lo, hi, less, lib);
        NowFinished(t, was, now, a[..], lo, hi, less);
        t' := Finished(lo, hi);
      } else {
        var center := lo + (hi - lo) / 2;
        t' := Forked(lo, hi, Pending(lo, center), Pending(center, hi));
        ghost var spawned := Spawn(was, now, lo, hi, less);
      }
    case Forked(lo, hi, left, right) =>
      SidesOf(t, was, now, less);
      match m
      case Here =>
        HalvesSorted(t, was, now, less);
        MergeHalves(a, lo, left.hi, hi, less, merge);
        NowFinished(t, was, now, a[..], lo, hi, less);
        t' := Finished(lo, hi);
      case InLeft(inner) =>
        var left' := Advance(a, left, inner, less, lib, merge, was);
        t' := Forked(lo, hi, left', right);
        StageFrame(right, was, now, a[..], less);
        SideMoved(t, t', was, now, a[..], less);
      case InRight(inner) =>
        var right' := Advance(a, right, inner, less, lib, merge, was);
        t' := Forked(lo, hi, left, right');
        StageFrame(left, was, now, a[..], less);
        SideMoved(t, t', was, now, a[..], less);
  }

  lemma PendingRange<T(!new)>(was: seq<T>, now: seq<T>, lo: nat, hi: nat, less: (T, T) -> bool)
    requires Stage(Pending(lo, hi), was, now, less)
    ensures lo <= hi <= |now| == |was| && now[lo..hi] == was[lo..hi]
  {
  }

  /** Sorts [lo, hi): an arbitrary enabled task moves until the whole call has finished. */
  method MergeSortOmp<T(!new)>(a: array<T>, lo: nat, hi: nat, less: (T, T) -> bool, lib: Library<T>,
                               merge: (seq<T>, nat) -> seq<T>)
    requires lo <= hi <= a.Length && SortsPartitions(lib, less) && Merges(merge, less)
    modifies a
    ensures SortedRange(old(a[..]), a[..], lo, hi, less)
  {
    hide SortsPartitions, Merges, Sorted;
    var t := Pending(lo, hi);
    while !t.Finished?
      invariant t.lo == lo && t.hi == hi && Stage(t, old(a[..]), a[..], less)
      invariant forall i :: 0 <= i < a.Length && !(lo <= i < hi) ==> a[i] == old(a[i])
      decreases Remaining(t)
    {
      ghost var some := SomeMoveIsEnabled(t);
      var m: Move :| Enabled(t, m);
      t := Advance(a, t, m, less, lib, merge, old(a[..]));
    }
  }
}
