/** Stable sorting by a numeric key: the definition, its uniqueness, and how one bucket pass refines an earlier sort. */
module StableSort {
  import opened Arithmetic

  /** The elements with key v, in order. */
  function Filter<T>(s: seq<T>, f: T -> nat, v: nat): seq<T> {
    if |s| == 0 then []
    else
      var t, x := Filter(s[..|s| - 1], f, v), s[|s| - 1];
      if f(x) == v then t + [x] else t
  }

  function Count<T>(s: seq<T>, f: T -> nat, v: nat): nat {
    |Filter(s, f, v)|
  }

  ghost predicate Ascending<T>(s: seq<T>, f: T -> nat) {
    forall i, j :: 0 <= i < j < |s| ==> f(s[i]) <= f(s[j])
  }

  /** t is s in ascending key order with equal keys in their order in s. */
  ghost predicate IsStableSort<T>(s: seq<T>, t: seq<T>, f: T -> nat) {
    Ascending(t, f) && forall v :: Filter(t, f, v) == Filter(s, f, v)
  }

  // ---------------------------------------------------------------- filters

  lemma {:induction false} FilterAppend<T>(a: seq<T>, b: seq<T>, f: T -> nat, v: nat)
    ensures Filter(a + b, f, v) == Filter(a, f, v) + Filter(b, f, v)
    decreases |b|
  {
    if |b| == 0 {
      assert a + b == a;
    } else {
      assert (a + b)[..|a + b| - 1] == a + b[..|b| - 1];
      FilterAppend(a, b[..|b| - 1], f, v);
    }
  }

  lemma {:induction false} FilterMembers<T>(s: seq<T>, f: T -> nat, v: nat)
    ensures forall x :: x in Filter(s, f, v) ==> x in s && f(x) == v
  {
    if |s| > 0 {
      FilterMembers(s[..|s| - 1], f, v);
    }
  }

  /** The i-th element is found in its filter behind as many as precede it. */
  lemma {:induction false} FilterAt<T>(s: seq<T>, f: T -> nat, i: nat)
    requires i < |s|
    ensures Count(s[..i], f, f(s[i])) < Count(s, f, f(s[i]))
    ensures Filter(s, f, f(s[i]))[Count(s[..i], f, f(s[i]))] == s[i]
    decreases |s|
  {
    var t := s[..|s| - 1];
    if i < |t| {
      FilterAt(t, f, i);
      assert t[..i] == s[..i];
    }
  }

  lemma {:induction false} CountMonotone<T>(s: seq<T>, f: T -> nat, v: nat, i: nat, j: nat)
    requires i <= j <= |s|
    ensures Count(s[..i], f, v) <= Count(s[..j], f, v)
  {
    assert s[..j] == s[..i] + s[i..j];
    FilterAppend(s[..i], s[i..j], f, v);
  }

  lemma CountStep<T>(s: seq<T>, f: T -> nat, v: nat, i: nat)
    requires i < |s|
    ensures Count(s[..i + 1], f, v) == Count(s[..i], f, v) + if f(s[i]) == v then 1 else 0
  {
    assert s[..i + 1][..i] == s[..i];
  }

  /** Every cell of a filter comes from some element. */
  lemma {:induction false} FilterOnto<T>(s: seq<T>, f: T -> nat, v: nat, r: nat) returns (i: nat)
    requires r < Count(s, f, v)
    ensures i < |s| && f(s[i]) == v && Count(s[..i], f, v) == r
    decreases |s|
  {
    var n := |s| - 1;
    if r < Count(s[..n], f, v) {
      i := FilterOnto(s[..n], f, v, r);
      assert s[..n][..i] == s[..i];
    } else {
      i := n;
    }
  }

  /** Filtering by two keys in turn is filtering by their combination. */
  lemma {:induction false} FilterTwice<T(!new)>(s: seq<T>, d: T -> nat, dv: nat, f: T -> nat, fv: nat, g: T -> nat,
                                                v: nat)
    requires forall x :: g(x) == v <==> d(x) == dv && f(x) == fv
    ensures Filter(Filter(s, d, dv), f, fv) == Filter(s, g, v)
  {
    if |s| > 0 {
      var t, x := s[..|s| - 1], s[|s| - 1];
      FilterTwice(t, d, dv, f, fv, g, v);
      var u := Filter(t, d, dv);
      assert (u + [x])[..|u + [x]| - 1] == u;
    }
  }

  /** Equal keys stay in ascending order of a second key under filtering. */
  lemma {:induction false} FilterAscending<T>(s: seq<T>, f: T -> nat, d: T -> nat, b: nat)
    requires Ascending(s, f)
    ensures Ascending(Filter(s, d, b), f)
  {
    if |s| > 0 {
      var t := s[..|s| - 1];
      FilterAscending(t, f, d, b);
      FilterMembers(t, d, b);
      var u := Filter(t, d, b);
      forall i | 0 <= i < |u|
        ensures f(u[i]) <= f(s[|s| - 1])
      {
        assert u[i] in u && u[i] in t;
      }
    }
  }

  // ---------------------------------------------------------------- a stable sort is a permutation, and unique

  lemma {:induction false} FilterOccurrences<T>(s: seq<T>, f: T -> nat, x: T)
    ensures multiset(Filter(s, f, f(x)))[x] == multiset(s)[x]
  {
    if |s| > 0 {
      FilterOccurrences(s[..|s| - 1], f, x);
      assert s == s[..|s| - 1] + [s[|s| - 1]];
    }
  }

  lemma StableSortPermutes<T(!new)>(s: seq<T>, t: seq<T>, f: T -> nat)
    requires IsStableSort(s, t, f)
    ensures multiset(s) == multiset(t) && |s| == |t|
  {
    forall x: T
      ensures multiset(s)[x] == multiset(t)[x]
    {
      FilterOccurrences(s, f, x);
      FilterOccurrences(t, f, x);
    }
    assert |s| == |multiset(s)| && |t| == |multiset(t)|;
  }

  /** There is only one stable sort. */
  lemma {:induction false} StableSortUnique<T(!new)>(s: seq<T>, t: seq<T>, u: seq<T>, f: T -> nat)
    requires IsStableSort(s, t, f) && IsStableSort(s, u, f)
    ensures t == u
  {
    StableSortPermutes(s, t, f);
    StableSortPermutes(s, u, f);
    AscendingUnique(t, u, f);
  }

  lemma {:induction false} AscendingUnique<T(!new)>(t: seq<T>, u: seq<T>, f: T -> nat)
    requires Ascending(t, f) && Ascending(u, f) && |t| == |u| && forall v :: Filter(t, f, v) == Filter(u, f, v)
    ensures t == u
    decreases |t|
  {
    if |t| > 0 {
      var n := |t| - 1;
      LastKeyAtMost(t, u, f);
      LastKeyAtMost(u, t, f);
      var k := f(t[n]);
      assert Filter(t, f, k)[Count(t, f, k) - 1] == t[n];
      assert Filter(u, f, k)[Count(u, f, k) - 1] == u[n];
      forall v
        ensures Filter(t[..n], f, v) == Filter(u[..n], f, v)
      {
        assert Filter(t, f, v) == Filter(u, f, v);
        if v == k {
          assert Filter(t[..n], f, v) == Filter(t, f, v)[..Count(t, f, v) - 1];
          assert Filter(u[..n], f, v) == Filter(u, f, v)[..Count(u, f, v) - 1];
        }
      }
      AscendingUnique(t[..n], u[..n], f);
      assert t == t[..n] + [t[n]] && u == u[..n] + [u[n]];
    }
  }

  lemma LastKeyAtMost<T(!new)>(t: seq<T>, u: seq<T>, f: T -> nat)
    requires |t| == |u| > 0 && Ascending(u, f) && forall v :: Filter(t, f, v) == Filter(u, f, v)
    ensures f(t[|t| - 1]) <= f(u[|u| - 1])
  {
    var k := f(t[|t| - 1]);
    FilterAt(t, f, |t| - 1);
    FilterMembers(u, f, k);
    assert Filter(u, f, k) == Filter(t, f, k);
    var x := Filter(u, f, k)[0];
    assert x in Filter(u, f, k);
    var i :| 0 <= i < |u| && u[i] == x;
  }

  // ---------------------------------------------------------------- one bucket pass

  /** The first n buckets, one behind the other. */
  function Buckets<T>(s: seq<T>, d: T -> nat, n: nat): seq<T> {
    if n == 0 then [] else Buckets(s, d, n - 1) + Filter(s, d, n - 1)
  }

  /** Where a pass puts element i: behind all smaller digits and behind the equal ones before it. */
  function Dest<T>(s: seq<T>, d: T -> nat, i: nat): nat
    requires i < |s|
  {
    |Buckets(s, d, d(s[i]))| + Count(s[..i], d, d(s[i]))
  }

  lemma {:induction false} BucketsGrow<T>(s: seq<T>, d: T -> nat, m: nat, n: nat)
    requires m <= n
    ensures Buckets(s, d, m) <= Buckets(s, d, n)
    decreases n
  {
    if m < n {
      BucketsGrow(s, d, m, n - 1);
    }
  }

  /** The pass holds element i at its destination. */
  lemma BucketsAt<T>(s: seq<T>, d: T -> nat, n: nat, i: nat)
    requires i < |s| && d(s[i]) < n
    ensures Dest(s, d, i) < |Buckets(s, d, n)| && Buckets(s, d, n)[Dest(s, d, i)] == s[i]
  {
    var b := d(s[i]);
    FilterAt(s, d, i);
    BucketsGrow(s, d, b + 1, n);
    assert Buckets(s, d, b + 1) == Buckets(s, d, b) + Filter(s, d, b);
  }

  /** Every position of the pass is the destination of some element. */
  lemma {:induction false} DestOnto<T>(s: seq<T>, d: T -> nat, n: nat, p: nat) returns (i: nat)
    requires p < |Buckets(s, d, n)|
    ensures i < |s| && d(s[i]) < n && Dest(s, d, i) == p
    decreases n
  {
    if p < |Buckets(s, d, n - 1)| {
      i := DestOnto(s, d, n - 1, p);
    } else {
      i := FilterOnto(s, d, n - 1, p - |Buckets(s, d, n - 1)|);
    }
  }

  /** Different elements have different destinations. */
  lemma DestInjective<T>(s: seq<T>, d: T -> nat, i: nat, j: nat)
    requires i < j < |s|
    ensures Dest(s, d, i) != Dest(s, d, j)
  {
    var b, c := d(s[i]), d(s[j]);
    FilterAt(s, d, i);
    FilterAt(s, d, j);
    if b < c {
      BucketsGrow(s, d, b + 1, c);
    } else if c < b {
      BucketsGrow(s, d, c + 1, b);
    } else {
      CountStep(s, d, b, i);
      CountMonotone(s, d, b, i + 1, j);
    }
  }

  lemma {:induction false} BucketsLength<T>(s: seq<T>, d: T -> nat, n: nat)
    requires forall i :: 0 <= i < |s| ==> d(s[i]) < n
    ensures |Buckets(s, d, n)| == |s|
    decreases |s|
  {
    if |s| == 0 {
      BucketsEmpty(d, s, n);
    } else {
      var t := s[..|s| - 1];
      BucketsLength(t, d, n);
      BucketsLengthStep(s, d, n);
    }
  }

  lemma {:induction false} BucketsEmpty<T>(d: T -> nat, s: seq<T>, n: nat)
    requires |s| == 0
    ensures |Buckets(s, d, n)| == 0
  {
    if n > 0 {
      BucketsEmpty(d, s, n - 1);
    }
  }

  lemma {:induction false} BucketsLengthStep<T>(s: seq<T>, d: T -> nat, n: nat)
    requires |s| > 0
    ensures |Buckets(s, d, n)| == |Buckets(s[..|s| - 1], d, n)| + if d(s[|s| - 1]) < n then 1 else 0
    decreases n
  {
    if n > 0 {
      BucketsLengthStep(s, d, n - 1);
    }
  }

  /** A bucket of the pass is the bucket of its input. */
  lemma {:induction false} BucketsFilter<T>(s: seq<T>, d: T -> nat, n: nat, b: nat)
    ensures Filter(Buckets(s, d, n), d, b) == if b < n then Filter(s, d, b) else []
    decreases n
  {
    if n > 0 {
      BucketsFilter(s, d, n - 1, b);
      FilterAppend(Buckets(s, d, n - 1), Filter(s, d, n - 1), d, b);
      FilterFilter(s, d, n - 1, b);
    }
  }

  lemma {:induction false} FilterFilter<T>(s: seq<T>, d: T -> nat, b: nat, c: nat)
    ensures Filter(Filter(s, d, b), d, c) == if b == c then Filter(s, d, b) else []
  {
    if |s| > 0 {
      var t, x := s[..|s| - 1], s[|s| - 1];
      FilterFilter(t, d, b, c);
      var u := Filter(t, d, b);
      assert (u + [x])[..|u + [x]| - 1] == u;
    }
  }

  lemma {:induction false} BucketsAscending<T>(s: seq<T>, d: T -> nat, n: nat)
    ensures Ascending(Buckets(s, d, n), d) && forall x :: x in Buckets(s, d, n) ==> d(x) < n
    decreases n
  {
    if n > 0 {
      BucketsAscending(s, d, n - 1);
      FilterMembers(s, d, n - 1);
      var u, w := Buckets(s, d, n - 1), Filter(s, d, n - 1);
      assert forall i :: 0 <= i < |u| ==> u[i] in u;
      assert forall i :: 0 <= i < |w| ==> w[i] in w;
    }
  }

  /** Sorting stably by a more significant digit refines a stable sort by the less significant rest. */
  lemma PassRefines<T(!new)>(s: seq<T>, t: seq<T>, d: T -> nat, n: nat, f: T -> nat, g: T -> nat, unit: nat)
    requires IsStableSort(s, t, f)
    requires unit > 0 && forall x :: f(x) < unit && d(x) < n && g(x) == d(x) * unit + f(x)
    ensures IsStableSort(s, Buckets(t, d, n), g)
  {
    var u := Buckets(t, d, n);
    forall v
      ensures Filter(u, g, v) == Filter(s, g, v)
    {
      PassFilters(s, t, d, n, f, g, unit, v);
    }
    BucketsAscending(t, d, n);
    forall i, j | 0 <= i < j < |u|
      ensures g(u[i]) <= g(u[j])
    {
      var di, dj := d(u[i]), d(u[j]);
      if di == dj {
        BucketsFilter(t, d, n, di);
        FilterAscending(t, f, d, di);
        assert u[i] in u;
        EqualDigitsAscend(u, d, f, i, j);
      } else {
        DigitDominates(di, dj, unit, f(u[i]), f(u[j]));
      }
    }
  }

  lemma DigitDominates(a: nat, b: nat, unit: nat, x: nat, y: nat)
    requires a < b && x < unit
    ensures a * unit + x <= b * unit + y
  {
    assert (b - a) * unit >= unit by {
      assert (b - a - 1) * unit >= 0;
    }
  }

  lemma EqualDigitsAscend<T>(u: seq<T>, d: T -> nat, f: T -> nat, i: nat, j: nat)
    requires i < j < |u| && d(u[i]) == d(u[j]) && Ascending(Filter(u, d, d(u[i])), f)
    ensures f(u[i]) <= f(u[j])
  {
    FilterAt(u, d, i);
    FilterAt(u, d, j);
    CountStep(u, d, d(u[i]), i);
    CountMonotone(u, d, d(u[i]), i + 1, j);
  }

  lemma PassFilters<T(!new)>(s: seq<T>, t: seq<T>, d: T -> nat, n: nat, f: T -> nat, g: T -> nat, unit: nat, v: nat)
    requires IsStableSort(s, t, f)
    requires unit > 0 && forall x :: f(x) < unit && d(x) < n && g(x) == d(x) * unit + f(x)
    ensures Filter(Buckets(t, d, n), g, v) == Filter(s, g, v)
  {
    hide Buckets, Filter, Ascending;
    var dv, fv := v / unit, v % unit;
    forall x
      ensures g(x) == v <==> d(x) == dv && f(x) == fv
    {
      DigitsOf(d(x), f(x), unit, v);
    }
    var u := Buckets(t, d, n);
    FilterTwice(u, d, dv, f, fv, g, v);
    BucketsFilter(t, d, n, dv);
    if dv < n {
      FilterTwice(t, f, fv, d, dv, g, v);
      FilterTwice(t, d, dv, f, fv, g, v);
      FilterTwice(s, f, fv, d, dv, g, v);
      assert Filter(t, f, fv) == Filter(s, f, fv);
    } else {
      NoneThere(s, g, v);
      assert Filter(u, d, dv) == [];
      NoneThere([], f, fv);
    }
  }

  lemma {:induction false} NoneThere<T>(s: seq<T>, g: T -> nat, v: nat)
    requires forall i :: 0 <= i < |s| ==> g(s[i]) != v
    ensures Filter(s, g, v) == []
  {
    if |s| > 0 {
      NoneThere(s[..|s| - 1], g, v);
    }
  }

  lemma DigitsOf(a: nat, x: nat, unit: nat, v: nat)
    requires x < unit
    ensures a * unit + x == v <==> a == v / unit && x == v % unit
  {
    var q, r := v / unit, v % unit;
    assert v == q * unit + r;
    if a * unit + x == v {
      QuotientUnique(q, r, a, x, unit);
    }
  }
}
