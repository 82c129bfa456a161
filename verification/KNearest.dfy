/** What it means for a list to hold the k nearest of a set of candidates, and the bounded
    sorted insertion by which every search of the library maintains such a list. */
module KNearest {
  import opened Collections
  import opened Geometry

  /** A candidate: squared distance and point index. */
  datatype Entry = Entry(d: real, j: int)

  /** Strict order of candidates: by distance, and with `lex` by index among equal distances. */
  predicate Before(a: Entry, b: Entry, lex: bool) {
    a.d < b.d || (lex && a.d == b.d && a.j < b.j)
  }

  ghost predicate Ascending(r: seq<Entry>, lex: bool) {
    forall a, b :: 0 <= a < b < |r| ==> !Before(r[b], r[a], lex)
  }

  ghost predicate Distinct(r: seq<Entry>) {
    forall a, b :: 0 <= a < b < |r| ==> r[a].j != r[b].j
  }

  ghost predicate Has(r: seq<Entry>, j: int) {
    exists e :: e in r && e.j == j
  }

  /** Every entry is a candidate listed at its own distance. */
  ghost predicate Drawn(r: seq<Entry>, m: map<int, real>) {
    forall e :: e in r ==> e.j in m && e.d == m[e.j]
  }

  /** `r` lists the k nearest of the candidates `m` (index to distance) in ascending order:
      all of them when there are fewer than k, and no candidate left out precedes one listed. */
  ghost predicate IsKNearest(r: seq<Entry>, m: map<int, real>, k: nat, lex: bool) {
    && Ascending(r, lex) && Distinct(r) && Drawn(r, m)
    && |r| <= k
    && (|r| < k ==> forall j :: j in m ==> Has(r, j))
    && (forall j, e :: j in m && !Has(r, j) && e in r ==> !Before(Entry(m[j], j), e, lex))
  }

  /** Where a sorted insertion puts `e`: behind every entry it does not precede. */
  function InsertAt(r: seq<Entry>, e: Entry, lex: bool): (p: nat)
    ensures p <= |r|
  {
    if |r| == 0 || !Before(e, r[|r| - 1], lex) then |r| else InsertAt(r[..|r| - 1], e, lex)
  }

  function Insert(r: seq<Entry>, e: Entry, lex: bool): (s: seq<Entry>)
    ensures |s| == |r| + 1
  {
    var p := InsertAt(r, e, lex);
    r[..p] + [e] + r[p..]
  }

  /** Bounded insertion: a full list takes a candidate only if it precedes the last entry, which it then drops. */
  function Push(r: seq<Entry>, e: Entry, k: nat, lex: bool): (s: seq<Entry>)
    requires |r| <= k && 0 < k
    ensures |s| <= k
  {
    if |r| < k then Insert(r, e, lex)
    else if Before(e, r[k - 1], lex) then Insert(r[..k - 1], e, lex)
    else r
  }

  /** Offering a candidate: distances from `far` on are rejected. */
  function Offer(r: seq<Entry>, e: Entry, k: nat, far: real): (s: seq<Entry>)
    requires |r| <= k && 0 < k
    ensures |s| <= k
  {
    if e.d < far then Push(r, e, k, false) else r
  }

  lemma {:induction false} InsertAtSplits(r: seq<Entry>, e: Entry, lex: bool)
    requires Ascending(r, lex)
    ensures var p := InsertAt(r, e, lex);
      && (forall a :: 0 <= a < p ==> !Before(e, r[a], lex))
      && (forall a :: p <= a < |r| ==> Before(e, r[a], lex))
  {
    if |r| == 0 || !Before(e, r[|r| - 1], lex) {
    } else {
      var t := r[..|r| - 1];
      assert forall a :: 0 <= a < |t| ==> t[a] == r[a];
      InsertAtSplits(t, e, lex);
    }
  }

  lemma InsertCells(r: seq<Entry>, e: Entry, lex: bool)
    ensures var s, p := Insert(r, e, lex), InsertAt(r, e, lex);
      forall a {:trigger s[a]} :: 0 <= a <= |r| ==> s[a] == if a < p then r[a] else if a == p then e else r[a - 1]
  {
  }

  lemma InsertMembers(r: seq<Entry>, e: Entry, lex: bool)
    ensures forall x :: x in Insert(r, e, lex) <==> x == e || x in r
  {
    var p := InsertAt(r, e, lex);
    assert r == r[..p] + r[p..];
  }

  /** Insertion of a new candidate: a sorted list with exactly one more index. */
  lemma InsertSorts(r: seq<Entry>, e: Entry, lex: bool)
    requires Ascending(r, lex) && Distinct(r) && !Has(r, e.j)
    ensures Ascending(Insert(r, e, lex), lex) && Distinct(Insert(r, e, lex))
  {
    InsertAtSplits(r, e, lex);
    var p := InsertAt(r, e, lex);
    InsertCells(r, e, lex);
    hide Insert, InsertAt;
  }

  /** Pushing a candidate not seen before keeps the list the k nearest of those seen. */
  lemma PushKeeps(r: seq<Entry>, m: map<int, real>, e: Entry, k: nat, lex: bool)
    requires IsKNearest(r, m, k, lex) && 0 < k && e.j !in m
    ensures IsKNearest(Push(r, e, k, lex), m[e.j := e.d], k, lex)
  {
    if |r| < k {
      InsertSorts(r, e, lex);
      InsertMembers(r, e, lex);
      var s := Insert(r, e, lex);
      assert e in s;
      forall j | j in m
        ensures Has(s, j)
      {
        var x :| x in r && x.j == j;
        assert x in s;
      }
    } else if Before(e, r[k - 1], lex) {
      PushKeepsFull(r, m, e, k, lex);
    } else {
      assert !Has(r, e.j);
    }
  }

  /** A candidate with a larger index than all listed ones goes behind its equals: offering candidates by ascending
      index, by distance alone, is offering them by (distance, index). */
  lemma LatestIsPlain(r: seq<Entry>, e: Entry, k: nat)
    requires |r| <= k && 0 < k && forall x :: x in r ==> x.j < e.j
    ensures Push(r, e, k, false) == Push(r, e, k, true)
  {
    hide InsertAt;
    LatestAt(r, e);
    if |r| == k {
      assert forall x :: x in r[..k - 1] ==> x in r;
      LatestAt(r[..k - 1], e);
    }
  }

  lemma {:induction false} LatestAt(r: seq<Entry>, e: Entry)
    requires forall x :: x in r ==> x.j < e.j
    ensures InsertAt(r, e, false) == InsertAt(r, e, true)
  {
    if |r| > 0 {
      assert r[|r| - 1] in r && forall x :: x in r[..|r| - 1] ==> x in r;
      LatestAt(r[..|r| - 1], e);
    }
  }

  lemma LastOrBefore(r: seq<Entry>, y: Entry)
    requires y in r
    ensures y in r[..|r| - 1] || y == r[|r| - 1]
  {
    assert r == r[..|r| - 1] + [r[|r| - 1]];
  }

  lemma PushKeepsFull(r: seq<Entry>, m: map<int, real>, e: Entry, k: nat, lex: bool)
    requires IsKNearest(r, m, k, lex) && |r| == k && 0 < k && e.j !in m && Before(e, r[k - 1], lex)
    ensures IsKNearest(Insert(r[..k - 1], e, lex), m[e.j := e.d], k, lex)
  {
    var t, last := r[..k - 1], r[k - 1];
    assert r == t + [last];
    InsertSorts(t, e, lex);
    InsertMembers(t, e, lex);
    var s, m' := Insert(t, e, lex), m[e.j := e.d];
    assert e in s;
    assert Has(s, e.j);
    forall j, x | j in m' && !Has(s, j) && x in s
      ensures !Before(Entry(m'[j], j), x, lex)
    {
      assert j in m && m'[j] == m[j];
      NotBeforeLast(r, m, s, j, k, lex);
      assert x == e || x in t;
    }
  }

  /** A candidate that the shortened list lacks does not precede its dropped last entry. */
  lemma NotBeforeLast(r: seq<Entry>, m: map<int, real>, s: seq<Entry>, j: int, k: nat, lex: bool)
    requires IsKNearest(r, m, k, lex) && |r| == k && 0 < k && j in m
    requires !Has(s, j) && forall y :: y in r[..k - 1] ==> y in s
    ensures !Before(Entry(m[j], j), r[k - 1], lex)
  {
    assert r[k - 1] in r;
    if Has(r, j) {
      var y :| y in r && y.j == j;
      LastOrBefore(r, y);
      assert y == r[k - 1];
    }
  }

  /** A candidate that does not precede the last entry of a full list may be skipped. */
  lemma SkipKeeps(r: seq<Entry>, m: map<int, real>, e: Entry, k: nat, lex: bool)
    requires IsKNearest(r, m, k, lex) && 0 < k && e.j !in m
    requires |r| == k && !Before(e, r[k - 1], lex)
    ensures IsKNearest(r, m[e.j := e.d], k, lex)
  {
    PushKeeps(r, m, e, k, lex);
  }

  ghost function Indices(r: seq<Entry>): set<int> {
    set e | e in r :: e.j
  }

  /** The list has min(k, |m|) entries. */
  lemma KNearestLength(r: seq<Entry>, m: map<int, real>, k: nat, lex: bool)
    requires IsKNearest(r, m, k, lex)
    ensures |r| == if k < |m| then k else |m|
  {
    IndexCount(r);
    assert |m| == |m.Keys|;
    assert Indices(r) <= m.Keys;
    SubsetCardinality(Indices(r), m.Keys);
    if |r| < k {
      forall j | j in m.Keys
        ensures j in Indices(r)
      {
        assert Has(r, j);
      }
      assert m.Keys == Indices(r);
    }
  }

  lemma {:induction false} IndexCount(r: seq<Entry>)
    requires Distinct(r)
    ensures |Indices(r)| == |r|
  {
    if |r| > 0 {
      var t, last := r[..|r| - 1], r[|r| - 1];
      IndexCount(t);
      assert r == t + [last];
      assert Indices(r) == Indices(t) + {last.j};
      assert last.j !in Indices(t);
    }
  }

  lemma LexIsPlain(r: seq<Entry>, m: map<int, real>, k: nat)
    requires IsKNearest(r, m, k, true)
    ensures IsKNearest(r, m, k, false)
  {
  }

  /** Any two lists of the k nearest agree on the distances; in the lexicographic order they are equal. */
  lemma KNearestUnique(r: seq<Entry>, s: seq<Entry>, m: map<int, real>, k: nat, lex: bool)
    requires IsKNearest(r, m, k, lex) && IsKNearest(s, m, k, lex)
    ensures |r| == |s|
    ensures forall a :: 0 <= a < |r| ==> r[a].d == s[a].d
    ensures lex ==> r == s
  {
    KNearestLength(r, m, k, lex);
    KNearestLength(s, m, k, lex);
    forall a | 0 <= a < |r|
      ensures !Before(r[a], s[a], lex) && !Before(s[a], r[a], lex)
    {
      if Before(r[a], s[a], lex) {
        NotAhead(r, s, m, k, lex, a);
      }
      if Before(s[a], r[a], lex) {
        NotAhead(s, r, m, k, lex, a);
      }
    }
  }

  lemma {:induction false} NotAhead(r: seq<Entry>, s: seq<Entry>, m: map<int, real>, k: nat, lex: bool, a: nat)
    requires IsKNearest(r, m, k, lex) && IsKNearest(s, m, k, lex)
    requires a < |r| == |s|
    ensures !Before(r[a], s[a], lex)
  {
    if Before(r[a], s[a], lex) {
      // The a + 1 leading entries of r all precede s[a], so they sit among the a leading entries of s.
      var rs, ss := r[..a + 1], s[..a];
      forall e | e in rs
        ensures e.j in Indices(ss)
      {
        assert Before(e, s[a], lex);
        assert s[a] in s;
        assert Has(s, e.j);
        var f :| f in s && f.j == e.j;
        assert f == e;
        var c :| 0 <= c < |s| && s[c] == f;
        assert c < a;
        assert s[c] in ss;
      }
      assert Indices(rs) <= Indices(ss);
      IndexCount(rs);
      IndexCount(ss);
      SubsetCardinality(Indices(rs), Indices(ss));
    }
  }

  // ---------------------------------------------------------------- counting candidates

  /** The candidates no farther than d. */
  ghost function Within(m: map<int, real>, d: real): set<int> {
    set j | j in m && m[j] <= d
  }

  /** The candidates in front of e in (distance, index) order. */
  ghost function Ahead(m: map<int, real>, e: Entry): set<int> {
    set j | j in m && Before(Entry(m[j], j), e, true)
  }

  lemma LastIsLast(r: seq<Entry>, e: Entry, lex: bool)
    requires Ascending(r, lex) && e in r
    ensures !Before(r[|r| - 1], e, lex)
  {
    var a :| 0 <= a < |r| && r[a] == e;
    assert a < |r| - 1 ==> !Before(r[|r| - 1], r[a], lex);
  }

  /** Candidates that all precede or equal the last of fewer than k listed entries are fewer than k. */
  lemma FewListed(r: seq<Entry>, listed: set<int>, k: nat)
    requires Distinct(r) && |r| < k && forall j :: j in listed ==> Has(r, j)
    ensures |listed| < k
  {
    IndexCount(r);
    forall j | j in listed
      ensures j in Indices(r)
    {
      assert Has(r, j);
    }
    SubsetCardinality(listed, Indices(r));
  }

  lemma ButLastListed(r: seq<Entry>, listed: set<int>, k: nat)
    requires Distinct(r) && |r| == k && 0 < k && forall j :: j in listed ==> Has(r, j) && j != r[k - 1].j
    ensures |listed| < k
  {
    var t := r[..k - 1];
    forall j | j in listed
      ensures Has(t, j)
    {
      var e :| e in r && e.j == j;
      LastOrBefore(r, e);
    }
    FewListed(t, listed, k);
  }

  lemma AllListed(r: seq<Entry>, within: set<int>)
    requires Distinct(r) && forall e :: e in r ==> e.j in within
    ensures |within| >= |r|
  {
    IndexCount(r);
    assert Indices(r) <= within;
    SubsetCardinality(Indices(r), within);
  }

  /** The list is full with its last distance within d exactly when at least k candidates are within d. */
  lemma KthWithin(r: seq<Entry>, m: map<int, real>, k: nat, lex: bool, d: real)
    requires IsKNearest(r, m, k, lex) && 0 < k
    ensures |r| == k && r[k - 1].d <= d <==> |Within(m, d)| >= k
  {
    if |r| < k {
      FewListed(r, Within(m, d), k);
    } else if r[k - 1].d <= d {
      forall e | e in r
        ensures e.j in Within(m, d)
      {
        LastIsLast(r, e, lex);
      }
      AllListed(r, Within(m, d));
    } else {
      forall j | j in Within(m, d)
        ensures Has(r, j) && j != r[k - 1].j
      {
        assert r[k - 1] in r;
      }
      ButLastListed(r, Within(m, d), k);
    }
  }

  /** The list is full with its last entry in front of e exactly when at least k candidates are in front of e. */
  lemma KthAhead(r: seq<Entry>, m: map<int, real>, k: nat, e: Entry)
    requires IsKNearest(r, m, k, true) && 0 < k
    ensures |r| == k && Before(r[k - 1], e, true) <==> |Ahead(m, e)| >= k
  {
    if |r| < k {
      FewListed(r, Ahead(m, e), k);
    } else if Before(r[k - 1], e, true) {
      forall x | x in r
        ensures x.j in Ahead(m, e)
      {
        LastIsLast(r, x, true);
      }
      AllListed(r, Ahead(m, e));
    } else {
      forall j | j in Ahead(m, e)
        ensures Has(r, j) && j != r[k - 1].j
      {
        assert r[k - 1] in r;
      }
      ButLastListed(r, Ahead(m, e), k);
    }
  }

  // ------------------------------------------------------------ when the k nearest of some candidates are those of all

  /** `m` holds some of the candidates of `all`. */
  ghost predicate Part(m: map<int, real>, all: map<int, real>) {
    forall j :: j in m ==> j in all && all[j] == m[j]
  }

  /** By distance: exactly when every candidate left out has k of those considered no farther than itself. */
  lemma PartSuffices(r: seq<Entry>, m: map<int, real>, all: map<int, real>, k: nat, lex: bool)
    requires IsKNearest(r, m, k, lex) && Part(m, all) && 0 < k
    ensures IsKNearest(r, all, k, false) <==> forall j :: j in all && j !in m ==> |Within(m, all[j])| >= k
  {
    forall j | j in all && j !in m
      ensures |Within(m, all[j])| >= k <==> |r| == k && r[k - 1].d <= all[j]
    {
      KthWithin(r, m, k, lex, all[j]);
    }
    if forall j :: j in all && j !in m ==> |Within(m, all[j])| >= k {
      ExtendsByDistance(r, m, all, k, lex);
    }
    if IsKNearest(r, all, k, false) {
      forall j | j in all && j !in m
        ensures |r| == k && r[k - 1].d <= all[j]
      {
        NotListed(r, m, all, k, lex, false, j);
      }
    }
  }

  lemma NotListed(r: seq<Entry>, m: map<int, real>, all: map<int, real>, k: nat, lex: bool, lex': bool, j: int)
    requires IsKNearest(r, m, k, lex) && IsKNearest(r, all, k, lex') && 0 < k && j in all && j !in m
    ensures |r| == k && !Before(Entry(all[j], j), r[k - 1], lex') && r[k - 1].j != j
  {
    assert !Has(r, j);
    assert |r| == k;
    assert r[k - 1] in r;
  }

  lemma ExtendsByDistance(r: seq<Entry>, m: map<int, real>, all: map<int, real>, k: nat, lex: bool)
    requires IsKNearest(r, m, k, lex) && Part(m, all) && 0 < k
    requires forall j :: j in all && j !in m ==> |r| == k && r[k - 1].d <= all[j]
    ensures IsKNearest(r, all, k, false)
  {
    forall j, e | j in all && !Has(r, j) && e in r
      ensures !Before(Entry(all[j], j), e, false)
    {
      if j !in m {
        LastIsLast(r, e, lex);
      }
    }
  }

  /** By (distance, index): exactly when every candidate left out has k candidates in front of it. */
  lemma PartSufficesLex(r: seq<Entry>, m: map<int, real>, all: map<int, real>, k: nat)
    requires IsKNearest(r, m, k, true) && Part(m, all) && 0 < k
    ensures IsKNearest(r, all, k, true) <==> forall j :: j in all && j !in m ==> |Ahead(all, Entry(all[j], j))| >= k
  {
    if IsKNearest(r, all, k, true) {
      forall j | j in all && j !in m
        ensures |Ahead(all, Entry(all[j], j))| >= k
      {
        NotListed(r, m, all, k, true, true, j);
        KthAhead(r, all, k, Entry(all[j], j));
      }
    }
    if forall j :: j in all && j !in m ==> |Ahead(all, Entry(all[j], j))| >= k {
      forall j | j in all && j !in m
        ensures |r| == k && Before(r[k - 1], Entry(all[j], j), true)
      {
        EnoughAhead(m, all, k, j);
        KthAhead(r, m, k, Entry(all[j], j));
      }
      ExtendsLex(r, m, all, k);
    }
  }

  /** If every candidate left out has k candidates in front of it, it has k of those considered in front of it. */
  lemma {:induction false} EnoughAhead(m: map<int, real>, all: map<int, real>, k: nat, j: int)
    requires Part(m, all) && j in all && j !in m
    requires forall i :: i in all && i !in m ==> |Ahead(all, Entry(all[i], i))| >= k
    ensures |Ahead(m, Entry(all[j], j))| >= k
    decreases |Ahead(all, Entry(all[j], j))|
  {
    var e := Entry(all[j], j);
    if i :| i in Ahead(all, e) && i !in m {
      var f := Entry(all[i], i);
      assert i !in Ahead(all, f) && Ahead(all, f) <= Ahead(all, e) - {i};
      SubsetCardinality(Ahead(all, f), Ahead(all, e) - {i});
      EnoughAhead(m, all, k, i);
      assert Ahead(m, f) <= Ahead(m, e);
      SubsetCardinality(Ahead(m, f), Ahead(m, e));
    } else {
      assert Ahead(all, e) == Ahead(m, e);
    }
  }

  lemma ExtendsLex(r: seq<Entry>, m: map<int, real>, all: map<int, real>, k: nat)
    requires IsKNearest(r, m, k, true) && Part(m, all) && 0 < k
    requires forall j :: j in all && j !in m ==> |r| == k && Before(r[k - 1], Entry(all[j], j), true)
    ensures IsKNearest(r, all, k, true)
  {
    forall j, e | j in all && !Has(r, j) && e in r
      ensures !Before(Entry(all[j], j), e, true)
    {
      if j !in m {
        LastIsLast(r, e, true);
      }
    }
  }

  // ---------------------------------------------------------------- the candidates of a cloud

  /** Distances to a query of the indexed points nearer than `far`, the largest representable distance. */
  function Distances(cloud: seq<Vec>, q: Vec, ids: set<int>, far: real): map<int, real>
    requires forall j :: j in ids ==> 0 <= j < |cloud|
  {
    map j | j in ids && SqDist(cloud[j], q) < far :: SqDist(cloud[j], q)
  }

  /** Distances to a query of the indexed points. */
  function DistanceMap(cloud: seq<Vec>, q: Vec, ids: set<int>): map<int, real>
    requires forall j :: j in ids ==> 0 <= j < |cloud|
  {
    map j | j in ids :: SqDist(q, cloud[j])
  }
}
