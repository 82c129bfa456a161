/** The kd-tree: its stored form, its reference construction, the sequential in-place builder
    and the pruned nearest-neighbour search. */
module KdTree {
  import opened Collections
  import opened Geometry
  import opened KNearest
  import opened KnnResult

  /** A stored node. A leaf covers positions [first, last) of the index array. */
  datatype Node =
    | LeafNode(first: nat, last: nat)
    | SplitNode(axis: nat, thresh: real, left: nat, right: nat)

  /** The tree that stored nodes denote. A leaf carries its first position and the point indices it covers. */
  datatype Tree =
    | Leaf(first: nat, ids: seq<int>)
    | Split(axis: nat, thresh: real, left: Tree, right: Tree)

  function Ids(t: Tree): seq<int> {
    match t
    case Leaf(_, ids) => ids
    case Split(_, _, l, r) => Ids(l) + Ids(r)
  }

  function NodeCount(t: Tree): (n: nat)
    ensures n >= 1
  {
    match t
    case Leaf(_, _) => 1
    case Split(_, _, l, r) => 1 + NodeCount(l) + NodeCount(r)
  }

  /** Leaves cover consecutive positions from `first` on. */
  ghost predicate Consecutive(t: Tree, first: nat) {
    match t
    case Leaf(f, _) => f == first
    case Split(_, _, l, r) => Consecutive(l, first) && Consecutive(r, first + |Ids(l)|)
  }

  ghost predicate InCloud(ids: seq<int>, cloud: seq<Vec>) {
    forall j :: j in ids ==> 0 <= j < |cloud|
  }

  lemma InCloudAt(ids: seq<int>, cloud: seq<Vec>)
    requires InCloud(ids, cloud)
    ensures forall i :: 0 <= i < |ids| ==> 0 <= ids[i] < |cloud|
  {
    forall i | 0 <= i < |ids|
      ensures 0 <= ids[i] < |cloud|
    {
      assert ids[i] in ids;
    }
  }

  lemma InCloudSlice(ids: seq<int>, cloud: seq<Vec>, lo: nat, hi: nat)
    requires InCloud(ids, cloud) && lo <= hi <= |ids|
    ensures InCloud(ids[lo..hi], cloud)
  {
    InCloudAt(ids, cloud);
  }

  /** Every split separates its two sides by its threshold along its axis. */
  ghost predicate Separated(t: Tree, cloud: seq<Vec>)
    requires InCloud(Ids(t), cloud)
  {
    match t
    case Leaf(_, _) => true
    case Split(axis, thresh, l, r) =>
      assert forall j :: j in Ids(l) || j in Ids(r) ==> j in Ids(t);
      && (forall j :: j in Ids(l) ==> Coord(cloud[j], axis) <= thresh)
      && (forall j :: j in Ids(r) ==> Coord(cloud[j], axis) >= thresh)
      && Separated(l, cloud) && Separated(r, cloud)
  }

  /** Positions from `first` on hold `s`. */
  ghost predicate Holds(indices: seq<int>, first: nat, s: seq<int>) {
    first + |s| <= |indices| && forall i :: 0 <= i < |s| ==> indices[first + i] == s[i]
  }

  /** Node `at` of the stored form, among the first `count` nodes, denotes `t`; children are stored behind their
      parents. */
  ghost predicate Represents(t: Tree, nodes: seq<Node>, count: nat, indices: seq<int>, at: nat) {
    && at < count <= |nodes|
    && match t
       case Leaf(first, ids) =>
         nodes[at] == LeafNode(first, first + |ids|) && Holds(indices, first, ids)
       case Split(axis, thresh, l, r) =>
         && nodes[at].SplitNode? && nodes[at].axis == axis && nodes[at].thresh == thresh
         && at < nodes[at].left && at < nodes[at].right
         && Represents(l, nodes, count, indices, nodes[at].left)
         && Represents(r, nodes, count, indices, nodes[at].right)
  }

  ghost predicate DistinctIds(s: seq<int>) {
    forall a, b :: 0 <= a < b < |s| ==> s[a] != s[b]
  }

  lemma DistinctParts(l: seq<int>, r: seq<int>)
    requires DistinctIds(l + r)
    ensures DistinctIds(l) && DistinctIds(r) && forall j :: j in l ==> j !in r
  {
    var s := l + r;
    assert forall a :: 0 <= a < |l| ==> s[a] == l[a];
    assert forall a :: 0 <= a < |r| ==> s[|l| + a] == r[a];
    forall a, b | 0 <= a < |l| && 0 <= b < |r|
      ensures l[a] != r[b]
    {
      assert s[a] != s[|l| + b];
    }
  }

  ghost function Elems(s: seq<int>): set<int> {
    set j | j in s
  }

  ghost function IdSet(t: Tree): set<int> {
    Elems(Ids(t))
  }

  lemma ElemsStep(seen: set<int>, ids: seq<int>, i: nat)
    requires i <= |ids|
    ensures seen + Elems(ids[..0]) == seen
    ensures i < |ids| ==> seen + Elems(ids[..i + 1]) == seen + Elems(ids[..i]) + {ids[i]}
  {
    if i < |ids| {
      assert ids[..i + 1] == ids[..i] + [ids[i]];
      assert Elems(ids[..i + 1]) == Elems(ids[..i]) + {ids[i]};
    }
  }

  lemma NewPoint(seen: set<int>, ids: seq<int>, i: nat, cloud: seq<Vec>)
    requires i < |ids| && DistinctIds(ids) && InCloud(ids, cloud) && forall j :: j in ids ==> j !in seen
    ensures 0 <= ids[i] < |cloud| && ids[i] !in seen + Elems(ids[..i])
  {
    assert ids[i] in ids;
  }

  // ---------------------------------------------------------------- search

  /** Seeing one more point extends the candidates exactly when it is nearer than `far`. */
  lemma DistancesExtend(cloud: seq<Vec>, q: Vec, ids: set<int>, j: int, far: real)
    requires 0 <= j < |cloud| && forall i :: i in ids ==> 0 <= i < |cloud|
    ensures Distances(cloud, q, ids + {j}, far) ==
      if SqDist(cloud[j], q) < far then Distances(cloud, q, ids, far)[j := SqDist(cloud[j], q)]
      else Distances(cloud, q, ids, far)
  {
  }

  /** The state of a search that has seen the points `seen`. */
  ghost predicate Searched(result: KnnResult, cloud: seq<Vec>, q: Vec, seen: set<int>)
    reads result, result.indices, result.distances
  {
    && result.Valid()
    && (forall j :: j in seen ==> 0 <= j < |cloud|)
    && IsKNearest(result.entries, Distances(cloud, q, seen, result.far), result.k, false)
  }

  /** Points no nearer than the worst distance held would all be rejected: skipping them loses nothing. */
  lemma {:induction false} PrunedPointsAreRejected(r: seq<Entry>, k: nat, far: real, cloud: seq<Vec>, q: Vec,
                                                   seen: set<int>, ids: seq<int>)
    requires 0 < k && forall j :: j in seen ==> 0 <= j < |cloud|
    requires IsKNearest(r, Distances(cloud, q, seen, far), k, false)
    requires InCloud(ids, cloud) && (forall j :: j in ids ==> j !in seen)
    requires DistinctIds(ids)
    requires forall j :: j in ids ==> SqDist(cloud[j], q) >= if |r| == k then r[k - 1].d else far
    ensures IsKNearest(r, Distances(cloud, q, seen + Elems(ids), far), k, false)
    decreases |ids|
  {
    if |ids| == 0 {
      assert seen + Elems(ids) == seen;
    } else {
      var j, rest := ids[0], ids[1..];
      assert j in ids && forall i :: i in rest ==> i in ids;
      DistancesExtend(cloud, q, seen, j, far);
      if SqDist(cloud[j], q) < far {
        SkipKeeps(r, Distances(cloud, q, seen, far), Entry(SqDist(cloud[j], q), j), k, false);
      }
      PrunedPointsAreRejected(r, k, far, cloud, q, seen + {j}, rest);
      assert seen + Elems(ids) == (seen + {j}) + Elems(rest);
    }
  }

  /** A plane farther away than the worst distance hides only points that are farther still. */
  lemma BehindPlane(cloud: seq<Vec>, q: Vec, onLeft: bool, axis: nat, thresh: real, j: int)
    requires 0 <= j < |cloud|
    requires if onLeft then Coord(q, axis) < thresh <= Coord(cloud[j], axis)
      else Coord(cloud[j], axis) <= thresh <= Coord(q, axis)
    ensures Square(Coord(q, axis) - thresh) <= SqDist(cloud[j], q)
  {
    var diff := Coord(q, axis) - thresh;
    var gap := Coord(cloud[j], axis) - Coord(q, axis);
    SquareMonotone(diff, gap);
    AxisGapBoundsDistance(cloud[j], q, axis);
  }

  // ---------------------------------------------------------------- the search without pruning

  ghost function DistanceTo(cloud: seq<Vec>, q: Vec, j: int): real {
    if 0 <= j < |cloud| then SqDist(cloud[j], q) else 0.0
  }

  /** Offering the listed points in order. */
  ghost function ScanIds(cloud: seq<Vec>, q: Vec, ids: seq<int>, r: seq<Entry>, k: nat, far: real): (s: seq<Entry>)
    requires |r| <= k && 0 < k
    ensures |s| <= k
  {
    if |ids| == 0 then r
    else
      var j := ids[|ids| - 1];
      Offer(ScanIds(cloud, q, ids[..|ids| - 1], r, k, far), Entry(DistanceTo(cloud, q, j), j), k, far)
  }

  ghost function Worst(r: seq<Entry>, k: nat, far: real): real
    requires 0 < k
  {
    if |r| == k then r[k - 1].d else far
  }

  /** Every leaf is scanned, those of the query's side of a split first, until the worst distance is below epsilon. */
  ghost function PlainScan(t: Tree, cloud: seq<Vec>, q: Vec, r: seq<Entry>, k: nat, far: real,
                           epsilon: real): (s: (seq<Entry>, bool))
    requires |r| <= k && 0 < k
    ensures |s.0| <= k
  {
    match t
    case Leaf(_, ids) =>
      var s := ScanIds(cloud, q, ids, r, k, far);
      (s, Worst(s, k, far) >= epsilon)
    case Split(axis, thresh, left, right) =>
      var onLeft := Coord(q, axis) < thresh;
      var s := PlainScan(if onLeft then left else right, cloud, q, r, k, far, epsilon);
      if s.1 then PlainScan(if onLeft then right else left, cloud, q, s.0, k, far, epsilon) else s
  }

  lemma {:induction false} RejectedIds(cloud: seq<Vec>, q: Vec, ids: seq<int>, r: seq<Entry>, k: nat, far: real)
    requires |r| <= k && 0 < k && forall j :: j in ids ==> DistanceTo(cloud, q, j) >= Worst(r, k, far)
    ensures ScanIds(cloud, q, ids, r, k, far) == r
  {
    hide SqDist;
    if |ids| > 0 {
      var j, rest := ids[|ids| - 1], ids[..|ids| - 1];
      assert j in ids && forall i :: i in rest ==> i in ids;
      RejectedIds(cloud, q, rest, r, k, far);
    }
  }

  /** Scanning a subtree whose points are no nearer than the worst distance changes nothing, so pruning it does not
      either. */
  lemma {:induction false} PruningChangesNothing(t: Tree, cloud: seq<Vec>, q: Vec, r: seq<Entry>, k: nat, far: real,
                                                 epsilon: real)
    requires |r| <= k && 0 < k && Worst(r, k, far) >= epsilon
    requires forall j :: j in Ids(t) ==> DistanceTo(cloud, q, j) >= Worst(r, k, far)
    ensures PlainScan(t, cloud, q, r, k, far, epsilon) == (r, true)
  {
    hide SqDist, Worst, ScanIds;
    match t
    case Leaf(_, ids) => RejectedIds(cloud, q, ids, r, k, far);
    case Split(_, _, left, right) =>
      assert forall j :: j in Ids(t) <==> j in Ids(left) || j in Ids(right);
      PruningChangesNothing(left, cloud, q, r, k, far, epsilon);
      PruningChangesNothing(right, cloud, q, r, k, far, epsilon);
  }

  /** The leaves, those of the query's side of a split first. */
  ghost function LeavesNearFirst(t: Tree, q: Vec): seq<seq<int>> {
    match t
    case Leaf(_, ids) => [ids]
    case Split(axis, thresh, left, right) =>
      if Coord(q, axis) < thresh then LeavesNearFirst(left, q) + LeavesNearFirst(right, q)
      else LeavesNearFirst(right, q) + LeavesNearFirst(left, q)
  }

  ghost function ScanLeaves(cloud: seq<Vec>, q: Vec, leaves: seq<seq<int>>, r: seq<Entry>, k: nat,
                            far: real): (s: seq<Entry>)
    requires |r| <= k && 0 < k
    ensures |s| <= k
  {
    if |leaves| == 0 then r
    else ScanIds(cloud, q, leaves[|leaves| - 1], ScanLeaves(cloud, q, leaves[..|leaves| - 1], r, k, far), k, far)
  }

  /** After m leaves the search goes on: the worst distance is not below epsilon. */
  ghost predicate GoesOn(cloud: seq<Vec>, q: Vec, leaves: seq<seq<int>>, r: seq<Entry>, k: nat, far: real,
                         epsilon: real, m: nat)
    requires |r| <= k && 0 < k && m <= |leaves|
  {
    Worst(ScanLeaves(cloud, q, leaves[..m], r, k, far), k, far) >= epsilon
  }

  lemma {:induction false} ScanJoin(cloud: seq<Vec>, q: Vec, a: seq<seq<int>>, b: seq<seq<int>>, r: seq<Entry>, k: nat,
                                    far: real)
    requires |r| <= k && 0 < k
    ensures ScanLeaves(cloud, q, a + b, r, k, far)
      == ScanLeaves(cloud, q, b, ScanLeaves(cloud, q, a, r, k, far), k, far)
  {
    hide ScanIds;
    if |b| == 0 {
      assert a + b == a;
    } else {
      assert (a + b)[..|a + b| - 1] == a + b[..|b| - 1];
      ScanJoin(cloud, q, a, b[..|b| - 1], r, k, far);
    }
  }

  /** The search scans leaves, the query's sides first, and stops after the first one that brings the worst distance
      below epsilon. */
  lemma {:induction false} StopsAtFirst(t: Tree, cloud: seq<Vec>, q: Vec, r: seq<Entry>, k: nat, far: real,
                                        epsilon: real)
    returns (m: nat)
    requires |r| <= k && 0 < k
    ensures var leaves, s := LeavesNearFirst(t, q), PlainScan(t, cloud, q, r, k, far, epsilon);
      && 0 < m <= |leaves| && s.0 == ScanLeaves(cloud, q, leaves[..m], r, k, far)
      && (forall i :: 0 < i < m ==> GoesOn(cloud, q, leaves, r, k, far, epsilon, i))
      && (s.1 <==> GoesOn(cloud, q, leaves, r, k, far, epsilon, m)) && (s.1 ==> m == |leaves|)
  {
    hide ScanIds, Worst;
    match t
    case Leaf(_, ids) =>
      m := 1;
      OneLeaf(cloud, q, ids, r, k, far);
    case Split(axis, thresh, left, right) =>
      var near, rest := if Coord(q, axis) < thresh then left else right, if Coord(q, axis) < thresh then right
        else left;
      m := StopsAtFirst(near, cloud, q, r, k, far, epsilon);
      var s := PlainScan(near, cloud, q, r, k, far, epsilon);
      var a, b := LeavesNearFirst(near, q), LeavesNearFirst(rest, q);
      if s.1 {
        assert a[..m] == a;
        var m' := StopsAtFirst(rest, cloud, q, s.0, k, far, epsilon);
        m := |a| + m';
        JoinStops(cloud, q, a, b, r, s.0, k, far, epsilon, m');
      } else {
        PrefixStops(cloud, q, a, b, r, k, far, epsilon, m);
      }
  }

  lemma OneLeaf(cloud: seq<Vec>, q: Vec, ids: seq<int>, r: seq<Entry>, k: nat, far: real)
    requires |r| <= k && 0 < k
    ensures ScanLeaves(cloud, q, [ids][..1], r, k, far) == ScanIds(cloud, q, ids, r, k, far)
  {
    assert [ids][..1][..0] == [];
  }

  lemma PrefixStops(cloud: seq<Vec>, q: Vec, a: seq<seq<int>>, b: seq<seq<int>>, r: seq<Entry>, k: nat, far: real,
                    epsilon: real, m: nat)
    requires |r| <= k && 0 < k && m <= |a|
    ensures (a + b)[..m] == a[..m]
    ensures forall i :: 0 <= i <= m ==>
      (GoesOn(cloud, q, a + b, r, k, far, epsilon, i) <==> GoesOn(cloud, q, a, r, k, far, epsilon, i))
  {
    forall i | 0 <= i <= m
      ensures (a + b)[..i] == a[..i]
    {
    }
  }

  lemma JoinStops(cloud: seq<Vec>, q: Vec, a: seq<seq<int>>, b: seq<seq<int>>, r: seq<Entry>, s: seq<Entry>, k: nat,
                  far: real, epsilon: real, m: nat)
    requires |r| <= k && 0 < k && 0 < m <= |b| && s == ScanLeaves(cloud, q, a, r, k, far)
    requires forall i :: 0 < i <= |a| ==> GoesOn(cloud, q, a, r, k, far, epsilon, i)
    requires forall i :: 0 < i < m ==> GoesOn(cloud, q, b, s, k, far, epsilon, i)
    ensures ScanLeaves(cloud, q, (a + b)[..|a| + m], r, k, far) == ScanLeaves(cloud, q, b[..m], s, k, far)
    ensures forall i :: 0 < i < |a| + m ==> GoesOn(cloud, q, a + b, r, k, far, epsilon, i)
    ensures GoesOn(cloud, q, a + b, r, k, far, epsilon, |a| + m) <==> GoesOn(cloud, q, b, s, k, far, epsilon, m)
  {
    hide ScanLeaves, Worst;
    PrefixStops(cloud, q, a, b, r, k, far, epsilon, |a|);
    forall i | 0 <= i <= |b|
      ensures (a + b)[..|a| + i] == a + b[..i]
      ensures ScanLeaves(cloud, q, (a + b)[..|a| + i], r, k, far) == ScanLeaves(cloud, q, b[..i], s, k, far)
    {
      ScanJoin(cloud, q, a, b[..i], r, k, far);
    }
    forall i | 0 < i < |a| + m
      ensures GoesOn(cloud, q, a + b, r, k, far, epsilon, i)
    {
      if i > |a| {
        assert GoesOn(cloud, q, b, s, k, far, epsilon, i - |a|);
        assert (a + b)[..|a| + (i - |a|)] == (a + b)[..i];
      }
    }
  }

  class UnsafeKdTree {
    const points: seq<Vec>
    var indices: seq<int>
    var nodes: seq<Node>
    var root: nat

    constructor (points: seq<Vec>, indices: seq<int>, nodes: seq<Node>, root: nat)
      ensures this.points == points && this.indices == indices && this.nodes == nodes && this.root == root
    {
      this.points, this.indices, this.nodes, this.root := points, indices, nodes, root;
    }

    /** The stored form denotes `t`, a separated tree over distinct points of the cloud. */
    ghost predicate Stores(t: Tree, at: nat)
      reads this
    {
      && Represents(t, nodes, |nodes|, indices, at)
      && InCloud(Ids(t), points) && Separated(t, points)
      && DistinctIds(Ids(t))
    }

    /** Offers one point to the result. */
    method PushPoint(query: Vec, j: int, result: KnnResult, ghost seen: set<int>)
      requires 0 <= j < |points| && j !in seen
      requires Searched(result, points, query, seen)
      modifies result, result.indices, result.distances
      ensures Searched(result, points, query, seen + {j})
      ensures result.entries == Offer(old(result.entries), Entry(SqDist(points[j], query), j), result.k, result.far)
    {
      DistancesExtend(points, query, seen, j, result.far);
      var sqDist := SqDist(points[j], query);
      if sqDist < result.far {
        PushKeeps(result.entries, Distances(points, query, seen, result.far), Entry(sqDist, j), result.k, false);
      }
      result.Push(j, sqDist);
    }

    /** Scans a leaf. */
    method ScanLeaf(query: Vec, first: nat, last: nat, result: KnnResult, ghost seen: set<int>)
      requires first <= last <= |indices|
      requires Searched(result, points, query, seen)
      requires InCloud(indices[first..last], points) && forall j :: j in indices[first..last] ==> j !in seen
      requires DistinctIds(indices[first..last])
      modifies result, result.indices, result.distances
      ensures Searched(result, points, query, seen + Elems(indices[first..last]))
      ensures old(result.Valid()) && result.entries
        == ScanIds(points, query, indices[first..last], old(result.entries), result.k, result.far)
    {
      hide Searched, Elems, DistinctIds, InCloud, Offer, SqDist;
      ResultBound(result, query, seen);
      ghost var ids := indices[first..last];
      ElemsStep(seen, ids, 0);
      for i := first to last
        invariant Searched(result, points, query, seen + Elems(ids[..i - first]))
        invariant result.entries
          == ScanIds(points, query, ids[..i - first], old(result.entries), result.k, result.far)
      {
        assert ids[..i + 1 - first][..i - first] == ids[..i - first];
        ElemsStep(seen, ids, i - first);
        NewPoint(seen, ids, i - first, points);
        PushPoint(query, indices[i], result, seen + Elems(ids[..i - first]));
      }
      assert ids[..last - first] == ids;
    }

    /** What the stored node says about the tree it denotes. */
    lemma NodeShape(t: Tree, at: nat)
      requires Stores(t, at)
      ensures at < |nodes|
      ensures nodes[at].LeafNode? ==>
        t.Leaf? && nodes[at].first <= nodes[at].last <= |indices| && indices[nodes[at].first..nodes[at].last] == Ids(t)
      ensures nodes[at].SplitNode? ==> t.Split? && nodes[at].axis == t.axis && nodes[at].thresh == t.thresh
      ensures InCloud(Ids(t), points) && DistinctIds(Ids(t))
    {
    }

    lemma ResultBound(result: KnnResult, query: Vec, seen: set<int>)
      requires Searched(result, points, query, seen)
      ensures result.Valid()
    {
    }

    /** The recursive search. `more` is false when the early-termination threshold was reached; the result is then
        full of neighbours nearer than `epsilon`. Otherwise it holds the k nearest of everything seen. */
    method Search(query: Vec, at: nat, result: KnnResult, epsilon: real, ghost t: Tree, ghost seen: set<int>)
      returns (more: bool, ghost after: set<int>)
      requires Stores(t, at)
      requires Searched(result, points, query, seen) && forall j :: j in Ids(t) ==> j !in seen
      modifies result, result.indices, result.distances
      ensures seen <= after <= seen + IdSet(t)
      ensures Searched(result, points, query, after)
      ensures more ==> after == seen + IdSet(t)
      ensures more <==> result.Valid() && result.WorstDistance() >= epsilon
      // Pruning changes nothing: this is the plain scan of the leaves.
      ensures old(result.Valid()) && (result.entries, more)
        == PlainScan(t, points, query, old(result.entries), result.k, result.far, epsilon)
      decreases t
    {
      hide Stores, Searched, Distances, SqDist, Coord, Square, InCloud, DistinctIds;
      NodeShape(t, at);
      var node := nodes[at];
      if node.LeafNode? {
        ScanLeaf(query, node.first, node.last, result, seen);
        after := seen + IdSet(t);
        ResultBound(result, query, after);
        return !(result.WorstDistance() < epsilon), after;
      }
      var diff := Coord(query, node.axis) - node.thresh;
      var best, other := if diff < 0.0 then node.left else node.right, if diff < 0.0 then node.right else node.left;
      ghost var near, rest := if diff < 0.0 then t.left else t.right, if diff < 0.0 then t.right else t.left;
      SidesStore(t, at);
      more, after := Search(query, best, result, epsilon, near, seen);
      if !more {
        return;
      }
      ResultBound(result, query, after);
      if result.WorstDistance() > Square(diff) {
        more, after := Search(query, other, result, epsilon, rest, after);
      } else {
        PruneSide(query, at, t, result, epsilon, after);
        after := after + IdSet(rest);
      }
    }

    /** The side of a split that the query is not on may be skipped when its plane is no nearer than the worst
        distance. */
    lemma PruneSide(query: Vec, at: nat, t: Tree, result: KnnResult, epsilon: real, seen: set<int>)
      requires Stores(t, at) && t.Split? && Searched(result, points, query, seen)
      requires result.WorstDistance() <= Square(Coord(query, t.axis) - t.thresh)
      requires var rest := if Coord(query, t.axis) < t.thresh then t.right else t.left;
        forall j :: j in Ids(rest) ==> j !in seen
      ensures var rest := if Coord(query, t.axis) < t.thresh then t.right else t.left;
        && Searched(result, points, query, seen + IdSet(rest))
        && (result.WorstDistance() >= epsilon ==>
             PlainScan(rest, points, query, result.entries, result.k, result.far, epsilon) == (result.entries, true))
    {
      SidesStore(t, at);
      var onLeft := Coord(query, t.axis) < t.thresh;
      var rest := if onLeft then t.right else t.left;
      forall j | j in Ids(rest)
        ensures SqDist(points[j], query) >= result.WorstDistance()
      {
        assert j in Ids(t);
        BehindPlane(points, query, onLeft, t.axis, t.thresh, j);
      }
      PrunedPointsAreRejected(result.entries, result.k, result.far, points, query, seen, Ids(rest));
      if result.WorstDistance() >= epsilon {
        PruningChangesNothing(rest, points, query, result.entries, result.k, result.far, epsilon);
      }
    }

    lemma SidesStore(t: Tree, at: nat)
      requires Stores(t, at) && t.Split?
      ensures Stores(t.left, nodes[at].left) && Stores(t.right, nodes[at].right)
      ensures IdSet(t) == IdSet(t.left) + IdSet(t.right)
      ensures forall j :: j in Ids(t.left) ==> j !in Ids(t.right)
    {
      DistinctParts(Ids(t.left), Ids(t.right));
      assert forall j :: j in Ids(t) <==> j in Ids(t.left) || j in Ids(t.right);
    }

    /** k-nearest-neighbour search from the root over the whole cloud: with epsilon 0, and whenever the early stop does
        not fire, exactly the k nearest of brute force. */
    method KnnSearch(query: Vec, k: nat, kIndices: array<int>, kSqDists: array<real>, epsilon: real, far: real,
                     invalid: int, ghost t: Tree)
      returns (found: nat, ghost entries: seq<Entry>, ghost seen: set<int>)
      requires Stores(t, root) && IdSet(t) == Below(|points|)
      requires 0 < k && kIndices.Length == kSqDists.Length == k
      modifies kIndices, kSqDists
      ensures found == |entries| <= k
      ensures forall a :: 0 <= a < found ==> Entry(kSqDists[a], kIndices[a]) == entries[a]
      ensures Unused(kIndices, kSqDists, found, k, far, invalid)
      ensures seen <= Below(|points|) && IsKNearest(entries, Distances(points, query, seen, far), k, false)
      // Either every point of the cloud was accounted for, or k neighbours nearer than epsilon were found early.
      ensures seen == Below(|points|)
        || (epsilon <= far ==> found == k && forall a :: 0 <= a < k ==> kSqDists[a] < epsilon)
      ensures epsilon <= 0.0 <= far ==> seen == Below(|points|)
      ensures entries == PlainScan(t, points, query, [], k, far, epsilon).0
    {
      hide PlainScan, SqDist, Stores, Worst;
      var result := new KnnResult(kIndices, kSqDists, k, far, invalid);
      var more;
      more, seen := Search(query, root, result, epsilon, t, {});
      found, entries := result.numFound, result.entries;
    }
  }
}
