/** Kd-tree construction: the reference tree of a cloud, and the sequential builder that
    reorders the index array in place and fills preallocated nodes through a counter. */
module KdTreeBuilder {
  import opened Collections
  import opened Geometry
  import opened KNearest
  import opened KnnResult
  import opened KdTree

  /** The builder's settings, with the axis choice and nth_element as deterministic functions of the index range. */
  datatype Builder = Builder(maxLeafSize: nat, findAxis: seq<int> -> nat, nthElement: (seq<int>, nat) -> seq<int>)

  /** The projection of point j. */
  function Projected(cloud: seq<Vec>, j: int, axis: nat): real {
    if 0 <= j < |cloud| then Coord(cloud[j], axis) else 0.0
  }

  /** nth_element's promise for the median position: a rearrangement split at the median. */
  ghost predicate SplitsAtMedian(b: Builder, cloud: seq<Vec>, s: seq<int>, axis: nat)
    requires |s| > 0
  {
    var t, mid := b.nthElement(s, axis), |s| / 2;
    && |t| == |s| && multiset(t) == multiset(s)
    && (forall i :: 0 <= i < mid ==> Projected(cloud, t[i], axis) <= Projected(cloud, t[mid], axis))
    && (forall i :: mid <= i < |s| ==> Projected(cloud, t[mid], axis) <= Projected(cloud, t[i], axis))
  }

  ghost predicate Sound(b: Builder, cloud: seq<Vec>) {
    && b.maxLeafSize >= 1
    && forall s, axis :: |s| > 0 && InCloud(s, cloud) ==> SplitsAtMedian(b, cloud, s, axis)
  }

  /** A range after nth_element. */
  function Reordered(b: Builder, s: seq<int>): seq<int> {
    b.nthElement(s, b.findAxis(s))
  }

  /** The tree of an index range starting at position `first`. */
  ghost function Build(b: Builder, cloud: seq<Vec>, s: seq<int>, first: nat): Tree
    requires Sound(b, cloud) && InCloud(s, cloud)
    decreases |s|
  {
    if |s| <= b.maxLeafSize then Leaf(first, s)
    else
      var t, mid := Reordered(b, s), |s| / 2;
      SidesInCloud(b, cloud, s);
      Split(b.findAxis(s), Projected(cloud, t[mid], b.findAxis(s)), Build(b, cloud, t[..mid], first),
            Build(b, cloud, t[mid..], first + mid))
  }

  /** The number of nodes of a tree over n points, which depends on n alone. */
  function Nodes(n: nat, maxLeafSize: nat): (c: nat)
    requires maxLeafSize >= 1
    ensures c >= 1
  {
    if n <= maxLeafSize then 1 else 1 + Nodes(n / 2, maxLeafSize) + Nodes(n - n / 2, maxLeafSize)
  }

  /** `t` holds every index of `s` once, separates every split, covers consecutive positions
      from `first` on and has the predicted number of nodes. */
  ghost predicate WellFormed(t: Tree, cloud: seq<Vec>, s: seq<int>, first: nat, maxLeafSize: nat)
    requires maxLeafSize >= 1
  {
    && multiset(Ids(t)) == multiset(s)
    && InCloud(Ids(t), cloud) && Separated(t, cloud)
    && Consecutive(t, first)
    && NodeCount(t) == Nodes(|s|, maxLeafSize)
  }

  lemma {:induction false} BuildIsWellFormed(b: Builder, cloud: seq<Vec>, s: seq<int>, first: nat, t: Tree)
    requires Sound(b, cloud) && InCloud(s, cloud) && t == Build(b, cloud, s, first)
    ensures WellFormed(t, cloud, s, first, b.maxLeafSize)
    ensures |Ids(t)| == |s|
    decreases |s|
  {
    if |s| > b.maxLeafSize {
      var mid, r := |s| / 2, Reordered(b, s);
      SidesInCloud(b, cloud, s);
      BuildIsWellFormed(b, cloud, r[..mid], first, t.left);
      BuildIsWellFormed(b, cloud, r[mid..], first + mid, t.right);
      JoinIsWellFormed(b, cloud, s, first, t.left, t.right);
    }
    SameElements(Ids(t), s);
  }

  lemma SidesInCloud(b: Builder, cloud: seq<Vec>, s: seq<int>)
    requires Sound(b, cloud) && InCloud(s, cloud) && |s| > 0
    ensures |Reordered(b, s)| == |s| && multiset(Reordered(b, s)) == multiset(s) && InCloud(Reordered(b, s), cloud)
    ensures InCloud(Reordered(b, s)[..|s| / 2], cloud) && InCloud(Reordered(b, s)[|s| / 2..], cloud)
  {
    var r, mid := Reordered(b, s), |s| / 2;
    assert SplitsAtMedian(b, cloud, s, b.findAxis(s));
    SameElements(r, s);
    assert r[mid..|r|] == r[mid..] && r[0..mid] == r[..mid];
    InCloudSlice(r, cloud, 0, mid);
    InCloudSlice(r, cloud, mid, |r|);
  }

  lemma LeavesHold(b: Builder, cloud: seq<Vec>)
    requires Sound(b, cloud)
    ensures b.maxLeafSize >= 1
  {
  }

  lemma JoinIsWellFormed(b: Builder, cloud: seq<Vec>, s: seq<int>, first: nat, left: Tree, right: Tree)
    requires Sound(b, cloud) && |s| > b.maxLeafSize && InCloud(s, cloud) && |Reordered(b, s)| == |s|
    requires WellFormed(left, cloud, Reordered(b, s)[..|s| / 2], first, b.maxLeafSize) && |Ids(left)| == |s| / 2
    requires WellFormed(right, cloud, Reordered(b, s)[|s| / 2..], first + |s| / 2, b.maxLeafSize)
    ensures WellFormed(Split(b.findAxis(s), Projected(cloud, Reordered(b, s)[|s| / 2], b.findAxis(s)), left, right),
                       cloud, s, first, b.maxLeafSize)
  {
    hide Sound, Reordered, WellFormed, Projected, InCloud;
    LeavesHold(b, cloud);
    var r, mid := Reordered(b, s), |s| / 2;
    SidesInCloud(b, cloud, s);
    Halves(r, mid);
    WellFormedIds(left, cloud, r[..mid], first, b.maxLeafSize);
    WellFormedIds(right, cloud, r[mid..], first + mid, b.maxLeafSize);
    SidesAreSeparated(b, cloud, s, Ids(left), Ids(right));
    JoinParts(b.findAxis(s), Projected(cloud, r[mid], b.findAxis(s)), cloud, s, r[..mid], r[mid..], first, left, right,
              b.maxLeafSize);
  }

  lemma WellFormedIds(t: Tree, cloud: seq<Vec>, s: seq<int>, first: nat, maxLeafSize: nat)
    requires maxLeafSize >= 1 && WellFormed(t, cloud, s, first, maxLeafSize)
    ensures multiset(Ids(t)) == multiset(s)
  {
  }

  lemma JoinParts(axis: nat, thresh: real, cloud: seq<Vec>, s: seq<int>, lo: seq<int>, hi: seq<int>, first: nat,
                  left: Tree, right: Tree, maxLeafSize: nat)
    requires |s| > maxLeafSize >= 1 && multiset(s) == multiset(lo) + multiset(hi) && |lo| == |s| / 2 == |Ids(left)|
      && |hi| == |s| - |s| / 2
    requires WellFormed(left, cloud, lo, first, maxLeafSize) && WellFormed(right, cloud, hi, first + |lo|, maxLeafSize)
    requires forall j :: j in Ids(left) ==> Projected(cloud, j, axis) <= thresh
    requires forall j :: j in Ids(right) ==> thresh <= Projected(cloud, j, axis)
    ensures WellFormed(Split(axis, thresh, left, right), cloud, s, first, maxLeafSize)
  {
    hide Separated, Nodes, InCloud, Projected, Ids, Consecutive, NodeCount;
    SplitShape(axis, thresh, left, right, first);
    SplitSeparated(axis, thresh, left, right, cloud);
    NodesOfSplit(|s|, maxLeafSize);
  }

  lemma SplitShape(axis: nat, thresh: real, left: Tree, right: Tree, first: nat)
    ensures var t := Split(axis, thresh, left, right);
      && multiset(Ids(t)) == multiset(Ids(left)) + multiset(Ids(right))
      && NodeCount(t) == 1 + NodeCount(left) + NodeCount(right)
      && (Consecutive(t, first) <==> Consecutive(left, first) && Consecutive(right, first + |Ids(left)|))
  {
  }

  lemma SplitSeparated(axis: nat, thresh: real, left: Tree, right: Tree, cloud: seq<Vec>)
    requires InCloud(Ids(left), cloud) && InCloud(Ids(right), cloud) && Separated(left, cloud)
      && Separated(right, cloud)
    requires forall j :: j in Ids(left) ==> Projected(cloud, j, axis) <= thresh
    requires forall j :: j in Ids(right) ==> thresh <= Projected(cloud, j, axis)
    ensures InCloud(Ids(Split(axis, thresh, left, right)), cloud) && Separated(Split(axis, thresh, left, right), cloud)
  {
    var t := Split(axis, thresh, left, right);
    forall j | j in Ids(t)
      ensures 0 <= j < |cloud|
    {
      assert j in Ids(left) || j in Ids(right);
    }
  }

  lemma NodesOfSplit(n: nat, maxLeafSize: nat)
    requires n > maxLeafSize >= 1
    ensures Nodes(n, maxLeafSize) == 1 + Nodes(n / 2, maxLeafSize) + Nodes(n - n / 2, maxLeafSize)
  {
  }

  lemma Halves<T>(r: seq<T>, mid: nat)
    requires mid <= |r|
    ensures multiset(r) == multiset(r[..mid]) + multiset(r[mid..]) && |r[..mid]| == mid && |r[mid..]| == |r| - mid
  {
    assert r == r[..mid] + r[mid..];
  }

  lemma SidesAreSeparated(b: Builder, cloud: seq<Vec>, s: seq<int>, left: seq<int>, right: seq<int>)
    requires Sound(b, cloud) && |s| > 0 && InCloud(s, cloud) && |Reordered(b, s)| == |s|
    requires multiset(left) == multiset(Reordered(b, s)[..|s| / 2])
      && multiset(right) == multiset(Reordered(b, s)[|s| / 2..])
    ensures var axis, pivot := b.findAxis(s), Reordered(b, s)[|s| / 2];
      && (forall j :: j in left ==> Projected(cloud, j, axis) <= Projected(cloud, pivot, axis))
      && (forall j :: j in right ==> Projected(cloud, pivot, axis) <= Projected(cloud, j, axis))
  {
    assert SplitsAtMedian(b, cloud, s, b.findAxis(s));
    SameElements(left, Reordered(b, s)[..|s| / 2]);
    SameElements(right, Reordered(b, s)[|s| / 2..]);
  }

  /** With at least three points a leaf, a tree over n >= 2 points has fewer nodes than points. */
  lemma {:induction false} FewerNodesThanPoints(n: nat, maxLeafSize: nat)
    requires maxLeafSize >= 3 && n >= 2
    ensures Nodes(n, maxLeafSize) < n
  {
    if n > maxLeafSize {
      FewerNodesThanPoints(n / 2, maxLeafSize);
      FewerNodesThanPoints(n - n / 2, maxLeafSize);
    }
  }

  /** The node array, preallocated with one node a point, is large enough for every cloud
      exactly when a leaf may hold at least three points. */
  lemma NodesFitExactlyFromThree(maxLeafSize: nat)
    requires maxLeafSize >= 1
    ensures (forall n: nat :: n >= 1 ==> Nodes(n, maxLeafSize) <= n) <==> maxLeafSize >= 3
  {
    if maxLeafSize >= 3 {
      forall n: nat | n >= 1
        ensures Nodes(n, maxLeafSize) <= n
      {
        if n >= 2 {
          FewerNodesThanPoints(n, maxLeafSize);
        }
      }
    } else if maxLeafSize == 2 {
      assert Nodes(3, 2) == 3;
      assert Nodes(6, 2) == 7;
    } else {
      assert Nodes(2, 1) == 3;
    }
  }

  ghost predicate SameOutside(s: seq<int>, t: seq<int>, first: nat, last: nat) {
    |s| == |t| && forall i :: 0 <= i < |s| && !(first <= i < last) ==> t[i] == s[i]
  }

  /** A stored tree survives changes elsewhere: to nodes before its root or behind the known ones, and to positions
      outside its range. */
  lemma {:induction false} RepresentsFrame(t: Tree, nodes: seq<Node>, count: nat, indices: seq<int>, at: nat,
                                           nodes': seq<Node>, count': nat, indices': seq<int>, first: nat)
    requires Represents(t, nodes, count, indices, at) && Consecutive(t, first)
    requires count <= count' <= |nodes'| && forall i :: at <= i < count ==> nodes'[i] == nodes[i]
    requires |indices| == |indices'| && forall i :: first <= i < first + |Ids(t)| && i < |indices| ==>
      indices'[i] == indices[i]
    ensures Represents(t, nodes', count', indices', at)
    decreases t
  {
    match t
    case Leaf(_, ids) =>
    case Split(_, _, l, r) =>
      RepresentsFrame(l, nodes, count, indices, nodes[at].left, nodes', count', indices', first);
      RepresentsFrame(r, nodes, count, indices, nodes[at].right, nodes', count', indices', first + |Ids(l)|);
  }

  /** Two stored sides and a split node pointing to them store the whole range. */
  lemma JoinRepresents(t: Tree, first: nat, id: nat, nodesL: seq<Node>, countL: nat, indicesL: seq<int>,
                       nodesR: seq<Node>, indices: seq<int>, nodes: seq<Node>, count: nat)
    requires t.Split? && Consecutive(t, first) && id < |nodes| && nodes[id].SplitNode?
    requires nodes[id].axis == t.axis && nodes[id].thresh == t.thresh && id < nodes[id].left && id < nodes[id].right
    requires Represents(t.left, nodesL, countL, indicesL, nodes[id].left)
      && Represents(t.right, nodesR, count, indices, nodes[id].right)
    requires countL <= count <= |nodes| && |indicesL| == |indices|
    requires forall i :: id < i < countL ==> nodes[i] == nodesL[i]
    requires forall i :: id < i < count ==> nodes[i] == nodesR[i]
    requires forall i :: first <= i < first + |Ids(t.left)| && i < |indices| ==> indices[i] == indicesL[i]
    ensures Represents(t, nodes, count, indices, id)
  {
    RepresentsFrame(t.left, nodesL, countL, indicesL, nodes[id].left, nodes, count, indices, first);
    RepresentsFrame(t.right, nodesR, count, indices, nodes[id].right, nodes, count, indices, first + |Ids(t.left)|);
  }

  /** What creating the node of subtree `t` over positions [first, last) does to nodes `n`, counter `c` and indices `i`:
      it takes the next node, hands out consecutive nodes, leaves earlier nodes and other positions alone, and stores
      `t`. */
  ghost predicate Created(t: Tree, first: nat, last: nat, id: nat, n: seq<Node>, c: nat, i: seq<int>, n': seq<Node>,
                          c': nat, i': seq<int>) {
    && id == c && c' == c + NodeCount(t) <= |n| == |n'|
    && (forall x :: 0 <= x < c ==> n'[x] == n[x])
    && SameOutside(i, i', first, last)
    && Represents(t, n', c', i', id)
  }

  /** Creating both sides and linking them creates the whole. */
  lemma CreatedSplit(t: Tree, first: nat, mid: nat, last: nat, n: seq<Node>, c: nat, i: seq<int>, i0: seq<int>,
                     n1: seq<Node>, c1: nat, i1: seq<int>, n2: seq<Node>, c2: nat, i2: seq<int>)
    requires t.Split? && Consecutive(t, first) && first + |Ids(t.left)| == mid <= last && c < |n| == |n1| == |n2|
    requires SameOutside(i, i0, first, last)
    requires Created(t.left, first, mid, c + 1, n[c := SplitNode(t.axis, t.thresh, 0, 0)], c + 1, i0, n1, c1, i1)
    requires Created(t.right, mid, last, c1, n1[c := SplitNode(t.axis, t.thresh, c + 1, 0)], c1, i1, n2, c2, i2)
    ensures Created(t, first, last, c, n, c, i, n2[c := SplitNode(t.axis, t.thresh, c + 1, c1)], c2, i2)
  {
    JoinRepresents(t, first, c, n1, c1, i1, n2, i2, n2[c := SplitNode(t.axis, t.thresh, c + 1, c1)], c2);
  }

  lemma LeafHoldsOne(b: Builder, cloud: seq<Vec>)
    requires Sound(b, cloud)
    ensures b.maxLeafSize >= 1
  {
  }

  lemma LeafCreated(b: Builder, cloud: seq<Vec>, first: nat, s: seq<int>, t: Tree, id: nat, nodes: seq<Node>,
                    indices: seq<int>)
    requires Sound(b, cloud) && InCloud(s, cloud) && |s| <= b.maxLeafSize && t == Build(b, cloud, s, first)
    requires id < |nodes| && nodes[id] == LeafNode(first, first + |s|) && Holds(indices, first, s)
    ensures NodeCount(t) == 1 && Represents(t, nodes, id + 1, indices, id)
  {
  }

  lemma RangeHeld(indices: seq<int>, first: nat, last: nat, s: seq<int>)
    requires first <= last <= |indices| && |s| == last - first && Holds(indices, first, s)
    ensures indices[first..last] == s
  {
  }

  lemma RearrangedRange(indices: seq<int>, first: nat, last: nat, r: seq<int>, m: nat)
    requires first <= last <= |indices| && |r| == last - first && m <= |r|
    ensures var s := indices[..first] + r + indices[last..];
      SameOutside(indices, s, first, last) && Holds(s, first, r[..m]) && Holds(s, first + m, r[m..])
        && (m < |r| ==> s[first + m] == r[m])
  {
  }

  /** The tree being built: the index vector, the preallocated node vector and the node counter. */
  class KdTreeUnderConstruction {
    const cloud: seq<Vec>
    var indices: seq<int>
    var nodes: seq<Node>
    var nodeCount: nat

    constructor (cloud: seq<Vec>)
      ensures this.cloud == cloud && nodeCount == 0 && |nodes| == |cloud| == |indices|
      ensures forall i :: 0 <= i < |indices| ==> indices[i] == i
    {
      this.cloud, nodeCount := cloud, 0;
      indices := seq(|cloud|, i => i);
      nodes := seq(|cloud|, _ => LeafNode(0, 0));
    }

    /** Moves the median of [first, last) into place along the chosen axis and reads off the threshold. */
    method SplitRange(b: Builder, first: nat, last: nat, ghost s: seq<int>) returns (axis: nat, thresh: real)
      requires Sound(b, cloud) && first < last <= |indices| && |s| == last - first && Holds(indices, first, s)
        && InCloud(s, cloud)
      modifies this`indices
      ensures SameOutside(old(indices), indices, first, last) && |Reordered(b, s)| == |s|
      ensures Holds(indices, first, Reordered(b, s)[..|s| / 2])
        && Holds(indices, first + |s| / 2, Reordered(b, s)[|s| / 2..])
      ensures axis == b.findAxis(s) && thresh == Projected(cloud, Reordered(b, s)[|s| / 2], axis)
    {
      hide Sound, SplitsAtMedian, Holds, SameOutside;
      RangeHeld(indices, first, last, s);
      axis := b.findAxis(indices[first..last]);
      var r := b.nthElement(indices[first..last], axis);
      SidesInCloud(b, cloud, s);
      RearrangedRange(indices, first, last, r, |s| / 2);
      indices := indices[..first] + r + indices[last..];
      InCloudAt(r, cloud);
      thresh := Coord(cloud[indices[first + (last - first) / 2]], axis);
    }

    /** Builds the subtree `t` of positions [first, last), which hold `s`, and returns its node. */
    method CreateNode(b: Builder, first: nat, last: nat, ghost s: seq<int>, ghost t: Tree) returns (id: nat)
      requires Sound(b, cloud) && first <= last <= |indices| && |s| == last - first && Holds(indices, first, s)
        && InCloud(s, cloud)
      requires t == Build(b, cloud, s, first)
      requires nodeCount + NodeCount(t) <= |nodes|
      modifies this
      ensures Created(t, first, last, id, old(nodes), old(nodeCount), old(indices), nodes, nodeCount, indices)
      decreases last - first
    {
      hide Sound, Represents, Projected, SplitsAtMedian, Build, Ids, Reordered;
      LeafHoldsOne(b, cloud);
      id := nodeCount;
      nodeCount := nodeCount + 1;
      if last - first <= b.maxLeafSize {
        nodes := nodes[id := LeafNode(first, last)];
        LeafCreated(b, cloud, first, s, t, id, nodes, indices);
        return;
      }

      var mid := first + (last - first) / 2;
      ghost var r, m := Reordered(b, s), (last - first) / 2;
      SidesInCloud(b, cloud, s);
      SidesOf(b, cloud, s, first, mid, m);
      var axis, thresh := SplitRange(b, first, last, s);
      nodes := nodes[id := SplitNode(axis, thresh, 0, 0)];
      ghost var i0 := indices;

      var left := CreateNode(b, first, mid, r[..m], t.left);
      ghost var n1, c1, i1 := nodes, nodeCount, indices;
      nodes := nodes[id := nodes[id].(left := left)];

      var right := CreateNode(b, mid, last, r[m..], t.right);
      CreatedSplit(t, first, mid, last, old(nodes), old(nodeCount), old(indices), i0, n1, c1, i1, nodes, nodeCount,
                   indices);
      nodes := nodes[id := nodes[id].(right := right)];
    }
  }

  /** The identity index array. */
  function Iota(n: nat): (s: seq<int>)
    ensures forall j :: j in s ==> 0 <= j < n
  {
    seq(n, i => i)
  }

  /** Builds the kd-tree of a non-empty cloud. The preallocated nodes suffice because a leaf may hold three points. */
  method BuildTree(b: Builder, cloud: seq<Vec>) returns (tree: UnsafeKdTree, ghost t: Tree)
    requires |cloud| > 0 && Sound(b, cloud) && b.maxLeafSize >= 3
    ensures fresh(tree) && tree.points == cloud && tree.root == 0
    ensures t == Build(b, cloud, Iota(|cloud|), 0)
    ensures tree.Stores(t, tree.root) && IdSet(t) == Below(|cloud|)
    ensures |tree.nodes| == NodeCount(t) <= |cloud|
  {
    var k := new KdTreeUnderConstruction(cloud);
    ghost var s := Iota(|cloud|);
    t := Build(b, cloud, s, 0);
    NodesFitExactlyFromThree(b.maxLeafSize);
    assert Nodes(|cloud|, b.maxLeafSize) <= |cloud|;
    BuildIsWellFormed(b, cloud, s, 0, t);
    var root := k.CreateNode(b, 0, |cloud|, s, t);
    RepresentsFrame(t, k.nodes, k.nodeCount, k.indices, root, k.nodes[..k.nodeCount], k.nodeCount, k.indices, 0);
    tree := new UnsafeKdTree(cloud, k.indices, k.nodes[..k.nodeCount], root);
    PermutationIsDistinct(Ids(t), s);
    IotaElems(t, s, |cloud|);
  }

  /** Building the tree of a non-empty cloud and searching it with epsilon 0 finds exactly the k nearest points of the
      whole cloud. */
  method BuildAndSearch(b: Builder, cloud: seq<Vec>, query: Vec, k: nat, kIndices: array<int>, kSqDists: array<real>,
                        far: real, invalid: int)
    returns (found: nat, ghost entries: seq<Entry>)
    requires |cloud| > 0 && Sound(b, cloud) && b.maxLeafSize >= 3
    requires 0 < k && kIndices.Length == kSqDists.Length == k && far >= 0.0
    modifies kIndices, kSqDists
    ensures found == |entries| <= k && forall a :: 0 <= a < found ==> Entry(kSqDists[a], kIndices[a]) == entries[a]
    ensures Unused(kIndices, kSqDists, found, k, far, invalid)
    ensures IsKNearest(entries, Distances(cloud, query, Below(|cloud|), far), k, false)
  {
    hide Sound, IsKNearest, Build;
    var tree, t := BuildTree(b, cloud);
    ghost var seen;
    found, entries, seen := tree.KnnSearch(query, k, kIndices, kSqDists, 0.0, far, invalid, t);
  }

  lemma IotaElems(t: Tree, s: seq<int>, n: nat)
    requires s == Iota(n) && multiset(Ids(t)) == multiset(s)
    ensures IdSet(t) == Below(n)
  {
    SameElements(Ids(t), s);
    assert forall i :: 0 <= i < n ==> s[i] == i;
    forall j | 0 <= j < n
      ensures j in s
    {
      assert s[j] == j;
    }
  }

  lemma PermutationIsDistinct(p: seq<int>, s: seq<int>)
    requires multiset(p) == multiset(s) && DistinctIds(s)
    ensures DistinctIds(p)
  {
    forall x | x in multiset(s)
      ensures multiset(s)[x] == 1
    {
      var i :| 0 <= i < |s| && s[i] == x;
      OccursOnce(s, i);
    }
    forall a, b | 0 <= a < b < |p|
      ensures p[a] != p[b]
    {
      OccursTwice(p, a, b);
    }
  }

  lemma OccursTwice(p: seq<int>, a: nat, b: nat)
    requires a < b < |p|
    ensures p[a] == p[b] ==> multiset(p)[p[b]] >= 2
  {
    assert p == p[..b] + [p[b]] + p[b + 1..];
    assert p[a] == p[..b][a] && p[a] in multiset(p[..b]);
  }

  lemma OccursOnce(s: seq<int>, i: nat)
    requires i < |s| && DistinctIds(s)
    ensures multiset(s)[s[i]] == 1
  {
    assert s == s[..i] + [s[i]] + s[i + 1..];
    assert s[i] !in s[..i] && s[i] !in s[i + 1..];
    assert multiset(s[..i])[s[i]] == 0 && multiset(s[i + 1..])[s[i]] == 0;
  }

  /** The shape of a split reference tree. */
  lemma SidesOf(b: Builder, cloud: seq<Vec>, s: seq<int>, first: nat, mid: nat, m: nat)
    requires Sound(b, cloud) && InCloud(s, cloud) && |s| > b.maxLeafSize && |Reordered(b, s)| == |s|
    requires m == |s| / 2 && mid == first + m
    requires InCloud(Reordered(b, s)[..m], cloud) && InCloud(Reordered(b, s)[m..], cloud)
    ensures var t := Build(b, cloud, s, first);
      && t.Split? && Consecutive(t, first) && |Ids(t.left)| == m
      && t.axis == b.findAxis(s) && t.thresh == Projected(cloud, Reordered(b, s)[m], t.axis)
      && t.left == Build(b, cloud, Reordered(b, s)[..m], first)
      && t.right == Build(b, cloud, Reordered(b, s)[m..], mid)
  {
    var t := Build(b, cloud, s, first);
    BuildIsWellFormed(b, cloud, s, first, t);
    BuildIsWellFormed(b, cloud, Reordered(b, s)[..m], first, t.left);
  }
}
