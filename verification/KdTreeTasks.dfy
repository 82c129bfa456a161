/** The task-parallel kd-tree builder as a step system: tasks reorder disjoint index ranges and take
    their nodes from one atomic counter, under any interleaving. */
module KdTreeTasks {
  import opened Collections
  import opened Geometry
  import opened KNearest
  import opened KnnResult
  import opened KdTree
  import opened KdTreeBuilder

  const INVALID_NODE: nat := 0xFFFF_FFFF

  datatype Shared = Shared(indices: seq<int>, nodes: seq<Node>, counter: nat)

  /** A create_node call on positions [first, last): not yet begun, holding its node, returned as a leaf,
      or waiting for the two calls it spawned. */
  datatype Task =
    | Spawned(first: nat, last: nat)
    | Entered(first: nat, last: nat, id: nat)
    | LeafDone(first: nat, last: nat, id: nat)
    | Forked(first: nat, last: nat, id: nat, axis: nat, thresh: real,
             left: Task, right: Task, leftLinked: bool, rightLinked: bool, joined: bool)

  predicate Returned(t: Task) {
    t.LeafDone? || (t.Forked? && t.joined)
  }

  ghost predicate Shape(t: Task, n: nat) {
    && t.first <= t.last <= n
    && (t.Forked? ==>
          && Shape(t.left, n) && Shape(t.right, n)
          && t.left.first == t.first && t.right.last == t.last
          && t.left.last == t.right.first == t.first + (t.last - t.first) / 2)
  }

  /** Which call moves next: this one, one inside a child, or the child task's store of its result. */
  datatype Move = Here | InChild(left: bool, inner: Move) | LinkChild(left: bool)

  function Put(nodes: seq<Node>, id: nat, node: Node): seq<Node> {
    if id < |nodes| then nodes[id := node] else nodes
  }

  /** The body of a call that holds its node: a leaf, or nth_element on its range and two spawned calls. */
  function Body(b: Builder, cloud: seq<Vec>, f: nat, l: nat, id: nat, s: Shared): (Task, Shared)
    requires f <= l <= |s.indices|
  {
    if l - f <= b.maxLeafSize then (LeafDone(f, l, id), s.(nodes := Put(s.nodes, id, LeafNode(f, l))))
    else
      var range, m := s.indices[f..l], (l - f) / 2;
      var axis, r := b.findAxis(range), Reordered(b, range);
      var thresh := if m < |r| then Projected(cloud, r[m], axis) else 0.0;
      (Forked(f, l, id, axis, thresh, Spawned(f, f + m), Spawned(f + m, l), false, false, false),
       Shared(s.indices[..f] + r + s.indices[l..],
              Put(s.nodes, id, SplitNode(axis, thresh, INVALID_NODE, INVALID_NODE)), s.counter))
  }

  /** A spawned task stores the node its call returned. */
  function Link(nodes: seq<Node>, id: nat, left: bool, child: nat): seq<Node> {
    if id < |nodes| && nodes[id].SplitNode?
    then nodes[id := if left then nodes[id].(left := child) else nodes[id].(right := child)]
    else nodes
  }

  function WithChild(t: Task, isLeft: bool, c: Task): Task
    requires t.Forked?
  {
    if isLeft then t.(left := c) else t.(right := c)
  }

  /** One atomic move; a move that is not enabled changes nothing. */
  function Advance(b: Builder, cloud: seq<Vec>, t: Task, s: Shared, m: Move): (Task, Shared)
    requires Shape(t, |s.indices|)
    decreases t
  {
    match t
    case Spawned(f, l) => if m.Here? then (Entered(f, l, s.counter), s.(counter := s.counter + 1)) else (t, s)
    case Entered(f, l, id) => if m.Here? then Body(b, cloud, f, l, id, s) else (t, s)
    case LeafDone(_, _, _) => (t, s)
    case Forked(_, _, id, _, _, left, right, leftLinked, rightLinked, joined) =>
      match m
      case InChild(isLeft, inner) =>
        var (c, s') := Advance(b, cloud, if isLeft then left else right, s, inner);
        (WithChild(t, isLeft, c), s')
      case LinkChild(isLeft) =>
        var child := if isLeft then left else right;
        if (if isLeft then leftLinked else rightLinked) || !Returned(child) then (t, s)
        else
          (if isLeft then t.(leftLinked := true) else t.(rightLinked := true),
           s.(nodes := Link(s.nodes, id, isLeft, child.id)))
      case Here => if leftLinked && rightLinked then (t.(joined := true), s) else (t, s)
  }

  // ---------------------------------------------------------------- the tree a task will have built

  /** The tree a call will have built when it returns, read off its present state. */
  ghost function Denote(b: Builder, cloud: seq<Vec>, t: Task, indices: seq<int>): Tree
    requires Sound(b, cloud) && Shape(t, |indices|) && InCloud(indices, cloud)
  {
    match t
    case LeafDone(f, l, _) => Leaf(f, indices[f..l])
    case Forked(_, _, _, axis, thresh, left, right, _, _, _) =>
      Split(axis, thresh, Denote(b, cloud, left, indices), Denote(b, cloud, right, indices))
    case _ => InCloudSlice(indices, cloud, t.first, t.last); Build(b, cloud, indices[t.first..t.last], t.first)
  }

  /** Reordering other ranges does not concern a task. */
  lemma {:induction false} DenoteFrame(b: Builder, cloud: seq<Vec>, t: Task, i: seq<int>, i': seq<int>)
    requires Sound(b, cloud) && Shape(t, |i|) && InCloud(i, cloud) && InCloud(i', cloud) && |i| == |i'|
    requires forall x :: t.first <= x < t.last ==> i'[x] == i[x]
    ensures Denote(b, cloud, t, i') == Denote(b, cloud, t, i)
  {
    if t.Forked? {
      DenoteFrame(b, cloud, t.left, i, i');
      DenoteFrame(b, cloud, t.right, i, i');
    } else {
      assert i'[t.first..t.last] == i[t.first..t.last];
    }
  }

  /** `i'` rearranges `i` within positions [f, l). */
  ghost predicate Rearranges(i: seq<int>, i': seq<int>, f: nat, l: nat, cloud: seq<Vec>) {
    SameOutside(i, i', f, l) && multiset(i') == multiset(i) && InCloud(i', cloud)
  }

  lemma ForkRearranges(b: Builder, cloud: seq<Vec>, i: seq<int>, f: nat, l: nat)
    requires Sound(b, cloud) && f < l <= |i| && InCloud(i, cloud) && InCloud(i[f..l], cloud)
    ensures |Reordered(b, i[f..l])| == l - f
    ensures Rearranges(i, i[..f] + Reordered(b, i[f..l]) + i[l..], f, l, cloud)
  {
    var r := Reordered(b, i[f..l]);
    SidesInCloud(b, cloud, i[f..l]);
    var i' := i[..f] + r + i[l..];
    assert i == i[..f] + i[f..l] + i[l..];
    SameElements(i, i');
  }

  lemma ForkKeepsTree(b: Builder, cloud: seq<Vec>, i: seq<int>, i': seq<int>, f: nat, l: nat, mid: nat, s: seq<int>,
                      t: Tree)
    requires Sound(b, cloud) && f <= l <= |i| && l - f > b.maxLeafSize && s == i[f..l] && InCloud(s, cloud)
    requires |Reordered(b, s)| == l - f && mid == f + (l - f) / 2 && i' == i[..f] + Reordered(b, s) + i[l..]
    requires t == Build(b, cloud, s, f)
    ensures InCloud(i'[f..mid], cloud) && InCloud(i'[mid..l], cloud)
    ensures t.Split? && t.axis == b.findAxis(s) && t.thresh == Projected(cloud, Reordered(b, s)[mid - f], t.axis)
    ensures t.left == Build(b, cloud, i'[f..mid], f) && t.right == Build(b, cloud, i'[mid..l], mid)
  {
    var r, m := Reordered(b, s), mid - f;
    SidesInCloud(b, cloud, s);
    assert i'[f..mid] == r[..m] && i'[mid..l] == r[m..];
    SidesOf(b, cloud, s, f, mid, m);
  }

  /** The body of a call, once it holds its node, stays within its range. */
  lemma BodyStaysInRange(b: Builder, cloud: seq<Vec>, f: nat, l: nat, id: nat, s: Shared)
    requires Sound(b, cloud) && f <= l <= |s.indices| && InCloud(s.indices, cloud) && InCloud(s.indices[f..l], cloud)
    ensures var (t', s') := Body(b, cloud, f, l, id, s);
      && t'.first == f && t'.last == l && Shape(t', |s.indices|)
      && Rearranges(s.indices, s'.indices, f, l, cloud)
  {
    if l - f > b.maxLeafSize {
      ForkRearranges(b, cloud, s.indices, f, l);
    }
  }

  /** And it leaves the tree to be built unchanged. */
  lemma BodyKeepsTree(b: Builder, cloud: seq<Vec>, f: nat, l: nat, id: nat, s: Shared, t': Task, i': seq<int>,
                      goal: Tree)
    requires Sound(b, cloud) && f <= l <= |s.indices| && InCloud(s.indices, cloud) && InCloud(s.indices[f..l], cloud)
      && l - f > b.maxLeafSize
    requires t' == Body(b, cloud, f, l, id, s).0 && i' == Body(b, cloud, f, l, id, s).1.indices && Shape(t', |i'|)
      && InCloud(i', cloud)
    requires goal == Build(b, cloud, s.indices[f..l], f)
    ensures Denote(b, cloud, t', i') == goal
  {
    hide Sound, Projected, Denote, Build, Shape;
    var mid := f + (l - f) / 2;
    SidesInCloud(b, cloud, s.indices[f..l]);
    ForkKeepsTree(b, cloud, s.indices, i', f, l, mid, s.indices[f..l], goal);
    SpawnedDenotes(b, cloud, i', f, mid, goal.left);
    SpawnedDenotes(b, cloud, i', mid, l, goal.right);
    ForkedDenotes(b, cloud, t', i', goal);
  }

  lemma ForkedDenotes(b: Builder, cloud: seq<Vec>, t: Task, i: seq<int>, goal: Tree)
    requires Sound(b, cloud) && Shape(t, |i|) && InCloud(i, cloud)
    requires t.Forked? && goal.Split? && t.axis == goal.axis && t.thresh == goal.thresh
    requires Denote(b, cloud, t.left, i) == goal.left && Denote(b, cloud, t.right, i) == goal.right
    ensures Denote(b, cloud, t, i) == goal
  {
  }

  lemma SpawnedDenotes(b: Builder, cloud: seq<Vec>, i: seq<int>, f: nat, l: nat, goal: Tree)
    requires Sound(b, cloud) && f <= l <= |i| && InCloud(i, cloud) && InCloud(i[f..l], cloud)
      && goal == Build(b, cloud, i[f..l], f)
    ensures Denote(b, cloud, Spawned(f, l), i) == goal
  {
  }

  /** What a move of task `t` to `t'` keeps: its range, every position outside it, and the tree to be built. */
  ghost predicate KeepsTree(b: Builder, cloud: seq<Vec>, t: Task, i: seq<int>, t': Task, i': seq<int>)
    requires Sound(b, cloud) && Shape(t, |i|) && InCloud(i, cloud)
  {
    && t'.first == t.first && t'.last == t.last && Rearranges(i, i', t.first, t.last, cloud) && Shape(t', |i'|)
    && Denote(b, cloud, t', i') == Denote(b, cloud, t, i)
  }

  /** A move inside one child is a move of the parent: the sibling's range is not touched. */
  lemma ChildKeepsTree(b: Builder, cloud: seq<Vec>, t: Task, i: seq<int>, c: Task, i': seq<int>, inLeft: bool)
    requires Sound(b, cloud) && Shape(t, |i|) && InCloud(i, cloud) && t.Forked?
    requires KeepsTree(b, cloud, if inLeft then t.left else t.right, i, c, i')
    ensures KeepsTree(b, cloud, t, i, WithChild(t, inLeft, c), i')
  {
    DenoteFrame(b, cloud, if inLeft then t.right else t.left, i, i');
  }

  /** Every move keeps the tree to be built. */
  lemma {:induction false} AdvanceKeepsTree(b: Builder, cloud: seq<Vec>, t: Task, s: Shared, m: Move)
    requires Sound(b, cloud) && Shape(t, |s.indices|) && InCloud(s.indices, cloud)
    ensures var (t', s') := Advance(b, cloud, t, s, m); KeepsTree(b, cloud, t, s.indices, t', s'.indices)
    decreases t
  {
    if t.Entered? && m.Here? {
      InCloudSlice(s.indices, cloud, t.first, t.last);
      BodyStaysInRange(b, cloud, t.first, t.last, t.id, s);
      if t.last - t.first > b.maxLeafSize {
        var (t', s') := Body(b, cloud, t.first, t.last, t.id, s);
        BodyKeepsTree(b, cloud, t.first, t.last, t.id, s, t', s'.indices, Denote(b, cloud, t, s.indices));
      }
    } else if t.Forked? && m.InChild? {
      var child := if m.left then t.left else t.right;
      AdvanceKeepsTree(b, cloud, child, s, m.inner);
      var (c, s') := Advance(b, cloud, child, s, m.inner);
      ChildKeepsTree(b, cloud, t, s.indices, c, s'.indices, m.left);
    }
  }

  // ---------------------------------------------------------------- node ids

  /** The nodes a call and the calls below it hold. */
  ghost function Held(t: Task): set<int> {
    match t
    case Spawned(_, _) => {}
    case Entered(_, _, id) => {id}
    case LeafDone(_, _, id) => {id}
    case Forked(_, _, id, _, _, left, right, _, _, _) => {id} + Held(left) + Held(right)
  }

  /** Nodes are held once, came from the counter, and children hold larger ones than their parent. */
  ghost predicate IdsOk(t: Task, counter: nat) {
    match t
    case Spawned(_, _) => true
    case Entered(_, _, id) => id < counter
    case LeafDone(_, _, id) => id < counter
    case Forked(_, _, id, _, _, left, right, _, _, _) =>
      && id < counter && IdsOk(left, counter) && IdsOk(right, counter)
      && Held(left) !! Held(right)
      && forall i :: i in Held(left) || i in Held(right) ==> id < i
  }

  lemma {:induction false} IdsOkFrame(t: Task, c: nat, c': nat)
    requires IdsOk(t, c) && c <= c'
    ensures IdsOk(t, c') && forall i :: i in Held(t) ==> 0 <= i < c
  {
    if t.Forked? {
      IdsOkFrame(t.left, c, c');
      IdsOkFrame(t.right, c, c');
    }
  }

  lemma BodyHolds(b: Builder, cloud: seq<Vec>, t: Task, s: Shared)
    requires Shape(t, |s.indices|) && t.Entered? ==> t.first <= t.last <= |s.indices|
    ensures Shape(t, |s.indices|) && t.Entered? ==>
      var (t', s') := Body(b, cloud, t.first, t.last, t.id, s);
        s'.counter == s.counter && Held(t') == Held(t) && IdsOk(t', s.counter) == IdsOk(t, s.counter)
  {
  }

  /** A move takes at most the next node, for the moving task. */
  lemma {:induction false} AdvanceKeepsIds(b: Builder, cloud: seq<Vec>, t: Task, s: Shared, m: Move)
    requires Shape(t, |s.indices|) && IdsOk(t, s.counter)
    ensures var (t', s') := Advance(b, cloud, t, s, m);
      && IdsOk(t', s'.counter)
      && ((s'.counter == s.counter && Held(t') == Held(t))
          || (s'.counter == s.counter + 1 && Held(t') == Held(t) + {s.counter}))
    decreases t
  {
    hide Body;
    BodyHolds(b, cloud, t, s);
    IdsOkFrame(t, s.counter, s.counter);
    if t.Forked? {
      IdsOkFrame(t.left, s.counter, s.counter + 1);
      IdsOkFrame(t.right, s.counter, s.counter + 1);
      if m.InChild? {
        AdvanceKeepsIds(b, cloud, if m.left then t.left else t.right, s, m.inner);
      }
    }
  }

  // ---------------------------------------------------------------- node contents

  /** The stored nodes agree with how far each call has got. */
  ghost predicate NodesOk(t: Task, nodes: seq<Node>) {
    match t
    case LeafDone(f, l, id) => id < |nodes| && nodes[id] == LeafNode(f, l)
    case Forked(_, _, id, axis, thresh, left, right, leftLinked, rightLinked, joined) =>
      && (leftLinked ==> Returned(left)) && (rightLinked ==> Returned(right)) && (joined ==> leftLinked && rightLinked)
      && id < |nodes|
      && nodes[id] == SplitNode(axis, thresh, if leftLinked then left.id else INVALID_NODE,
                                if rightLinked then right.id else INVALID_NODE)
      && NodesOk(left, nodes) && NodesOk(right, nodes)
    case _ => true
  }

  lemma {:induction false} NodesFrame(t: Task, nodes: seq<Node>, nodes': seq<Node>)
    requires NodesOk(t, nodes) && |nodes| == |nodes'|
    requires forall i :: i in Held(t) && 0 <= i < |nodes| ==> nodes'[i] == nodes[i]
    ensures NodesOk(t, nodes')
  {
    if t.Forked? {
      NodesFrame(t.left, nodes, nodes');
      NodesFrame(t.right, nodes, nodes');
    }
  }

  /** A returned call makes no further move. */
  lemma {:induction false} ReturnedStays(b: Builder, cloud: seq<Vec>, t: Task, s: Shared, m: Move)
    requires Shape(t, |s.indices|) && NodesOk(t, s.nodes) && Returned(t)
    ensures Advance(b, cloud, t, s, m) == (t, s)
    decreases t
  {
    if t.Forked? {
      if m.InChild? {
        ReturnedStays(b, cloud, if m.left then t.left else t.right, s, m.inner);
      }
    }
  }

  /** A move writes only nodes the moving call holds, and keeps every stored node in step with its call. */
  lemma {:induction false} AdvanceKeepsNodes(b: Builder, cloud: seq<Vec>, t: Task, s: Shared, m: Move)
    requires Shape(t, |s.indices|) && IdsOk(t, s.counter) && s.counter <= |s.nodes| && NodesOk(t, s.nodes)
    ensures var (t', s') := Advance(b, cloud, t, s, m);
      && |s'.nodes| == |s.nodes|
      && (forall i :: 0 <= i < |s.nodes| && i !in Held(t) ==> s'.nodes[i] == s.nodes[i])
      && NodesOk(t', s'.nodes)
    decreases t
  {
    if t.Forked? {
      var s' := Advance(b, cloud, t, s, m).1;
      if m.InChild? {
        var (child, sibling) := if m.left then (t.left, t.right) else (t.right, t.left);
        AdvanceKeepsNodes(b, cloud, child, s, m.inner);
        NodesFrame(sibling, s.nodes, s'.nodes);
        if Returned(child) {
          ReturnedStays(b, cloud, child, s, m.inner);
        }
      } else {
        NodesFrame(t.left, s.nodes, s'.nodes);
        NodesFrame(t.right, s.nodes, s'.nodes);
      }
    }
  }

  // ---------------------------------------------------------------- whole runs

  /** The calls below a task never hold more nodes than the finished tree has; a returned one holds exactly as many. */
  lemma {:induction false} HeldCount(b: Builder, cloud: seq<Vec>, t: Task, indices: seq<int>, nodes: seq<Node>,
                                     counter: nat)
    requires Sound(b, cloud) && Shape(t, |indices|) && InCloud(indices, cloud) && IdsOk(t, counter) && NodesOk(t, nodes)
    ensures |Held(t)| <= NodeCount(Denote(b, cloud, t, indices))
    ensures Returned(t) ==> |Held(t)| == NodeCount(Denote(b, cloud, t, indices))
    decreases t
  {
    if t.Forked? {
      HeldCount(b, cloud, t.left, indices, nodes, counter);
      HeldCount(b, cloud, t.right, indices, nodes, counter);
      assert |{t.id as int} + Held(t.left) + Held(t.right)| == 1 + |Held(t.left)| + |Held(t.right)|;
    }
  }

  /** A returned call has stored the tree it denotes. */
  lemma {:induction false} ReturnedIsStored(b: Builder, cloud: seq<Vec>, t: Task, indices: seq<int>, nodes: seq<Node>,
                                            counter: nat)
    requires Sound(b, cloud) && Shape(t, |indices|) && InCloud(indices, cloud)
    requires IdsOk(t, counter) && NodesOk(t, nodes) && Returned(t) && counter <= |nodes|
    ensures Represents(Denote(b, cloud, t, indices), nodes, counter, indices, t.id)
    decreases t
  {
    if t.Forked? {
      ReturnedIsStored(b, cloud, t.left, indices, nodes, counter);
      ReturnedIsStored(b, cloud, t.right, indices, nodes, counter);
      assert t.left.id in Held(t.left) && t.right.id in Held(t.right);
    }
  }

  ghost function Run(b: Builder, cloud: seq<Vec>, t: Task, s: Shared, schedule: seq<Move>): (Task, Shared)
    requires Sound(b, cloud) && Shape(t, |s.indices|) && InCloud(s.indices, cloud)
    decreases |schedule|
  {
    if schedule == [] then (t, s)
    else
      AdvanceKeepsTree(b, cloud, t, s, schedule[0]);
      var (t', s') := Advance(b, cloud, t, s, schedule[0]);
      Run(b, cloud, t', s', schedule[1..])
  }

  /** The state of the whole build: the ids handed out are exactly those below the counter and all in bounds,
      the index array is a permutation, and the tree under construction is `goal`. */
  ghost predicate BuildOk(b: Builder, cloud: seq<Vec>, t: Task, s: Shared, goal: Tree)
    requires Sound(b, cloud)
  {
    && Shape(t, |s.indices|) && InCloud(s.indices, cloud) && multiset(s.indices) == multiset(Iota(|cloud|))
    && Denote(b, cloud, t, s.indices) == goal
    && IdsOk(t, s.counter) && Held(t) == Below(s.counter)
    && s.counter <= |s.nodes| == |cloud| && NodesOk(t, s.nodes)
  }

  lemma AdvanceKeepsBuild(b: Builder, cloud: seq<Vec>, t: Task, s: Shared, m: Move, goal: Tree)
    requires Sound(b, cloud) && BuildOk(b, cloud, t, s, goal) && NodeCount(goal) <= |cloud|
    ensures var (t', s') := Advance(b, cloud, t, s, m); BuildOk(b, cloud, t', s', goal)
  {
    hide Sound, Advance, Denote, Held, IdsOk, NodesOk, Shape, NodeCount, SameOutside, InCloud;
    AdvanceKeepsTree(b, cloud, t, s, m);
    AdvanceKeepsIds(b, cloud, t, s, m);
    AdvanceKeepsNodes(b, cloud, t, s, m);
    var (t', s') := Advance(b, cloud, t, s, m);
    assert Held(t') == Below(s'.counter);
    HeldCount(b, cloud, t', s'.indices, s'.nodes, s'.counter);
    BelowCount(s'.counter);
  }

  lemma {:induction false} RunKeepsBuild(b: Builder, cloud: seq<Vec>, t: Task, s: Shared, schedule: seq<Move>,
                                         goal: Tree)
    requires Sound(b, cloud) && BuildOk(b, cloud, t, s, goal) && NodeCount(goal) <= |cloud|
    ensures var (t', s') := Run(b, cloud, t, s, schedule); BuildOk(b, cloud, t', s', goal)
    decreases |schedule|
  {
    if schedule != [] {
      AdvanceKeepsBuild(b, cloud, t, s, schedule[0], goal);
      var (t', s') := Advance(b, cloud, t, s, schedule[0]);
      RunKeepsBuild(b, cloud, t', s', schedule[1..], goal);
    }
  }

  /** For every interleaving: nodes stay in bounds and are handed out as 0, 1, 2, ...; the indices stay a permutation;
      and once the root call has returned, node 0 stores exactly the tree of the sequential builder. */
  lemma ParallelBuildIsSequentialTree(b: Builder, cloud: seq<Vec>, blank: seq<Node>, schedule: seq<Move>)
    requires |cloud| > 0 && Sound(b, cloud) && b.maxLeafSize >= 3 && |blank| == |cloud|
    ensures var (t, s) := Run(b, cloud, Spawned(0, |cloud|), Shared(Iota(|cloud|), blank, 0), schedule);
      var goal := Build(b, cloud, Iota(|cloud|), 0);
      && s.counter <= |cloud| && Held(t) == Below(s.counter)
      && multiset(s.indices) == multiset(Iota(|cloud|))
      && (Returned(t) ==>
          t.id == 0 && s.counter == NodeCount(goal) && Represents(goal, s.nodes, s.counter, s.indices, 0))
  {
    hide Sound, Run, BuildOk, Represents, NodeCount, Build, Held, Nodes;
    var n := |cloud|;
    var goal := Build(b, cloud, Iota(n), 0);
    StartIsOk(b, cloud, blank, goal);
    RunKeepsBuild(b, cloud, Spawned(0, n), Shared(Iota(n), blank, 0), schedule, goal);
    var (t, s) := Run(b, cloud, Spawned(0, n), Shared(Iota(n), blank, 0), schedule);
    EndIsTree(b, cloud, t, s, goal);
  }

  lemma {:induction false} StartIsOk(b: Builder, cloud: seq<Vec>, blank: seq<Node>, goal: Tree)
    requires |cloud| > 0 && Sound(b, cloud) && b.maxLeafSize >= 3 && |blank| == |cloud|
      && goal == Build(b, cloud, Iota(|cloud|), 0)
    ensures NodeCount(goal) <= |cloud| && BuildOk(b, cloud, Spawned(0, |cloud|), Shared(Iota(|cloud|), blank, 0), goal)
  {
    hide Sound;
    var n := |cloud|;
    BuildIsWellFormed(b, cloud, Iota(n), 0, goal);
    NodesFitExactlyFromThree(b.maxLeafSize);
    assert Nodes(n, b.maxLeafSize) <= n;
    assert Iota(n)[0..n] == Iota(n);
    assert Held(Spawned(0, n)) == Below(0);
  }

  lemma {:induction false} EndIsTree(b: Builder, cloud: seq<Vec>, t: Task, s: Shared, goal: Tree)
    requires Sound(b, cloud) && BuildOk(b, cloud, t, s, goal)
    ensures s.counter <= |cloud| && Held(t) == Below(s.counter) && multiset(s.indices) == multiset(Iota(|cloud|))
    ensures Returned(t) ==>
      t.id == 0 && s.counter == NodeCount(goal) && Represents(goal, s.nodes, s.counter, s.indices, 0)
  {
    hide Sound, Denote, Shape, InCloud, Represents, NodesOk;
    if Returned(t) {
      HeldCount(b, cloud, t, s.indices, s.nodes, s.counter);
      BelowCount(s.counter);
      ReturnedIsStored(b, cloud, t, s.indices, s.nodes, s.counter);
      RootIsFirst(t, s.counter);
    }
  }

  /** The root holds the smallest node. */
  lemma {:induction false} RootIsFirst(t: Task, counter: nat)
    requires IdsOk(t, counter) && Held(t) == Below(counter) && Returned(t)
    ensures t.id == 0
  {
    assert t.id in Held(t);
    assert t.id < counter;
    assert 0 in Held(t);
  }

  // ---------------------------------------------------------------- progress and termination

  /** Moves still to be made. */
  ghost function Remaining(b: Builder, t: Task): nat
    requires b.maxLeafSize >= 1
  {
    match t
    case Spawned(f, l) => 5 * Nodes(if f <= l then l - f else 0, b.maxLeafSize)
    case Entered(f, l, _) => 5 * Nodes(if f <= l then l - f else 0, b.maxLeafSize) - 1
    case LeafDone(_, _, _) => 0
    case Forked(_, _, _, _, _, left, right, ll, rl, joined) =>
      Remaining(b, left) + Remaining(b, right) + (if ll then 0 else 1) + (if rl then 0 else 1) + if joined then 0 else 1
  }

  /** Every move that changes anything brings the build closer to its end. */
  lemma {:induction false} MovesDecrease(b: Builder, cloud: seq<Vec>, t: Task, s: Shared, m: Move)
    requires b.maxLeafSize >= 1 && Shape(t, |s.indices|) && Advance(b, cloud, t, s, m).0 != t
    ensures Remaining(b, Advance(b, cloud, t, s, m).0) < Remaining(b, t)
    decreases t
  {
    if t.Forked? {
      if m.InChild? {
        MovesDecrease(b, cloud, if m.left then t.left else t.right, s, m.inner);
      }
    }
  }

  /** No deadlock: a call that has not returned has a move. */
  lemma {:induction false} SomeMoveIsEnabled(b: Builder, cloud: seq<Vec>, t: Task, s: Shared) returns (m: Move)
    requires Shape(t, |s.indices|) && NodesOk(t, s.nodes) && !Returned(t)
    ensures Advance(b, cloud, t, s, m).0 != t
    decreases t
  {
    m := Here;
    if t.Forked? {
      if !Returned(t.left) {
        var inner := SomeMoveIsEnabled(b, cloud, t.left, s);
        m := InChild(true, inner);
      } else if !Returned(t.right) {
        var inner := SomeMoveIsEnabled(b, cloud, t.right, s);
        m := InChild(false, inner);
      } else if !t.leftLinked {
        m := LinkChild(true);
      } else if !t.rightLinked {
        m := LinkChild(false);
      }
    }
  }

  // ---------------------------------------------------------------- the whole build, and a search of its tree

  /** The parallel build: an arbitrary enabled move at a time until the root call has returned. */
  method BuildTree(b: Builder, cloud: seq<Vec>) returns (tree: UnsafeKdTree, ghost goal: Tree)
    requires |cloud| > 0 && Sound(b, cloud) && b.maxLeafSize >= 3
    ensures fresh(tree) && tree.points == cloud && tree.root == 0
    ensures goal == Build(b, cloud, Iota(|cloud|), 0)
    ensures tree.Stores(goal, tree.root) && IdSet(goal) == Below(|cloud|)
    ensures |tree.nodes| == NodeCount(goal) <= |cloud|
  {
    hide Sound, BuildOk, Build, Advance, NodesOk, Represents, NodeCount, Held;
    var n := |cloud|;
    var t, s := Spawned(0, n), Shared(Iota(n), seq(n, _ => LeafNode(0, 0)), 0);
    goal := Build(b, cloud, Iota(n), 0);
    StartIsOk(b, cloud, s.nodes, goal);
    while !Returned(t)
      invariant BuildOk(b, cloud, t, s, goal)
      decreases Remaining(b, t)
    {
      BuildIsShaped(b, cloud, t, s, goal);
      ghost var some := SomeMoveIsEnabled(b, cloud, t, s);
      var m: Move :| Advance(b, cloud, t, s, m).0 != t;
      MovesDecrease(b, cloud, t, s, m);
      AdvanceKeepsBuild(b, cloud, t, s, m, goal);
      var next := Advance(b, cloud, t, s, m);
      t, s := next.0, next.1;
    }
    BuildIsShaped(b, cloud, t, s, goal);
    EndIsTree(b, cloud, t, s, goal);
    EndIsStored(b, cloud, s, goal);
    tree := new UnsafeKdTree(cloud, s.indices, s.nodes[..s.counter], t.id);
  }

  lemma BuildIsShaped(b: Builder, cloud: seq<Vec>, t: Task, s: Shared, goal: Tree)
    requires Sound(b, cloud) && BuildOk(b, cloud, t, s, goal)
    ensures Shape(t, |s.indices|) && NodesOk(t, s.nodes) && s.counter <= |s.nodes|
  {
  }

  /** Cutting the node array down to the nodes handed out leaves the tree stored. */
  lemma EndIsStored(b: Builder, cloud: seq<Vec>, s: Shared, goal: Tree)
    requires |cloud| > 0 && Sound(b, cloud) && b.maxLeafSize >= 3 && goal == Build(b, cloud, Iota(|cloud|), 0)
    requires s.counter <= |s.nodes| && Represents(goal, s.nodes, s.counter, s.indices, 0)
    ensures Represents(goal, s.nodes[..s.counter], s.counter, s.indices, 0)
    ensures InCloud(Ids(goal), cloud) && Separated(goal, cloud) && DistinctIds(Ids(goal))
      && IdSet(goal) == Below(|cloud|)
    ensures NodeCount(goal) <= |cloud|
  {
    hide Sound, Build, Represents, Separated;
    var start := Iota(|cloud|);
    BuildIsWellFormed(b, cloud, start, 0, goal);
    NodesFitExactlyFromThree(b.maxLeafSize);
    assert Nodes(|cloud|, b.maxLeafSize) <= |cloud|;
    RepresentsFrame(goal, s.nodes, s.counter, s.indices, 0, s.nodes[..s.counter], s.counter, s.indices, 0);
    PermutationIsDistinct(Ids(goal), start);
    IotaElems(goal, start, |cloud|);
  }

  /** Building in parallel, under any interleaving, and searching with epsilon 0 finds exactly the k nearest points of
      the cloud. */
  method BuildAndSearch(b: Builder, cloud: seq<Vec>, query: Vec, k: nat, kIndices: array<int>, kSqDists: array<real>,
                        far: real, invalid: int)
    returns (found: nat, ghost entries: seq<Entry>)
    requires |cloud| > 0 && Sound(b, cloud) && b.maxLeafSize >= 3
    requires 0 < k && kIndices.Length == kSqDists.Length == k && far >= 0.0
    modifies kIndices, kSqDists
    ensures found == |entries| <= k && forall a :: 0 <= a < found ==> Entry(kSqDists[a], kIndices[a]) == entries[a]
    ensures Unused(kIndices, kSqDists, found, k, far, invalid)
    ensures IsKNearest(entries, Distances(cloud, query, Below(|cloud|), far), k, false)
  {
    hide Sound, IsKNearest, Build;
    var tree, t := BuildTree(b, cloud);
    ghost var seen;
    found, entries, seen := tree.KnnSearch(query, k, kIndices, kSqDists, 0.0, far, invalid, t);
  }
}
