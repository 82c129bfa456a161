/** The flow-graph odometry: preprocessing and registration run in any order on any number of threads, between two
    sequencers and two serial nodes. */
module FlowGraph {
  /** The opaque computations: preprocessing a scan, aligning two preprocessed scans, and composing poses. */
  datatype Params<!Raw, !Pre, !Pose> =
    Params(preprocess: Raw -> Pre, align: (Pre, Pre) -> Pose, identity: Pose, compose: (Pose, Pose) -> Pose)

  /** The points of a frame, which preprocessing replaces. */
  datatype Cell<Raw, Pre> = RawCell(raw: Raw) | PreCell(pre: Pre)

  /** The frame that a registration aligns to: none, one left over from an earlier call, or one of this call. */
  datatype Target<Pre> = NoFrame | Earlier(pre: Pre) | Own(id: nat)

  // ---------------------------------------------------------------- the trajectory that the graph should produce

  /** The alignment of frame i to its predecessor, the first one to the frame that the pairing node remembers. */
  ghost function Alignment<Raw, Pre, Pose>(p: Params<Raw, Pre, Pose>, raws: seq<Raw>, first: Target<Pre>, i: nat): Pose
    requires i < |raws| && !first.Own?
  {
    if i > 0 then p.align(p.preprocess(raws[i - 1]), p.preprocess(raws[i]))
    else if first.Earlier? then p.align(first.pre, p.preprocess(raws[0]))
    else p.identity
  }

  /** The ordered product of the alignments up to frame i. */
  ghost function PoseAt<Raw, Pre, Pose>(p: Params<Raw, Pre, Pose>, raws: seq<Raw>, first: Target<Pre>, i: nat): Pose
    requires i < |raws| && !first.Own?
  {
    if i == 0 then Alignment(p, raws, first, 0)
    else p.compose(PoseAt(p, raws, first, i - 1), Alignment(p, raws, first, i))
  }

  /** Consecutive numbers from `lo` to `hi`. */
  ghost predicate Consecutive(s: seq<nat>, lo: nat, hi: nat) {
    lo <= hi && |s| == hi - lo && forall j :: 0 <= j < |s| ==> s[j] == lo + j
  }

  lemma {:induction false} Subset(s: set<nat>, lo: int, hi: int)
    requires lo <= hi && forall i :: i in s ==> lo <= i < hi
    ensures |s| <= hi - lo
    decreases hi - lo
  {
    if lo < hi {
      Subset(s - {hi - 1}, lo, hi - 1);
    } else {
      assert s == {};
    }
  }

  lemma OneLess<K, V>(m: map<K, V>, k: K)
    requires k in m
    ensures |m - {k}| == |m| - 1
  {
    assert (m - {k}).Keys == m.Keys - {k};
    assert |m| == |m.Keys|;
  }

  // ---------------------------------------------------------------- the graph

  class FlowGraph<Raw, Pre, Pose> {
    const p: Params<Raw, Pre, Pose>
    const raws: seq<Raw>
    const first: Target<Pre>            // the static last frame on entry
    var cells: seq<Cell<Raw, Pre>>      // the frames' points
    var fed: nat                        // frames put into the input node
    var preprocessing: set<nat>         // frames in the preprocessing node
    var sequencer1: set<nat>            // frames buffered in front of the pairing node
    var next1: nat                      // the id that the first sequencer waits for
    var pairQueue: seq<nat>
    var last: Target<Pre>               // the static last frame
    var registering: map<nat, Target<Pre>>
    var aligned: map<nat, Pose>         // T_last_current of the registered frames
    var sequencer2: set<nat>
    var next2: nat
    var outQueue: seq<nat>
    var traj: seq<Pose>
    var unprepared: bool                // whether a registration ever read a frame that was not preprocessed

    /** The number of frames that the pairing node has passed on. */
    ghost function Paired(): int
      reads this`next1, this`pairQueue
    {
      next1 - |pairQueue|
    }

    ghost predicate FrontOk()
      reads this`cells, this`fed, this`next1, this`preprocessing, this`sequencer1
    {
      && |cells| == |raws| && fed <= |raws| && next1 <= fed
      && (forall i :: i in preprocessing ==> next1 <= i < fed && i !in sequencer1)
      && (forall i :: i in sequencer1 ==> next1 <= i < fed)
      && (forall i :: next1 <= i < fed ==> i in preprocessing || i in sequencer1)
      && (forall i :: 0 <= i < fed && i !in preprocessing ==> cells[i] == PreCell(p.preprocess(raws[i])))
      && (forall i :: i in preprocessing || fed <= i < |raws| ==> cells[i] == RawCell(raws[i]))
    }

    ghost predicate PairingOk()
      reads this`next1, this`pairQueue, this`last
    {
      && !first.Own? && Paired() >= 0 && Consecutive(pairQueue, Paired(), next1)
      && last == if Paired() == 0 then first else Own(Paired() - 1)
    }

    ghost predicate BackOk()
      reads this`next1, this`pairQueue, this`registering, this`aligned, this`sequencer2, this`next2, this`unprepared
    {
      && !unprepared && next2 <= Paired() <= |raws| && !first.Own?
      && (forall i :: i in registering ==>
          next2 <= i < Paired() && i !in sequencer2 && registering[i] == if i == 0 then first else Own(i - 1))
      && (forall i :: i in sequencer2 ==> next2 <= i < Paired())
      && (forall i :: next2 <= i < Paired() ==> i in registering || i in sequencer2)
      && (forall i :: i in aligned <==> 0 <= i < Paired() && i !in registering)
      && (forall i :: i in aligned ==> i < |raws| && aligned[i] == Alignment(p, raws, first, i))
    }

    ghost predicate OutputOk()
      reads this`next2, this`outQueue, this`traj
    {
      && !first.Own? && |traj| <= next2 <= |raws| && Consecutive(outQueue, |traj|, next2)
      && forall i :: 0 <= i < |traj| ==> traj[i] == PoseAt(p, raws, first, i)
    }

    ghost predicate Valid()
      reads this
    {
      FrontOk() && PairingOk() && BackOk() && OutputOk()
    }

    /** How many times a frame still has to move. */
    ghost function MovesLeft(): nat
      requires Valid()
      reads this
    {
      Subset(preprocessing, next1, fed);
      Subset(registering.Keys, next2, Paired());
      assert |registering| == |registering.Keys|;
      7 * |raws| - fed - (fed - |preprocessing|) - next1 - Paired() - (Paired() - |registering|) - next2 - |traj|
    }

    lemma Moves()
      requires Valid()
      ensures MovesLeft()
        == 7 * |raws| - fed - (fed - |preprocessing|) - next1 - Paired() - (Paired() - |registering|) - next2 - |traj|
    {
    }

    constructor (p: Params<Raw, Pre, Pose>, raws: seq<Raw>, first: Target<Pre>)
      requires !first.Own?
      ensures Valid() && this.p == p && this.raws == raws && this.first == first
    {
      this.p, this.raws, this.first := p, raws, first;
      cells := seq(|raws|, i requires 0 <= i < |raws| => RawCell(raws[i]));
      fed, preprocessing, sequencer1, next1, pairQueue, last := 0, {}, {}, 0, [], first;
      registering, aligned, sequencer2, next2, outQueue, traj, unprepared := map[], map[], {}, 0, [], [], false;
    }

    /** The input node broadcasts the next frame. */
    method Feed()
      requires Valid() && fed < |raws|
      modifies this`fed, this`preprocessing
      ensures fed == old(fed) + 1 && preprocessing == old(preprocessing) + {old(fed)}
      ensures Valid() && MovesLeft() < old(MovesLeft())
    {
      hide PairingOk, BackOk, OutputOk;
      preprocessing, fed := preprocessing + {fed}, fed + 1;
    }

    /** The preprocessing node finishes a frame. */
    method Preprocess(i: nat)
      requires Valid() && i in preprocessing
      modifies this`cells, this`preprocessing, this`sequencer1
      ensures i < |raws| && |old(cells)| == |raws| && cells == old(cells)[i := PreCell(p.preprocess(raws[i]))]
      ensures preprocessing == old(preprocessing) - {i} && sequencer1 == old(sequencer1) + {i}
      ensures Valid() && MovesLeft() < old(MovesLeft())
    {
      hide PairingOk, BackOk, OutputOk;
      cells := cells[i := PreCell(p.preprocess(raws[i]))];
      preprocessing, sequencer1 := preprocessing - {i}, sequencer1 + {i};
    }

    /** The first sequencer emits the id it waits for. */
    method Sequence1()
      requires Valid() && next1 in sequencer1
      modifies this`sequencer1, this`next1, this`pairQueue
      ensures sequencer1 == old(sequencer1) - {old(next1)} && pairQueue == old(pairQueue) + [old(next1)]
        && next1 == old(next1) + 1
      ensures Valid() && MovesLeft() < old(MovesLeft())
    {
      hide PoseAt, Alignment, OutputOk;
      sequencer1, pairQueue, next1 := sequencer1 - {next1}, pairQueue + [next1], next1 + 1;
    }

    /** The pairing node pairs the frame at the head of its queue with the one before. */
    method Pair()
      requires Valid() && pairQueue != []
      modifies this`pairQueue, this`last, this`registering
      ensures var id := old(pairQueue)[0];
        registering == old(registering)[id := old(last)] && last == Own(id) && pairQueue == old(pairQueue)[1..]
      ensures Valid() && MovesLeft() < old(MovesLeft())
    {
      hide PoseAt, Alignment, FrontOk, OutputOk;
      FrontBounds();
      var id := pairQueue[0];
      registering := registering[id := last];
      last := Own(id);
      pairQueue := pairQueue[1..];
    }

    lemma FrontBounds()
      requires FrontOk()
      ensures next1 <= fed <= |raws|
    {
    }

    lemma PreparedFrame(i: nat)
      requires FrontOk() && i < next1
      ensures i < |raws| == |cells| && cells[i] == PreCell(p.preprocess(raws[i]))
    {
    }

    /** What a registration computes: identity without a target, else the alignment of the points it reads; and whether
        they were raw. */
    method AlignPair(id: nat, target: Target<Pre>) returns (pose: Pose, raw: bool)
      requires FrontOk() && !first.Own? && id < next1 && target == (if id == 0 then first else Own(id - 1))
      ensures id < |raws| && pose == Alignment(p, raws, first, id) && !raw
    {
      hide FrontOk;
      PreparedFrame(id);
      pose, raw := p.identity, false;
      if !target.NoFrame? {
        if target.Own? {
          PreparedFrame(target.id);
        }
        var to := if target.Earlier? then PreCell(target.pre) else cells[target.id];
        raw := to.RawCell? || cells[id].RawCell?;
        pose := if to.PreCell? && cells[id].PreCell? then p.align(to.pre, cells[id].pre) else p.identity;
      }
    }

    lemma RegisteringAt(id: nat)
      requires BackOk() && PairingOk() && id in registering
      ensures !first.Own? && id < Paired() <= next1 && registering[id] == if id == 0 then first else Own(id - 1)
    {
    }

    method Store(id: nat, pose: Pose, raw: bool)
      requires BackOk() && id in registering && !first.Own? && id < |raws| && pose == Alignment(p, raws, first, id)
        && !raw
      modifies this`registering, this`aligned, this`sequencer2, this`unprepared
      ensures BackOk() && registering == old(registering) - {id} && sequencer2 == old(sequencer2) + {id}
      ensures aligned == old(aligned)[id := pose] && !unprepared
    {
      hide Alignment;
      aligned, unprepared := aligned[id := pose], unprepared || raw;
      registering, sequencer2 := registering - {id}, sequencer2 + {id};
    }

    /** A registration reads the points of its pair and stores the alignment in its source frame. */
    method Register(id: nat)
      requires Valid() && id in registering
      modifies this`registering, this`aligned, this`sequencer2, this`unprepared
      ensures id < |raws| && !first.Own? && aligned == old(aligned)[id := Alignment(p, raws, first, id)]
      ensures registering == old(registering) - {id} && sequencer2 == old(sequencer2) + {id} && !unprepared
      ensures Valid() && MovesLeft() < old(MovesLeft())
    {
      hide Consecutive, PoseAt, Alignment, FrontOk, OutputOk, PairingOk, BackOk, MovesLeft;
      RegisteringAt(id);
      Moves();
      var pose, raw := AlignPair(id, registering[id]);
      OneLess(registering, id);
      Store(id, pose, raw);
      Moves();
    }

    /** The second sequencer emits the id it waits for. */
    method Sequence2()
      requires Valid() && next2 in sequencer2
      modifies this`sequencer2, this`next2, this`outQueue
      ensures sequencer2 == old(sequencer2) - {old(next2)} && outQueue == old(outQueue) + [old(next2)]
        && next2 == old(next2) + 1
      ensures Valid() && MovesLeft() < old(MovesLeft())
    {
      hide PoseAt, Alignment, FrontOk, PairingOk;
      sequencer2, outQueue, next2 := sequencer2 - {next2}, outQueue + [next2], next2 + 1;
    }

    /** The output node appends the next pose. */
    method Output()
      requires Valid() && outQueue != []
      modifies this`outQueue, this`traj
      ensures |old(traj)| < |raws| && !first.Own? && traj == old(traj) + [PoseAt(p, raws, first, |old(traj)|)]
        && outQueue == old(outQueue)[1..]
      ensures Valid() && MovesLeft() < old(MovesLeft())
    {
      hide Alignment, FrontOk, PairingOk;
      var id := outQueue[0];
      traj := traj + [if traj == [] then aligned[id] else p.compose(traj[|traj| - 1], aligned[id])];
      outQueue := outQueue[1..];
    }

    /** When nothing can move any more, every frame has been output. */
    lemma IdleMeansDone()
      requires Valid() && fed >= |raws| && preprocessing == {} && next1 !in sequencer1 && pairQueue == []
      requires registering.Keys == {} && next2 !in sequencer2 && outQueue == []
      ensures |traj| == |raws| && !first.Own? && forall i :: 0 <= i < |traj| ==> traj[i] == PoseAt(p, raws, first, i)
      ensures last == if |raws| == 0 then first else Own(|raws| - 1)
      ensures |cells| == |raws| && forall i :: 0 <= i < |cells| ==> cells[i] == PreCell(p.preprocess(raws[i]))
    {
    }
  }

  /** Feeds all frames and waits until the graph is idle: whatever the schedule, it ends, no registration reads a frame
      that was not preprocessed, and pose i is the ordered product of the alignments up to frame i. */
  method Estimate<Raw, Pre, Pose>(p: Params<Raw, Pre, Pose>, raws: seq<Raw>, lastFrame: Target<Pre>)
    returns (traj: seq<Pose>, next: Target<Pre>)
    requires !lastFrame.Own?
    ensures |traj| == |raws| && forall i :: 0 <= i < |raws| ==> traj[i] == PoseAt(p, raws, lastFrame, i)
    ensures next == if |raws| == 0 then lastFrame else Earlier(p.preprocess(raws[|raws| - 1]))
  {
    hide PoseAt, Alignment, FlowGraph.Valid, FlowGraph.MovesLeft;
    var graph := new FlowGraph(p, raws, lastFrame);
    while
      invariant graph.Valid() && graph.p == p && graph.raws == raws && graph.first == lastFrame
      invariant fresh(graph)
      decreases graph.MovesLeft()
    {
      case graph.fed < |raws| => graph.Feed();
      case graph.preprocessing != {} =>
        var i :| i in graph.preprocessing;
        graph.Preprocess(i);
      case graph.next1 in graph.sequencer1 => graph.Sequence1();
      case graph.pairQueue != [] => graph.Pair();
      case graph.registering.Keys != {} =>
        var i :| i in graph.registering;
        graph.Register(i);
      case graph.next2 in graph.sequencer2 => graph.Sequence2();
      case graph.outQueue != [] => graph.Output();
    }
    graph.IdleMeansDone();
    traj := graph.traj;
    next := if graph.last.Own? then Earlier(graph.cells[graph.last.id].pre) else graph.last;
  }

  // ---------------------------------------------------------------- the frame left over from an earlier call

  /** Composition is associative with the identity as its unit. */
  ghost predicate Composes<Raw, Pre, Pose(!new)>(p: Params<Raw, Pre, Pose>) {
    && (forall x, y, z :: p.compose(p.compose(x, y), z) == p.compose(x, p.compose(y, z)))
    && (forall x :: p.compose(x, p.identity) == x && p.compose(p.identity, x) == x)
  }

  /** The trajectory of a later call is that of a first call moved by the alignment of its first frame to the one left
      over. */
  lemma {:induction false} LaterCall<Raw, Pre, Pose(!new)>(p: Params<Raw, Pre, Pose>, raws: seq<Raw>, pre: Pre, i: nat)
    requires Composes(p) && i < |raws|
    ensures PoseAt(p, raws, Earlier(pre), i)
      == p.compose(p.align(pre, p.preprocess(raws[0])), PoseAt(p, raws, NoFrame, i))
  {
    if i > 0 {
      LaterCall(p, raws, pre, i - 1);
    }
  }

  /** So a call with a frame left over yields the trajectory of a first call exactly when that alignment is the
      identity. */
  lemma {:induction false} LaterCallAgrees<Raw, Pre, Pose(!new)>(p: Params<Raw, Pre, Pose>, raws: seq<Raw>, pre: Pre)
    requires Composes(p) && |raws| > 0
    ensures (forall i :: 0 <= i < |raws| ==> PoseAt(p, raws, Earlier(pre), i) == PoseAt(p, raws, NoFrame, i))
      <==> p.align(pre, p.preprocess(raws[0])) == p.identity
  {
    var x := p.align(pre, p.preprocess(raws[0]));
    FirstPoses(p, raws, pre);
    forall i | 0 <= i < |raws|
      ensures x == p.identity ==> PoseAt(p, raws, Earlier(pre), i) == PoseAt(p, raws, NoFrame, i)
    {
      hide PoseAt;
      LaterCall(p, raws, pre, i);
    }
  }

  lemma FirstPoses<Raw, Pre, Pose>(p: Params<Raw, Pre, Pose>, raws: seq<Raw>, pre: Pre)
    requires |raws| > 0
    ensures PoseAt(p, raws, Earlier(pre), 0) == p.align(pre, p.preprocess(raws[0]))
      && PoseAt(p, raws, NoFrame, 0) == p.identity
  {
  }

  // ---------------------------------------------------------------- registrations that are right

  /** Every pose has an inverse. */
  ghost predicate Inverts<Raw, Pre, Pose(!new)>(p: Params<Raw, Pre, Pose>, inverse: Pose -> Pose) {
    forall x :: p.compose(x, inverse(x)) == p.identity && p.compose(inverse(x), x) == p.identity
  }

  /** Aligning two preprocessed scans yields the motion from the true pose of the first to that of the second. */
  ghost predicate Truthful<Raw(!new), Pre,
    Pose(!new)>(p: Params<Raw, Pre, Pose>, inverse: Pose -> Pose, truth: Raw -> Pose) {
    forall x, y :: p.align(p.preprocess(x), p.preprocess(y)) == p.compose(inverse(truth(x)), truth(y))
  }

  /** The scan at which the trajectory starts: the one left over, or the first. */
  ghost function Origin<Raw>(raws: seq<Raw>, before: seq<Raw>): Raw
    requires |raws| > 0
  {
    if before == [] then raws[0] else before[|before| - 1]
  }

  ghost function Remembered<Raw, Pre, Pose>(p: Params<Raw, Pre, Pose>, before: seq<Raw>): Target<Pre> {
    if before == [] then NoFrame else Earlier(p.preprocess(before[|before| - 1]))
  }

  lemma Associates<Raw, Pre, Pose(!new)>(p: Params<Raw, Pre, Pose>, x: Pose, y: Pose, z: Pose)
    requires Composes(p)
    ensures p.compose(p.compose(x, y), z) == p.compose(x, p.compose(y, z))
    ensures p.compose(p.identity, x) == x
  {
  }

  lemma Cancels<Raw, Pre, Pose(!new)>(p: Params<Raw, Pre, Pose>, inverse: Pose -> Pose, x: Pose)
    requires Inverts(p, inverse)
    ensures p.compose(x, inverse(x)) == p.identity && p.compose(inverse(x), x) == p.identity
  {
  }

  lemma Aligns<Raw(!new), Pre, Pose(!new)>(p: Params<Raw, Pre, Pose>, inverse: Pose -> Pose, truth: Raw -> Pose, x: Raw,
                                           y: Raw)
    requires Truthful(p, inverse, truth)
    ensures p.align(p.preprocess(x), p.preprocess(y)) == p.compose(inverse(truth(x)), truth(y))
  {
  }

  lemma Chain<Raw, Pre, Pose(!new)>(p: Params<Raw, Pre, Pose>, inverse: Pose -> Pose, x: Pose, y: Pose, z: Pose)
    requires Composes(p) && Inverts(p, inverse)
    ensures p.compose(p.compose(x, y), p.compose(inverse(y), z)) == p.compose(x, z)
  {
    hide Composes, Inverts;
    Associates(p, x, y, p.compose(inverse(y), z));
    Associates(p, y, inverse(y), z);
    Associates(p, z, z, z);
    Cancels(p, inverse, y);
  }

  /** If the registrations are right, pose i is the true motion from the origin to frame i: from the first frame on a
      first call, from the last frame of the scans before on a later one. */
  lemma {:induction false} TrueTrajectory<Raw(!new), Pre, Pose(!new)>(p: Params<Raw, Pre, Pose>, inverse: Pose -> Pose,
                                                                      truth: Raw -> Pose, raws: seq<Raw>,
                                                                      before: seq<Raw>, i: nat)
    requires Composes(p) && Inverts(p, inverse) && Truthful(p, inverse, truth) && i < |raws|
    ensures PoseAt(p, raws, Remembered(p, before), i)
      == p.compose(inverse(truth(Origin(raws, before))), truth(raws[i]))
  {
    hide Composes, Inverts, Truthful;
    if i == 0 {
      if before == [] {
        Cancels(p, inverse, truth(raws[0]));
      } else {
        Aligns(p, inverse, truth, before[|before| - 1], raws[0]);
      }
    } else {
      TrueTrajectory(p, inverse, truth, raws, before, i - 1);
      Aligns(p, inverse, truth, raws[i - 1], raws[i]);
      Chain(p, inverse, inverse(truth(Origin(raws, before))), truth(raws[i - 1]), truth(raws[i]));
    }
  }
}
