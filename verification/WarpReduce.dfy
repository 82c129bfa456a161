/** The shuffle-down reduction of a warp: 32 lanes, offsets 16, 8, 4, 2, 1, result in lane 0. */
module WarpReduce {
  /** The indices a lane visits: its own, then every 32nd. */
  predicate InLane(i: int, lane: nat) {
    i >= lane && (i - lane) % 32 == 0
  }

  /** A shuffle past the last lane returns the own value. */
  function ShuffleDown<T>(v: seq<T>, l: nat, off: nat): T
    requires l < |v|
  {
    if l + off < |v| then v[l + off] else v[l]
  }

  /** One round: every lane combines its value with the one `off` lanes up. */
  function Round<T>(v: seq<T>, op: (T, T) -> T, off: nat): (w: seq<T>)
    ensures |w| == |v| && forall l {:trigger w[l]} :: 0 <= l < |v| ==> w[l] == op(v[l], ShuffleDown(v, l, off))
  {
    seq(|v|, l requires 0 <= l < |v| => op(v[l], ShuffleDown(v, l, off)))
  }

  function Sum(v: seq<real>): real {
    if |v| == 0 then 0.0 else Sum(v[..|v| - 1]) + v[|v| - 1]
  }

  lemma {:induction false} SumAppend(a: seq<real>, b: seq<real>)
    ensures Sum(a + b) == Sum(a) + Sum(b)
    decreases |b|
  {
    if |b| == 0 {
      assert a + b == a;
    } else {
      assert (a + b)[..|a + b| - 1] == a + b[..|b| - 1];
      SumAppend(a, b[..|b| - 1]);
    }
  }

  lemma {:induction false} SumPointwise(a: seq<real>, b: seq<real>, c: seq<real>)
    requires |a| == |b| == |c| && forall l :: 0 <= l < |a| ==> c[l] == a[l] + b[l]
    ensures Sum(c) == Sum(a) + Sum(b)
  {
    if |a| > 0 {
      SumPointwise(a[..|a| - 1], b[..|b| - 1], c[..|c| - 1]);
    }
  }

  function Plus(a: real, b: real): real {
    a + b
  }

  /** A round folds the upper half of the live lanes onto the lower half. */
  lemma RoundKeepsSum(v: seq<real>, off: nat)
    requires 2 * off <= |v|
    ensures Sum(Round(v, Plus, off)[..off]) == Sum(v[..2 * off])
  {
    hide Sum;
    var w := Round(v, Plus, off);
    assert forall l :: 0 <= l < off ==> w[l] == v[l] + v[off + l];
    SumPointwise(v[..off], v[off..2 * off], w[..off]);
    SumAppend(v[..off], v[off..2 * off]);
    assert v[..off] + v[off..2 * off] == v[..2 * off];
  }

  lemma SumSingle(v: seq<real>)
    requires |v| > 0
    ensures Sum(v[..1]) == v[0]
  {
    assert v[..1][..0] == [];
  }

  /** Lane 0 ends with the sum of all lanes. */
  method ReduceSum(v: seq<real>) returns (r: real)
    requires |v| == 32
    ensures r == Sum(v)
  {
    var cur, off := v, 16;
    assert v[..32] == v;
    while off > 0
      invariant off == 16 || off == 8 || off == 4 || off == 2 || off == 1 || off == 0
      invariant |cur| == 32 && Sum(if off > 0 then cur[..2 * off] else cur[..1]) == Sum(v)
    {
      RoundKeepsSum(cur, off);
      cur := Round(cur, Plus, off);
      off := off / 2;
    }
    SumSingle(cur);
    return cur[0];
  }

  /** `op` returns one of its arguments, no worse than the other in a transitive order `le`. */
  ghost predicate Selects<T(!new)>(op: (T, T) -> T, le: (T, T) -> bool) {
    && (forall a, b :: op(a, b) == a || op(a, b) == b)
    && (forall a, b :: le(op(a, b), a) && le(op(a, b), b))
    && (forall a, b, c :: le(a, b) && le(b, c) ==> le(a, c))
    && (forall a :: le(a, a))
  }

  /** Some live lane is no worse than x. */
  ghost predicate Covered<T(!new)>(cur: seq<T>, live: nat, x: T, le: (T, T) -> bool)
    requires live <= |cur|
  {
    exists l :: 0 <= l < live && le(cur[l], x)
  }

  lemma SelectsOne<T(!new)>(op: (T, T) -> T, le: (T, T) -> bool, a: T, b: T)
    requires Selects(op, le)
    ensures (op(a, b) == a || op(a, b) == b) && le(op(a, b), a) && le(op(a, b), b) && le(a, a)
    ensures forall x :: le(a, x) || le(b, x) ==> le(op(a, b), x)
  {
  }

  lemma RoundKeepsCover<T(!new)>(cur: seq<T>, off: nat, x: T, op: (T, T) -> T, le: (T, T) -> bool)
    requires 0 < 2 * off <= |cur| && Selects(op, le) && Covered(cur, 2 * off, x, le)
    ensures Covered(Round(cur, op, off), off, x, le)
  {
    hide Selects;
    var l :| 0 <= l < 2 * off && le(cur[l], x);
    var m := if l < off then l else l - off;
    SelectsOne(op, le, cur[m], cur[m + off]);
    assert Round(cur, op, off)[m] == op(cur[m], cur[m + off]);
  }

  lemma RoundStaysIn<T(!new)>(v: seq<T>, cur: seq<T>, off: nat, op: (T, T) -> T, le: (T, T) -> bool)
    requires Selects(op, le) && forall l :: 0 <= l < |cur| ==> cur[l] in v
    ensures forall l :: 0 <= l < |cur| ==> Round(cur, op, off)[l] in v
  {
    hide Selects;
    forall l | 0 <= l < |cur|
      ensures Round(cur, op, off)[l] in v
    {
      SelectsOne(op, le, cur[l], ShuffleDown(cur, l, off));
    }
  }

  /** With a selection lane 0 ends with the value of some lane, no worse than any other. */
  method ReduceSelect<T(!new)>(v: seq<T>, op: (T, T) -> T, ghost le: (T, T) -> bool) returns (r: T)
    requires |v| == 32 && Selects(op, le)
    ensures r in v && forall l :: 0 <= l < 32 ==> le(r, v[l])
  {
    hide Selects, Covered;
    var cur, off := v, 16;
    forall l | 0 <= l < 32
      ensures Covered(cur, 32, v[l], le)
    {
      SelfCovered(v, l, op, le);
    }
    while off > 0
      invariant off == 16 || off == 8 || off == 4 || off == 2 || off == 1 || off == 0
      invariant |cur| == 32 && forall l :: 0 <= l < 32 ==> cur[l] in v
      invariant forall l :: 0 <= l < 32 ==> Covered(cur, if off > 0 then 2 * off else 1, v[l], le)
    {
      forall l | 0 <= l < 32
        ensures Covered(Round(cur, op, off), off, v[l], le)
      {
        RoundKeepsCover(cur, off, v[l], op, le);
      }
      RoundStaysIn(v, cur, off, op, le);
      cur := Round(cur, op, off);
      off := off / 2;
    }
    r := cur[0];
    forall l | 0 <= l < 32
      ensures le(r, v[l])
    {
      CoveredByFirst(cur, v[l], le);
    }
  }

  lemma SelfCovered<T(!new)>(v: seq<T>, l: nat, op: (T, T) -> T, le: (T, T) -> bool)
    requires l < |v| && Selects(op, le)
    ensures Covered(v, |v|, v[l], le)
  {
    assert le(v[l], v[l]);
  }

  lemma CoveredByFirst<T(!new)>(cur: seq<T>, x: T, le: (T, T) -> bool)
    requires |cur| > 0 && Covered(cur, 1, x, le)
    ensures le(cur[0], x)
  {
  }
}
