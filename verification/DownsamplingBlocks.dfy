/** The parallel voxel-grid downsampling: blocks of the sorted items swept by threads in any order, whose results are
    placed by an atomic counter. */
module DownsamplingBlocks {
  import opened Arithmetic
  import opened Geometry
  import opened Voxels
  import opened QuickSort
  import opened Downsampling
  import opened VoxelgridSampling
  import HashIndex

  const BLOCK_SIZE: nat := 1024

  /** Block b, the items [cuts[b], cuts[b + 1]), is a non-empty range of the n items. */
  ghost predicate IsBlock(cuts: seq<nat>, n: nat, b: nat) {
    b + 1 < |cuts| && cuts[b] < cuts[b + 1] <= n
  }

  ghost predicate Partition(cuts: seq<nat>, n: nat) {
    |cuts| > 1 && cuts[0] == 0 && cuts[|cuts| - 1] == n && forall b :: 0 <= b < |cuts| - 1 ==> IsBlock(cuts, n, b)
  }

  /** The cuts of the OpenMP loop, whose step is the block size. */
  function OmpCuts(n: nat): (cuts: seq<nat>)
    requires n > 0
    ensures Partition(cuts, n) && |cuts| - 1 == (n + 1023) / 1024
    ensures forall b :: 0 <= b < |cuts| - 1 ==> cuts[b] == b * 1024
    ensures n - cuts[|cuts| - 2] == (n - 1) % 1024 + 1
  {
    seq((n + BLOCK_SIZE - 1) / BLOCK_SIZE + 1, b requires 0 <= b => if b * BLOCK_SIZE <= n then b * BLOCK_SIZE else n)
  }

  // ---------------------------------------------------------------- sums over blocks

  /** The results of block b are at least one and at most its items. */
  ghost predicate Fits(w: seq<nat>, cuts: seq<nat>, b: nat) {
    b < |w| && b + 1 < |cuts| && 0 < w[b] && w[b] + cuts[b] <= cuts[b + 1]
  }

  lemma {:induction false} TallyBound(w: seq<nat>, cuts: seq<nat>, n: nat, m: nat)
    requires Partition(cuts, n) && |w| == |cuts| - 1 && m <= |w| && forall b :: 0 <= b < |w| ==>
      w[b] == 0 || Fits(w, cuts, b)
    ensures Tally(w, m) <= cuts[m]
  {
    if m > 0 {
      TallyBound(w, cuts, n, m - 1);
      assert IsBlock(cuts, n, m - 1);
    }
  }

  // ---------------------------------------------------------------- the state of the parallel loop

  /** A block is idle until its results have a place in the output; then they are written there one by one. */
  datatype Progress = Idle | Writing(sub: seq<Vec>, at: nat, written: nat)

  ghost predicate IsAverages(points: seq<Vec>, s: seq<Item>, lo: nat, hi: nat, sub: seq<Vec>)
    requires hi <= |s| && IndicesOf(points, s)
  {
    exists keys :: BlockAverages(points, s, lo, hi, sub, keys)
  }

  /** What the sweep of a block promises. */
  ghost predicate BlockOutput(points: seq<Vec>, s: seq<Item>, lo: nat, hi: nat, sub: seq<Vec>)
    requires lo < hi <= |s| && IndicesOf(points, s)
  {
    && |sub| == Runs(s, lo, hi)
    && if s[lo].key != INVALID_KEY then IsAverages(points, s, lo, hi, sub) else sub == [points[s[lo].i]]
  }

  ghost predicate InSlot(p: Progress, x: int) {
    p.Writing? && p.at <= x < p.at + |p.sub|
  }

  ghost predicate Placed(p: Progress, buffer: seq<Vec>, count: nat) {
    p.Writing? ==>
      && p.written <= |p.sub| && p.at + |p.sub| <= count <= |buffer|
      && forall i :: 0 <= i < p.written ==> buffer[p.at + i] == p.sub[i]
  }

  ghost predicate Disjoint(blocks: seq<Progress>) {
    forall b, c, x :: 0 <= b < c < |blocks| && InSlot(blocks[b], x) ==> !InSlot(blocks[c], x)
  }

  ghost predicate HasSlot(blocks: seq<Progress>, x: int) {
    exists b :: 0 <= b < |blocks| && InSlot(blocks[b], x)
  }

  ghost predicate Filled(blocks: seq<Progress>, count: nat) {
    forall x :: 0 <= x < count ==> HasSlot(blocks, x)
  }

  /** The reservations made so far are disjoint and fill [0, count). */
  ghost predicate Reserved(blocks: seq<Progress>, buffer: seq<Vec>, count: nat) {
    && Disjoint(blocks) && Filled(blocks, count)
    && forall b :: 0 <= b < |blocks| ==> Placed(blocks[b], buffer, count)
  }

  lemma ReserveKeeps(blocks: seq<Progress>, buffer: seq<Vec>, count: nat, b: nat, sub: seq<Vec>)
    requires Reserved(blocks, buffer, count) && b < |blocks| && blocks[b].Idle? && count + |sub| <= |buffer|
    ensures Reserved(blocks[b := Writing(sub, count, 0)], buffer, count + |sub|)
  {
    var blocks' := blocks[b := Writing(sub, count, 0)];
    forall c | 0 <= c < |blocks'|
      ensures Placed(blocks'[c], buffer, count + |sub|)
    {
      assert Placed(blocks[c], buffer, count);
    }
    forall c, d, x | 0 <= c < d < |blocks'| && InSlot(blocks'[c], x)
      ensures !InSlot(blocks'[d], x)
    {
      assert Placed(blocks[c], buffer, count) && Placed(blocks[d], buffer, count);
    }
    forall x | 0 <= x < count + |sub|
      ensures HasSlot(blocks', x)
    {
      if x < count {
        assert HasSlot(blocks, x);
        var c :| 0 <= c < |blocks| && InSlot(blocks[c], x);
        assert InSlot(blocks'[c], x);
      } else {
        assert InSlot(blocks'[b], x);
      }
    }
  }

  lemma SlotWrite(q: Progress, buffer: seq<Vec>, cell: nat, v: Vec, count: nat)
    requires Placed(q, buffer, count) && !InSlot(q, cell) && cell < |buffer|
    ensures Placed(q, buffer[cell := v], count)
  {
  }

  lemma WriteKeeps(blocks: seq<Progress>, buffer: seq<Vec>, count: nat, b: nat)
    requires Reserved(blocks, buffer, count) && b < |blocks| && blocks[b].Writing?
      && blocks[b].written < |blocks[b].sub|
    ensures var p := blocks[b];
      && p.at + p.written < |buffer|
      && Reserved(blocks[b := p.(written := p.written + 1)], buffer[p.at + p.written := p.sub[p.written]], count)
  {
    var p := blocks[b];
    assert Placed(p, buffer, count);
    var cell := p.at + p.written;
    var blocks', buffer' := blocks[b := p.(written := p.written + 1)], buffer[cell := p.sub[p.written]];
    assert forall c, x :: 0 <= c < |blocks| ==> InSlot(blocks'[c], x) == InSlot(blocks[c], x);
    assert InSlot(p, cell);
    forall c | 0 <= c < |blocks'|
      ensures Placed(blocks'[c], buffer', count)
    {
      assert Placed(blocks[c], buffer, count);
      if c != b {
        assert !InSlot(blocks[c], cell);
        SlotWrite(blocks[c], buffer, cell, p.sub[p.written], count);
      }
    }
    forall x | 0 <= x < count
      ensures HasSlot(blocks', x)
    {
      assert HasSlot(blocks, x);
      var c :| 0 <= c < |blocks| && InSlot(blocks[c], x);
      assert InSlot(blocks'[c], x);
    }
  }

  // ---------------------------------------------------------------- the parallel loop

  ghost predicate SubsOk(points: seq<Vec>, s: seq<Item>, cuts: seq<nat>, subs: seq<seq<Vec>>)
    requires IndicesOf(points, s) && Partition(cuts, |s|)
  {
    && |subs| == |cuts| - 1
    && forall b :: 0 <= b < |subs| ==> IsBlock(cuts, |s|, b) && BlockOutput(points, s, cuts[b], cuts[b + 1], subs[b])
  }

  ghost predicate Covered(subs: seq<seq<Vec>>, at: seq<nat>, x: int)
    requires |at| == |subs|
  {
    exists b :: 0 <= b < |subs| && at[b] <= x < at[b] + |subs[b]|
  }

  /** The output holds the results of every block, each in one piece, and nothing else. */
  ghost predicate Assembled(out: seq<Vec>, subs: seq<seq<Vec>>, at: seq<nat>) {
    && |at| == |subs|
    && (forall b, i :: 0 <= b < |subs| && 0 <= i < |subs[b]| ==> at[b] + i < |out| && out[at[b] + i] == subs[b][i])
    && (forall b, c :: 0 <= b < c < |subs| ==> at[b] + |subs[b]| <= at[c] || at[c] + |subs[c]| <= at[b])
    && (forall x :: 0 <= x < |out| ==> Covered(subs, at, x))
  }

  /** The number of results of every block. */
  ghost function Sizes(s: seq<Item>, cuts: seq<nat>): (r: seq<nat>)
    requires Partition(cuts, |s|)
    ensures |r| == |cuts| - 1
  {
    seq(|cuts| - 1, b requires 0 <= b < |cuts| - 1 => assert IsBlock(cuts, |s|, b); Runs(s, cuts[b], cuts[b + 1]))
  }

  lemma {:induction false} SizesFit(s: seq<Item>, cuts: seq<nat>)
    requires Partition(cuts, |s|)
    ensures forall b :: 0 <= b < |cuts| - 1 ==> IsBlock(cuts, |s|, b) && Fits(Sizes(s, cuts), cuts, b)
  {
    hide Runs;
    forall b | 0 <= b < |cuts| - 1
      ensures IsBlock(cuts, |s|, b) && Fits(Sizes(s, cuts), cuts, b)
    {
      SizeAt(s, cuts, b);
    }
  }

  lemma {:induction false} SizeAt(s: seq<Item>, cuts: seq<nat>, b: nat)
    requires Partition(cuts, |s|) && b < |cuts| - 1
    ensures IsBlock(cuts, |s|, b) && Sizes(s, cuts)[b] == Runs(s, cuts[b], cuts[b + 1])
  {
    hide Runs;
    assert IsBlock(cuts, |s|, b);
  }

  /** Cells reserved per block. */
  ghost function CellsOf(blocks: seq<Progress>, sizes: seq<nat>): (r: seq<nat>)
    requires |sizes| == |blocks|
    ensures |r| == |blocks| && forall b :: 0 <= b < |r| ==> r[b] == if blocks[b].Idle? then 0 else sizes[b]
  {
    seq(|blocks|, b requires 0 <= b < |blocks| => if blocks[b].Idle? then 0 else sizes[b])
  }

  /** Steps left per block. */
  ghost function StepsOf(blocks: seq<Progress>, sizes: seq<nat>): (r: seq<nat>)
    requires |sizes| == |blocks|
    ensures |r| == |blocks| && forall b :: 0 <= b < |r| ==> r[b] == StepsOne(blocks[b], sizes[b])
  {
    seq(|blocks|, b requires 0 <= b < |blocks| => StepsOne(blocks[b], sizes[b]))
  }

  ghost function StepsOne(p: Progress, size: nat): nat {
    if p.Idle? then size + 1 else if p.written <= size then size - p.written else 0
  }

  ghost predicate Sized(p: Progress, size: nat) {
    p.Writing? ==> |p.sub| == size && p.written <= size
  }

  /** Sizes fit their blocks, and the counter is the sum of the sizes of the blocks that have reserved. */
  ghost predicate Tallied(blocks: seq<Progress>, sizes: seq<nat>, count: nat) {
    && |blocks| == |sizes| && (forall b :: 0 <= b < |blocks| ==> Sized(blocks[b], sizes[b]))
    && count == Tally(CellsOf(blocks, sizes), |blocks|)
  }

  ghost function StepsLeft(blocks: seq<Progress>, sizes: seq<nat>): nat
    requires |sizes| == |blocks|
  {
    Tally(StepsOf(blocks, sizes), |blocks|)
  }

  lemma ReserveTallies(blocks: seq<Progress>, sizes: seq<nat>, count: nat, b: nat, sub: seq<Vec>, cuts: seq<nat>,
                       n: nat)
    requires Tallied(blocks, sizes, count) && b < |blocks| && blocks[b].Idle? && |sub| == sizes[b]
    requires Partition(cuts, n) && |sizes| == |cuts| - 1 && forall c :: 0 <= c < |sizes| ==> Fits(sizes, cuts, c)
    ensures count + |sub| <= n
    ensures var blocks' := blocks[b := Writing(sub, count, 0)];
      Tallied(blocks', sizes, count + |sub|) && StepsLeft(blocks', sizes) < StepsLeft(blocks, sizes)
  {
    hide Partition;
    var blocks' := blocks[b := Writing(sub, count, 0)];
    assert forall c :: 0 <= c < |blocks'| ==> Sized(blocks'[c], sizes[c]);
    var cells, steps := CellsOf(blocks, sizes), StepsOf(blocks, sizes);
    assert CellsOf(blocks', sizes) == cells[b := sizes[b]];
    assert StepsOf(blocks', sizes) == steps[b := sizes[b]];
    TallyUpdate(cells, b, sizes[b], |blocks|);
    TallyUpdate(steps, b, sizes[b], |blocks|);
    hide Tally, Sized;
    forall c | 0 <= c < |blocks|
      ensures var after := CellsOf(blocks', sizes); after[c] == 0 || Fits(after, cuts, c)
    {
      assert Fits(sizes, cuts, c);
    }
    TallyBound(CellsOf(blocks', sizes), cuts, n, |blocks|);
    CutsEnd(cuts, n);
  }

  lemma CutsEnd(cuts: seq<nat>, n: nat)
    requires Partition(cuts, n)
    ensures |cuts| > 1 && cuts[|cuts| - 1] == n
  {
  }

  lemma WriteTallies(blocks: seq<Progress>, sizes: seq<nat>, count: nat, b: nat)
    requires Tallied(blocks, sizes, count) && b < |blocks| && blocks[b].Writing? && blocks[b].written < |blocks[b].sub|
    ensures var blocks' := blocks[b := blocks[b].(written := blocks[b].written + 1)];
      Tallied(blocks', sizes, count) && StepsLeft(blocks', sizes) < StepsLeft(blocks, sizes)
  {
    var blocks' := blocks[b := blocks[b].(written := blocks[b].written + 1)];
    assert Sized(blocks[b], sizes[b]);
    assert forall c :: 0 <= c < |blocks'| ==> Sized(blocks'[c], sizes[c]);
    var steps := StepsOf(blocks, sizes);
    assert CellsOf(blocks', sizes) == CellsOf(blocks, sizes);
    assert StepsOf(blocks', sizes) == steps[b := steps[b] - 1];
    TallyUpdate(steps, b, steps[b] - 1, |blocks|);
  }

  ghost predicate BlockOk(points: seq<Vec>, s: seq<Item>, lo: nat, hi: nat, p: Progress)
    requires IndicesOf(points, s) && lo < hi <= |s|
  {
    p.Writing? ==> BlockOutput(points, s, lo, hi, p.sub)
  }

  method SweepBlock(points: seq<Vec>, s: seq<Item>, lo: nat, hi: nat) returns (sub: seq<Vec>)
    requires IndicesOf(points, s) && Sorted(s, KeyLess) && lo < hi <= |s|
    ensures BlockOutput(points, s, lo, hi, sub) && |sub| == Runs(s, lo, hi)
  {
    hide BlockAverages, Sorted;
    ghost var keys;
    sub, keys := Sweep(points, s, lo, hi);
  }

  lemma Starts(blocks: seq<Progress>, buffer: seq<Vec>, reserved: seq<nat>)
    requires (forall b :: 0 <= b < |blocks| ==> blocks[b].Idle?)
      && (forall b :: 0 <= b < |reserved| ==> reserved[b] == 0)
    ensures Reserved(blocks, buffer, 0) && Tally(reserved, |reserved|) == 0
  {
    NothingTallied(reserved, |reserved|);
  }

  predicate Finished(p: Progress) {
    p.Writing? && p.written >= |p.sub|
  }

  lemma Ends(blocks: seq<Progress>, buffer: seq<Vec>, count: nat, subs: seq<seq<Vec>>, at: seq<nat>)
    requires Reserved(blocks, buffer, count) && count <= |buffer| && |subs| == |at| == |blocks|
    requires forall b :: 0 <= b < |blocks| ==>
      Finished(blocks[b]) && |subs[b]| > 0 && subs[b] == blocks[b].sub && at[b] == blocks[b].at
    ensures Assembled(buffer[..count], subs, at)
  {
    var out := buffer[..count];
    forall b | 0 <= b < |subs|
      ensures forall i :: 0 <= i < |subs[b]| ==> at[b] + i < |out| && out[at[b] + i] == subs[b][i]
    {
      assert Placed(blocks[b], buffer, count);
    }
    forall b, c | 0 <= b < c < |subs|
      ensures at[b] + |subs[b]| <= at[c] || at[c] + |subs[c]| <= at[b]
    {
      Apart(blocks, b, c);
    }
    forall x | 0 <= x < |out|
      ensures Covered(subs, at, x)
    {
      assert HasSlot(blocks, x);
      var b :| 0 <= b < |blocks| && InSlot(blocks[b], x);
      assert at[b] <= x < at[b] + |subs[b]|;
    }
  }

  lemma Apart(blocks: seq<Progress>, b: nat, c: nat)
    requires Disjoint(blocks) && b < c < |blocks| && blocks[b].Writing? && blocks[c].Writing?
    requires |blocks[b].sub| > 0 && |blocks[c].sub| > 0
    ensures blocks[b].at + |blocks[b].sub| <= blocks[c].at || blocks[c].at + |blocks[c].sub| <= blocks[b].at
  {
    var p, q := blocks[b], blocks[c];
    if p.at <= q.at {
      assert InSlot(q, q.at);
    } else {
      assert InSlot(p, p.at);
    }
  }

  /** What the loop keeps about the blocks themselves. */
  ghost predicate BlocksOk(points: seq<Vec>, s: seq<Item>, cuts: seq<nat>, blocks: seq<Progress>)
    requires IndicesOf(points, s)
  {
    forall b :: 0 <= b < |blocks| ==> IsBlock(cuts, |s|, b) && BlockOk(points, s, cuts[b], cuts[b + 1], blocks[b])
  }

  lemma {:induction false} ReserveStep(points: seq<Vec>, s: seq<Item>, cuts: seq<nat>, blocks: seq<Progress>,
                                       buffer: seq<Vec>, count: nat, b: nat, sub: seq<Vec>)
    requires IndicesOf(points, s) && Partition(cuts, |s|) && |blocks| == |cuts| - 1 && |buffer| == |s|
    requires Tallied(blocks, Sizes(s, cuts), count) && Reserved(blocks, buffer, count)
      && BlocksOk(points, s, cuts, blocks)
    requires b < |blocks| && blocks[b].Idle? && IsBlock(cuts, |s|, b)
      && BlockOutput(points, s, cuts[b], cuts[b + 1], sub)
    requires |sub| == Runs(s, cuts[b], cuts[b + 1])
    ensures var blocks' := blocks[b := Writing(sub, count, 0)];
      && count + |sub| <= |s|
      && Tallied(blocks', Sizes(s, cuts), count + |sub|) && Reserved(blocks', buffer, count + |sub|)
        && BlocksOk(points, s, cuts, blocks')
      && StepsLeft(blocks', Sizes(s, cuts)) < StepsLeft(blocks, Sizes(s, cuts))
  {
    hide Reserved, Partition, BlockOutput, StepsLeft, Tally, Runs, Tallied, Sizes;
    SizesFit(s, cuts);
    SizeAt(s, cuts, b);
    ReserveTallies(blocks, Sizes(s, cuts), count, b, sub, cuts, |s|);
    ReserveKeeps(blocks, buffer, count, b, sub);
  }

  lemma {:induction false} WriteStep(points: seq<Vec>, s: seq<Item>, cuts: seq<nat>, blocks: seq<Progress>,
                                     buffer: seq<Vec>, count: nat, b: nat)
    requires IndicesOf(points, s) && Partition(cuts, |s|) && |blocks| == |cuts| - 1
    requires Tallied(blocks, Sizes(s, cuts), count) && Reserved(blocks, buffer, count)
      && BlocksOk(points, s, cuts, blocks)
    requires b < |blocks| && blocks[b].Writing? && blocks[b].written < |blocks[b].sub|
    ensures var p := blocks[b];
      var blocks' := blocks[b := p.(written := p.written + 1)];
      && p.at + p.written < |buffer|
      && Tallied(blocks', Sizes(s, cuts), count) && BlocksOk(points, s, cuts, blocks')
      && Reserved(blocks', buffer[p.at + p.written := p.sub[p.written]], count)
      && StepsLeft(blocks', Sizes(s, cuts)) < StepsLeft(blocks, Sizes(s, cuts))
  {
    hide Reserved, Partition, BlockOutput, StepsLeft, Tally, Runs, Tallied, Sizes;
    WriteTallies(blocks, Sizes(s, cuts), count, b);
    WriteKeeps(blocks, buffer, count, b);
  }

  lemma {:induction false} StartStep(points: seq<Vec>, s: seq<Item>, cuts: seq<nat>, blocks: seq<Progress>,
                                     buffer: seq<Vec>)
    requires IndicesOf(points, s) && Partition(cuts, |s|) && |blocks| == |cuts| - 1
      && (forall b :: 0 <= b < |blocks| ==> blocks[b].Idle?)
    ensures Tallied(blocks, Sizes(s, cuts), 0) && Reserved(blocks, buffer, 0) && BlocksOk(points, s, cuts, blocks)
  {
    hide Reserved, Partition, Runs, Sizes;
    SizesFit(s, cuts);
    Starts(blocks, buffer, CellsOf(blocks, Sizes(s, cuts)));
  }

  lemma {:induction false} SizedBlocks(blocks: seq<Progress>, sizes: seq<nat>, count: nat)
    requires Tallied(blocks, sizes, count) && forall b :: 0 <= b < |blocks| ==> Finished(blocks[b])
    ensures count == Tally(sizes, |sizes|) && forall b :: 0 <= b < |blocks| ==>
      blocks[b].Writing? && |blocks[b].sub| == sizes[b]
  {
    assert forall b :: 0 <= b < |blocks| ==> Sized(blocks[b], sizes[b]);
    assert CellsOf(blocks, sizes) == sizes;
  }

  lemma {:induction false} EndStep(points: seq<Vec>, s: seq<Item>, cuts: seq<nat>, blocks: seq<Progress>,
                                   buffer: seq<Vec>, count: nat, subs: seq<seq<Vec>>, at: seq<nat>)
    requires IndicesOf(points, s) && Partition(cuts, |s|) && |subs| == |at| == |blocks| == |cuts| - 1
      && count <= |buffer|
    requires Tallied(blocks, Sizes(s, cuts), count) && Reserved(blocks, buffer, count)
      && BlocksOk(points, s, cuts, blocks)
    requires forall b :: 0 <= b < |blocks| ==> Finished(blocks[b]) && subs[b] == blocks[b].sub && at[b] == blocks[b].at
    ensures SubsOk(points, s, cuts, subs) && Assembled(buffer[..count], subs, at)
    ensures count == Tally(Sizes(s, cuts), |cuts| - 1)
  {
    hide Reserved, Partition, BlockOutput, Tally, Runs, Assembled, Sizes, Tallied;
    SizedBlocks(blocks, Sizes(s, cuts), count);
    SizesFit(s, cuts);
    forall b | 0 <= b < |blocks|
      ensures |subs[b]| > 0
    {
      assert Fits(Sizes(s, cuts), cuts, b);
    }
    Ends(blocks, buffer, count, subs, at);
  }

  /** For every schedule of the blocks: their results, disjoint and filling the output, whose length depends only on the
      keys and the cuts. */
  method SweepBlocks(points: seq<Vec>, s: seq<Item>, cuts: seq<nat>)
    returns (out: seq<Vec>, ghost subs: seq<seq<Vec>>, ghost at: seq<nat>)
    requires IndicesOf(points, s) && Sorted(s, KeyLess) && Partition(cuts, |s|)
    ensures SubsOk(points, s, cuts, subs) && Assembled(out, subs, at)
    ensures |out| == Tally(Sizes(s, cuts), |cuts| - 1) <= |s|
  {
    hide IndicesOf, Reserved, Sorted, Partition, Tally, BlockOutput, Runs, Tallied, BlockOk, StepsLeft, Assembled,
      SubsOk, Sizes;
    CutsEnd(cuts, |s|);
    var buffer := new Vec[|s|];
    var count: nat := 0;
    var blocks: seq<Progress> := seq(|cuts| - 1, _ => Idle);
    StartStep(points, s, cuts, blocks, buffer[..]);
    while exists b :: 0 <= b < |blocks| && !Finished(blocks[b])
      invariant |blocks| == |cuts| - 1 && count <= |s|
      invariant Tallied(blocks, Sizes(s, cuts), count) && Reserved(blocks, buffer[..], count)
        && BlocksOk(points, s, cuts, blocks)
      decreases StepsLeft(blocks, Sizes(s, cuts))
    {
      var b :| 0 <= b < |blocks| && !Finished(blocks[b]);
      if blocks[b].Idle? {
        assert IsBlock(cuts, |s|, b);
        var sub := SweepBlock(points, s, cuts[b], cuts[b + 1]);
        hide BlocksOk;
        ReserveStep(points, s, cuts, blocks, buffer[..], count, b, sub);
        blocks := blocks[b := Writing(sub, count, 0)];
        count := count + |sub|;
      } else {
        hide BlocksOk;
        var p := blocks[b];
        WriteStep(points, s, cuts, blocks, buffer[..], count, b);
        buffer[p.at + p.written] := p.sub[p.written];
        blocks := blocks[b := p.(written := p.written + 1)];
      }
    }
    out := buffer[..count];
    subs := seq(|blocks|, b requires 0 <= b < |blocks| => blocks[b].sub);
    at := seq(|blocks|, b requires 0 <= b < |blocks| => blocks[b].at);
    EndStep(points, s, cuts, blocks, buffer[..], count, subs, at);
  }

  // ---------------------------------------------------------------- how many results there are

  /** A cut at mid costs one result more exactly when it does not fall between two runs. */
  lemma {:induction false} RunsJoin(s: seq<Item>, lo: nat, mid: nat, hi: nat)
    requires lo < mid < hi <= |s|
    ensures Runs(s, lo, mid) + Runs(s, mid, hi) == Runs(s, lo, hi) + Extra(s, mid)
    decreases hi
  {
    if hi > mid + 1 {
      RunsJoin(s, lo, mid, hi - 1);
    }
  }

  function Extra(s: seq<Item>, mid: nat): nat {
    if 0 < mid < |s| && s[mid].key != INVALID_KEY && s[mid - 1].key != s[mid].key then 0 else 1
  }

  /** How many of the first m - 1 inner cuts do not fall between two runs. */
  function SplittingCuts(s: seq<Item>, cuts: seq<nat>, m: nat): (n: nat)
    requires 0 < m <= |cuts|
    ensures n < m
  {
    if m == 1 then 0 else SplittingCuts(s, cuts, m - 1) + Extra(s, cuts[m - 1])
  }

  /** The number of results over the first m blocks: the number of runs, plus one for every inner cut that is not
      between two. */
  lemma {:induction false} CountExact(s: seq<Item>, cuts: seq<nat>, m: nat)
    requires Partition(cuts, |s|) && 0 < m < |cuts|
    ensures 0 < cuts[m] <= |s| && Tally(Sizes(s, cuts), m) == Runs(s, 0, cuts[m]) + SplittingCuts(s, cuts, m)
  {
    hide Runs, Sizes, Extra;
    SizeAt(s, cuts, m - 1);
    if m > 1 {
      CountExact(s, cuts, m - 1);
      RunsJoin(s, 0, cuts[m - 1], cuts[m]);
    } else {
      assert cuts[m - 1] == 0;
    }
  }

  /** The keys of the runs of a sorted sequence that starts with a valid key. */
  lemma {:induction false} RunKeys(s: seq<Item>, i: nat) returns (keys: seq<nat>)
    requires 0 < i <= |s| && Sorted(s, KeyLess) && s[0].key != INVALID_KEY && forall j :: 0 <= j < |s| ==>
      s[j].key <= INVALID_KEY
    ensures HashIndex.StrictlyAscending(keys) && (forall k :: k in keys <==> Seen(s, 0, i, k))
      && |keys| == Runs(s, 0, i)
    ensures s[i - 1].key == INVALID_KEY || s[i - 1].key == keys[|keys| - 1]
  {
    if i == 1 {
      keys := [s[0].key];
    } else {
      keys := RunKeys(s, i - 1);
      var key, old_ := s[i - 1].key, keys;
      SortedAt(s, i - 2, i - 1);
      if key != INVALID_KEY && s[i - 2].key != key {
        keys := keys + [key];
      }
      hide Seen, Sorted;
      forall k
        ensures k in keys <==> Seen(s, 0, i, k)
      {
        SeenStep(s, 0, i - 1, k);
        NotSeenInvalid(s, 0, i - 1);
        assert k in keys <==> k in old_ || (key != INVALID_KEY && k == key);
      }
    }
  }

  /** So the number of runs is the number of occupied voxels. */
  lemma {:induction false} RunsAreVoxels(points: seq<Vec>, leaf: real, s: seq<Item>, out: seq<Vec>, keys: seq<nat>)
    requires leaf > 0.0 && Arranged(points, leaf, s) && Sorted(s, KeyLess) && |points| > 0 && SomeInRange(points, leaf)
    requires VoxelAverages(points, leaf, out, keys)
    ensures |s| == |points| && Runs(s, 0, |s|) == |keys|
  {
    hide PointKey, Seen, Occupied, IsMean, Sorted, SomeInRange, CellSum;
    FirstIsLeast(points, leaf, s);
    var runKeys := RunKeys(s, |s|);
    forall k
      ensures Seen(s, 0, |s|, k) <==> Occupied(points, leaf, k)
    {
      SeenIsOccupied(points, leaf, s, k);
    }
    AscendingUnique(keys, runKeys);
  }

  // ---------------------------------------------------------------- when there are points out of range

  function OutOfRange(points: seq<Vec>, leaf: real, n: nat): nat
    requires leaf > 0.0 && n <= |points|
  {
    if n == 0 then 0
    else OutOfRange(points, leaf, n - 1) + if PointKey(points[n - 1], leaf) == INVALID_KEY then 1 else 0
  }

  ghost function Invalid(s: seq<Item>, hi: nat): nat
    requires hi <= |s|
  {
    if hi == 0 then 0 else Invalid(s, hi - 1) + if s[hi - 1].key == INVALID_KEY then 1 else 0
  }

  lemma {:induction false} InvalidIsSum(points: seq<Vec>, s: seq<Item>, hi: nat)
    requires hi <= |s| && IndicesOf(points, s)
    ensures Invalid(s, hi) as real == KeySum(points, s, 0, hi, INVALID_KEY).w
  {
    if hi > 0 {
      InvalidIsSum(points, s, hi - 1);
    }
  }

  lemma {:induction false} OutOfRangeIsSum(points: seq<Vec>, leaf: real, n: nat)
    requires leaf > 0.0 && n <= |points|
    ensures OutOfRange(points, leaf, n) as real == CellSum(points, leaf, n, INVALID_KEY).w
  {
    hide PointKey;
    if n > 0 {
      OutOfRangeIsSum(points, leaf, n - 1);
    }
  }

  /** The invalid keys are the tail of the sorted sequence. */
  lemma {:induction false} InvalidTail(s: seq<Item>, hi: nat)
    requires hi <= |s| && Sorted(s, KeyLess) && forall j :: 0 <= j < |s| ==> s[j].key <= INVALID_KEY
    ensures Invalid(s, hi) <= hi && forall j :: 0 <= j < hi ==> (s[j].key == INVALID_KEY <==> j + Invalid(s, hi) >= hi)
  {
    if hi > 0 {
      InvalidTail(s, hi - 1);
      if s[hi - 1].key != INVALID_KEY && hi > 1 {
        SortedAt(s, hi - 2, hi - 1);
        assert s[hi - 2].key != INVALID_KEY;
      }
    }
  }

  /** The result of a block is made of averages exactly when the block starts with a valid key. */
  lemma {:induction false} GoodBlock(points: seq<Vec>, s: seq<Item>, lo: nat, hi: nat, sub: seq<Vec>)
    requires lo < hi <= |s| && IndicesOf(points, s) && Sorted(s, KeyLess) && BlockOutput(points, s, lo, hi, sub)
    ensures IsAverages(points, s, lo, hi, sub) <==> s[lo].key != INVALID_KEY
  {
    hide Runs;
    if s[lo].key == INVALID_KEY {
      forall keys
        ensures !BlockAverages(points, s, lo, hi, sub, keys)
      {
        if |keys| == 1 {
          assert keys[0] in keys;
          NothingSeen(s, lo, hi, keys[0]);
        }
      }
    }
  }

  lemma NothingSeen(s: seq<Item>, lo: nat, hi: nat, key: nat)
    requires lo < hi <= |s| && Sorted(s, KeyLess) && s[lo].key == INVALID_KEY && forall j :: 0 <= j < |s| ==>
      s[j].key <= INVALID_KEY
    ensures !Seen(s, lo, hi, key)
  {
    forall j | lo < j < hi
      ensures s[j].key == INVALID_KEY
    {
      SortedAt(s, lo, j);
    }
  }

  ghost predicate AllAverages(points: seq<Vec>, s: seq<Item>, cuts: seq<nat>, subs: seq<seq<Vec>>)
    requires IndicesOf(points, s) && Partition(cuts, |s|)
  {
    && |subs| == |cuts| - 1
    && forall b :: 0 <= b < |subs| ==> IsBlock(cuts, |s|, b) && IsAverages(points, s, cuts[b], cuts[b + 1], subs[b])
  }

  lemma {:induction false} CutsAscend(cuts: seq<nat>, n: nat, b: nat)
    requires Partition(cuts, n) && b < |cuts| - 1
    ensures cuts[b] <= cuts[|cuts| - 2]
    decreases |cuts| - b
  {
    if b < |cuts| - 2 {
      assert IsBlock(cuts, n, b);
      CutsAscend(cuts, n, b + 1);
    }
  }

  /** Nothing but averages comes out exactly when fewer points are out of range than the last block holds. */
  lemma {:induction false} AllAveragesExactly(points: seq<Vec>, leaf: real, s: seq<Item>, cuts: seq<nat>,
                                              subs: seq<seq<Vec>>)
    requires leaf > 0.0 && Arranged(points, leaf, s) && Sorted(s, KeyLess) && IndicesOf(points, s)
      && Partition(cuts, |s|) && SubsOk(points, s, cuts, subs)
    ensures AllAverages(points, s, cuts, subs) <==> OutOfRange(points, leaf, |points|) < |s| - cuts[|cuts| - 2]
  {
    hide Arranged, Sorted, BlockOutput, IsAverages, OutOfRange, Invalid, KeySum, CellSum, Runs;
    ArrangedIndices(points, leaf, s);
    SortedSum(points, leaf, s, INVALID_KEY);
    InvalidIsSum(points, s, |s|);
    OutOfRangeIsSum(points, leaf, |points|);
    InvalidTail(s, |s|);
    assert IsBlock(cuts, |s|, |cuts| - 2);
    forall b | 0 <= b < |subs|
      ensures IsBlock(cuts, |s|, b)
      ensures IsAverages(points, s, cuts[b], cuts[b + 1], subs[b]) <==> s[cuts[b]].key != INVALID_KEY
      ensures cuts[b] <= cuts[|cuts| - 2]
    {
      assert IsBlock(cuts, |s|, b);
      GoodBlock(points, s, cuts[b], cuts[b + 1], subs[b]);
      CutsAscend(cuts, |s|, b);
    }
  }

  // ---------------------------------------------------------------- sums over the blocks

  /** The sum of the points with the given key, block by block. */
  ghost function BlockSums(points: seq<Vec>, s: seq<Item>, cuts: seq<nat>, m: nat, key: nat): Sum4
    requires IndicesOf(points, s) && Partition(cuts, |s|) && m < |cuts|
  {
    if m == 0 then ZERO
    else
      assert IsBlock(cuts, |s|, m - 1);
      Plus(BlockSums(points, s, cuts, m - 1, key), KeySum(points, s, cuts[m - 1], cuts[m], key))
  }

  lemma PlusZero(a: Sum4)
    ensures Plus(a, ZERO) == a
  {
  }

  lemma PlusAdd(a: Sum4, b: Sum4, p: Vec)
    ensures Plus(a, Add(b, p)) == Add(Plus(a, b), p)
  {
  }

  lemma {:induction false} KeySumJoin(points: seq<Vec>, s: seq<Item>, mid: nat, hi: nat, key: nat)
    requires mid <= hi <= |s| && IndicesOf(points, s)
    ensures KeySum(points, s, 0, hi, key) == Plus(KeySum(points, s, 0, mid, key), KeySum(points, s, mid, hi, key))
    decreases hi
  {
    hide Plus, Add;
    var a := KeySum(points, s, 0, mid, key);
    if hi > mid {
      KeySumJoin(points, s, mid, hi - 1, key);
      PlusAdd(a, KeySum(points, s, mid, hi - 1, key), points[s[hi - 1].i]);
    } else {
      PlusZero(a);
    }
  }

  lemma NoSum(points: seq<Vec>, s: seq<Item>, key: nat)
    requires IndicesOf(points, s)
    ensures KeySum(points, s, 0, 0, key) == ZERO
  {
  }

  /** The parts into which the blocks cut a voxel add up to the voxel. */
  lemma {:induction false} BlocksAddUp(points: seq<Vec>, s: seq<Item>, cuts: seq<nat>, m: nat, key: nat)
    requires IndicesOf(points, s) && Partition(cuts, |s|) && m < |cuts|
    ensures cuts[m] <= |s| && BlockSums(points, s, cuts, m, key) == KeySum(points, s, 0, cuts[m], key)
  {
    hide IndicesOf, KeySum, Plus;
    if m > 0 {
      BlocksAddUp(points, s, cuts, m - 1, key);
      assert IsBlock(cuts, |s|, m - 1);
      KeySumJoin(points, s, cuts[m - 1], cuts[m], key);
    } else {
      NoSum(points, s, key);
    }
  }

  lemma {:induction false} VoxelsAddUp(points: seq<Vec>, leaf: real, s: seq<Item>, cuts: seq<nat>, key: nat)
    requires leaf > 0.0 && Arranged(points, leaf, s) && IndicesOf(points, s) && Partition(cuts, |s|)
    ensures BlockSums(points, s, cuts, |cuts| - 1, key) == CellSum(points, leaf, |points|, key)
  {
    hide Arranged, BlockSums, KeySum, CellSum;
    BlocksAddUp(points, s, cuts, |cuts| - 1, key);
    SortedSum(points, leaf, s, key);
  }

  // ---------------------------------------------------------------- voxelgrid_sampling_omp

  /** The output is assembled from the averages of the sorted items, cut at key changes and block boundaries. */
  ghost predicate Blockwise(points: seq<Vec>, leaf: real, s: seq<Item>, cuts: seq<nat>, out: seq<Vec>,
                            subs: seq<seq<Vec>>, at: seq<nat>)
    requires leaf > 0.0
  {
    && Arranged(points, leaf, s) && Sorted(s, KeyLess) && IndicesOf(points, s) && Partition(cuts, |s|)
    && SubsOk(points, s, cuts, subs) && Assembled(out, subs, at)
    && |out| == Tally(Sizes(s, cuts), |cuts| - 1) <= |points|
  }

  method SampleOmp(points: seq<Vec>, leaf: real, lib: Library<Item>)
    returns (out: seq<Vec>, ghost s: seq<Item>, ghost subs: seq<seq<Vec>>, ghost at: seq<nat>)
    requires leaf > 0.0 && SortsPartitions(lib, KeyLess)
    ensures points == [] ==> out == []
    ensures points != [] ==> Blockwise(points, leaf, s, OmpCuts(|points|), out, subs, at)
  {
    hide SortsPartitions, Sorted, Arranged, PointKey, Tally, Sizes, SubsOk, Assembled, Partition;
    if |points| == 0 {
      return [], [], [], [];
    }
    var coordPt := MakeItems(points, leaf);
    KeyLessIsWeakOrder();
    hide StrictWeakOrder;
    QuickSortOmp(coordPt, KeyLess, lib);
    s := coordPt[..];
    ArrangedFrom(points, leaf, s);
    out, subs, at := SweepBlocks(points, coordPt[..], OmpCuts(|points|));
  }

  lemma ArrangedFrom(points: seq<Vec>, leaf: real, s: seq<Item>)
    requires leaf > 0.0 && multiset(s) == multiset(Items(points, leaf))
    ensures Arranged(points, leaf, s) && |s| == |points| && IndicesOf(points, s)
  {
    ArrangedIndices(points, leaf, s);
  }

  /** There is one output point an occupied voxel, and one more for every inner cut that falls inside a run. */
  lemma {:induction false} OutputCount(points: seq<Vec>, leaf: real, s: seq<Item>, cuts: seq<nat>, out: seq<Vec>,
                                      subs: seq<seq<Vec>>, at: seq<nat>, exact: seq<Vec>, keys: seq<nat>)
    requires leaf > 0.0 && SomeInRange(points, leaf)
    requires Blockwise(points, leaf, s, cuts, out, subs, at) && VoxelAverages(points, leaf, exact, keys)
    ensures |cuts| >= 2 && |out| == |exact| + SplittingCuts(s, cuts, |cuts| - 1)
    ensures |exact| <= |out| <= |exact| + |cuts| - 2
  {
    hide Sorted, Arranged, PointKey, Tally, Sizes, SubsOk, Assembled, Runs, Occupied, CellSum, Extra;
    ArrangedIndices(points, leaf, s);
    CountExact(s, cuts, |cuts| - 1);
    RunsAreVoxels(points, leaf, s, exact, keys);
  }
}
