/** The tiled parallel radix sort: per-tile histograms, per-tile and global offsets, a scatter into a second buffer, and
    a swap of the buffers, once for every digit. The parallel loops run one element at a time in an arbitrary
    interleaving of the tiles. */
module RadixSort {
  import opened Arithmetic
  import opened Collections
  import opened StableSort

  function Pow2(e: nat): (p: nat)
    ensures p > 0
  {
    if e == 0 then 1 else 2 * Pow2(e - 1)
  }

  /** The `bits` bits of the key above the lowest `shift` ones. */
  function Digit<T>(key: T -> nat, shift: nat, bits: nat): T -> nat {
    x => key(x) / Pow2(shift) % Pow2(bits)
  }

  /** The lowest `shift` bits of the key. */
  function Low<T>(key: T -> nat, shift: nat): T -> nat {
    x => key(x) % Pow2(shift)
  }

  /** The tiles cut 0..n into consecutive pieces of at most `tileSize` elements. */
  function Begin(tile: nat, tileSize: nat, n: nat): (b: nat)
    ensures b <= n
  {
    if tile * tileSize <= n then tile * tileSize else n
  }

  function Tiles(n: nat, tileSize: nat): nat
    requires tileSize > 0
  {
    (n + tileSize - 1) / tileSize
  }

  lemma BeginMonotone(s: nat, t: nat, tileSize: nat, n: nat)
    requires s <= t
    ensures Begin(s, tileSize, n) <= Begin(t, tileSize, n)
  {
    ProductAtLeast(t, s, tileSize);
  }

  lemma TilesCover(n: nat, tileSize: nat)
    requires tileSize > 0
    ensures Begin(0, tileSize, n) == 0 && Begin(Tiles(n, tileSize), tileSize, n) == n
  {
    var t, m := Tiles(n, tileSize), n + tileSize - 1;
    assert m == t * tileSize + m % tileSize;
  }

  /** Every element lies in a tile. */
  lemma TileOf(i: nat, tileSize: nat, n: nat) returns (t: nat)
    requires tileSize > 0 && i < n
    ensures t < Tiles(n, tileSize) && Begin(t, tileSize, n) <= i < Begin(t + 1, tileSize, n)
  {
    t := i / tileSize;
    var tiles := Tiles(n, tileSize);
    TilesCover(n, tileSize);
    assert i == t * tileSize + i % tileSize;
    assert (t + 1) * tileSize == t * tileSize + tileSize;
    if t >= tiles {
      ProductAtLeast(t, tiles, tileSize);
    }
  }

  // ---------------------------------------------------------------- interleaved tiles

  /** How many elements of each tile have been processed. */
  ghost predicate InTiles(progress: seq<nat>, tileSize: nat, n: nat) {
    forall t :: 0 <= t < |progress| ==> Begin(t, tileSize, n) + progress[t] <= Begin(t + 1, tileSize, n)
  }

  function Open(done: nat, tile: nat, tileSize: nat, n: nat): nat {
    var size := Begin(tile + 1, tileSize, n) - Begin(tile, tileSize, n);
    if done < size then size - done else 0
  }

  ghost function Left(progress: seq<nat>, tileSize: nat, n: nat): nat {
    if |progress| == 0 then 0
    else Left(progress[..|progress| - 1], tileSize, n) + Open(progress[|progress| - 1], |progress| - 1, tileSize, n)
  }

  lemma {:induction false} LeftUpdate(progress: seq<nat>, tileSize: nat, n: nat, t: nat, done: nat)
    requires t < |progress|
    ensures Left(progress[t := done], tileSize, n)
      == Left(progress, tileSize, n) - Open(progress[t], t, tileSize, n) + Open(done, t, tileSize, n)
    decreases |progress|
  {
    hide Open;
    var last := |progress| - 1;
    if t < last {
      LeftUpdate(progress[..last], tileSize, n, t, done);
      assert progress[t := done][..last] == progress[..last][t := done];
    } else {
      assert progress[t := done][..last] == progress[..last];
    }
  }

  lemma LeftDecreases(progress: seq<nat>, tileSize: nat, n: nat, t: nat)
    requires InTiles(progress, tileSize, n) && t < |progress|
      && Begin(t, tileSize, n) + progress[t] < Begin(t + 1, tileSize, n)
    ensures InTiles(progress[t := progress[t] + 1], tileSize, n)
    ensures Left(progress[t := progress[t] + 1], tileSize, n) < Left(progress, tileSize, n)
  {
    hide Begin;
    LeftUpdate(progress, tileSize, n, t, progress[t] + 1);
  }

  /** Elements with digit b in front of a tile. */
  ghost function InFront<T>(s: seq<T>, digit: T -> nat, b: nat, tile: nat, tileSize: nat): nat {
    Count(s[..Begin(tile, tileSize, |s|)], digit, b)
  }

  /** Elements with digit b in front of the next element of a tile of which `done` have been processed. */
  ghost function Passed<T>(s: seq<T>, digit: T -> nat, b: nat, tile: nat, done: nat, tileSize: nat): nat {
    var i := Begin(tile, tileSize, |s|) + done;
    if i <= |s| then Count(s[..i], digit, b) else 0
  }

  lemma NoneProcessed(tiles: nat, tileSize: nat, n: nat)
    ensures InTiles(seq(tiles, _ => 0), tileSize, n)
  {
    forall t | 0 <= t < tiles
      ensures Begin(t, tileSize, n) <= Begin(t + 1, tileSize, n)
    {
      BeginMonotone(t, t + 1, tileSize, n);
    }
  }

  lemma PassedStep<T>(s: seq<T>, digit: T -> nat, tile: nat, done: nat, tileSize: nat)
    requires Begin(tile, tileSize, |s|) + done < |s|
    ensures forall b ::
      Passed(s, digit, b, tile, done + 1, tileSize) ==
      Passed(s, digit, b, tile, done, tileSize) + if digit(s[Begin(tile, tileSize, |s|) + done]) == b then 1 else 0
  {
    forall b {
      CountStep(s, digit, b, Begin(tile, tileSize, |s|) + done);
    }
  }

  /** The bucket cells while the tiles are at `progress`: the elements passed so far, counted from the tile or from the
      front. */
  ghost predicate Running<T>(buckets: array2<nat>, s: seq<T>, digit: T -> nat, progress: seq<nat>, tileSize: nat,
                             fromTile: bool)
    reads buckets
  {
    && |progress| == buckets.Length1
    && forall b, t :: 0 <= b < buckets.Length0 && 0 <= t < buckets.Length1 ==>
         buckets[b, t] ==
         Passed(s, digit, b, t, progress[t], tileSize) - if fromTile then InFront(s, digit, b, t, tileSize) else 0
  }

  /** Reads and increments the cell of the next element's bin in its tile. */
  method Take<T>(buckets: array2<nat>, bin: nat, tile: nat, ghost s: seq<T>, ghost digit: T -> nat,
                 ghost progress: seq<nat>, ghost tileSize: nat, ghost fromTile: bool)
    returns (offset: nat)
    requires Running(buckets, s, digit, progress, tileSize, fromTile) && bin < buckets.Length0 && tile < buckets.Length1
    requires Begin(tile, tileSize, |s|) + progress[tile] < |s|
      && bin == digit(s[Begin(tile, tileSize, |s|) + progress[tile]])
    modifies buckets
    ensures Running(buckets, s, digit, progress[tile := progress[tile] + 1], tileSize, fromTile)
    ensures !fromTile ==> offset == Passed(s, digit, bin, tile, progress[tile], tileSize)
  {
    hide Passed, InFront, Begin;
    PassedStep(s, digit, tile, progress[tile], tileSize);
    offset := buckets[bin, tile];
    buckets[bin, tile] := buckets[bin, tile] + 1;
  }

  /** Counts elements per digit and tile. */
  method Histogram<T>(src: array<T>, digit: T -> nat, bins: nat, tileSize: nat, buckets: array2<nat>, ghost s: seq<T>)
    requires s == src[..] && buckets.Length0 == bins
    requires forall i :: 0 <= i < |s| ==> digit(s[i]) < bins
    requires forall b, t :: 0 <= b < bins && 0 <= t < buckets.Length1 ==> buckets[b, t] == 0
    modifies buckets
    ensures forall b, t :: 0 <= b < bins && 0 <= t < buckets.Length1 ==>
      buckets[b, t] == InFront(s, digit, b, t + 1, tileSize) - InFront(s, digit, b, t, tileSize)
  {
    hide Begin, Filter;
    var n, tiles := src.Length, buckets.Length1;
    var progress := seq(tiles, _ => 0);
    NoneProcessed(tiles, tileSize, n);
    FrontIsPassed(s, digit, tileSize);
    assert Running(buckets, s, digit, progress, tileSize, true);
    hide InFront, Passed, Left, Running;
    while exists t :: 0 <= t < tiles && Begin(t, tileSize, n) + progress[t] < Begin(t + 1, tileSize, n)
      invariant |progress| == tiles && InTiles(progress, tileSize, n)
      invariant Running(buckets, s, digit, progress, tileSize, true)
      decreases Left(progress, tileSize, n)
    {
      var tile :| 0 <= tile < tiles && Begin(tile, tileSize, n) + progress[tile] < Begin(tile + 1, tileSize, n);
      var bin := digit(src[Begin(tile, tileSize, n) + progress[tile]]);
      LeftDecreases(progress, tileSize, n, tile);
      var _ := Take(buckets, bin, tile, s, digit, progress, tileSize, true);
      progress := progress[tile := progress[tile] + 1];
    }
    RunEnds(buckets, s, digit, progress, tileSize);
  }

  lemma RunEnds<T>(buckets: array2<nat>, s: seq<T>, digit: T -> nat, progress: seq<nat>, tileSize: nat)
    requires Running(buckets, s, digit, progress, tileSize, true) && InTiles(progress, tileSize, |s|)
    requires forall t :: 0 <= t < |progress| ==> Begin(t, tileSize, |s|) + progress[t] >= Begin(t + 1, tileSize, |s|)
    ensures forall b, t :: 0 <= b < buckets.Length0 && 0 <= t < buckets.Length1 ==>
      buckets[b, t] == InFront(s, digit, b, t + 1, tileSize) - InFront(s, digit, b, t, tileSize)
  {
    FrontIsPassed(s, digit, tileSize);
    hide InFront, Passed, Begin;
  }

  lemma FrontIsPassed<T>(s: seq<T>, digit: T -> nat, tileSize: nat)
    ensures forall b, t: nat :: Passed(s, digit, b, t, 0, tileSize) == InFront(s, digit, b, t, tileSize)
    ensures forall b, t: nat, done: nat :: Begin(t, tileSize, |s|) + done == Begin(t + 1, tileSize, |s|) ==>
      Passed(s, digit, b, t, done, tileSize) == InFront(s, digit, b, t + 1, tileSize)
  {
  }

  /** Exclusive scan of one bin's counts over the tiles. */
  method ScanBin<T>(bin: nat, buckets: array2<nat>, ghost s: seq<T>, ghost digit: T -> nat, ghost tileSize: nat)
    requires bin < buckets.Length0 && buckets.Length1 > 0 && InFront(s, digit, bin, 0, tileSize) == 0
    requires forall t :: 0 <= t < buckets.Length1 ==>
      buckets[bin, t] == InFront(s, digit, bin, t + 1, tileSize) - InFront(s, digit, bin, t, tileSize)
    modifies buckets
    ensures forall t :: 0 <= t < buckets.Length1 ==> buckets[bin, t] == InFront(s, digit, bin, t, tileSize)
    ensures forall b, t :: 0 <= b < buckets.Length0 && b != bin && 0 <= t < buckets.Length1 ==>
      buckets[b, t] == old(buckets[b, t])
  {
    hide InFront;
    var last := buckets[bin, 0];
    buckets[bin, 0] := 0;
    for tile := 1 to buckets.Length1
      invariant forall t :: 0 <= t < tile ==> buckets[bin, t] == InFront(s, digit, bin, t, tileSize)
      invariant last == InFront(s, digit, bin, tile, tileSize) - InFront(s, digit, bin, tile - 1, tileSize)
      invariant forall t :: tile <= t < buckets.Length1 ==> buckets[bin, t] == old(buckets[bin, t])
      invariant forall b, t :: 0 <= b < buckets.Length0 && b != bin && 0 <= t < buckets.Length1 ==>
        buckets[b, t] == old(buckets[b, t])
    {
      var tmp := buckets[bin, tile];
      buckets[bin, tile] := buckets[bin, tile - 1] + last;
      last := tmp;
    }
  }

  /** Every bin's counts are scanned, in any order. */
  method ScanBins<T>(buckets: array2<nat>, ghost s: seq<T>, ghost digit: T -> nat, ghost tileSize: nat)
    requires buckets.Length1 > 0 && forall b: nat :: InFront(s, digit, b, 0, tileSize) == 0
    requires forall b, t :: 0 <= b < buckets.Length0 && 0 <= t < buckets.Length1 ==>
      buckets[b, t] == InFront(s, digit, b, t + 1, tileSize) - InFront(s, digit, b, t, tileSize)
    modifies buckets
    ensures forall b, t :: 0 <= b < buckets.Length0 && 0 <= t < buckets.Length1 ==>
      buckets[b, t] == InFront(s, digit, b, t, tileSize)
  {
    hide InFront;
    var todo := Below(buckets.Length0);
    while todo != {}
      invariant forall b :: b in todo ==> 0 <= b < buckets.Length0
      invariant forall b, t :: b in todo && 0 <= t < buckets.Length1 ==>
        buckets[b, t] == InFront(s, digit, b, t + 1, tileSize) - InFront(s, digit, b, t, tileSize)
      invariant forall b, t :: 0 <= b < buckets.Length0 && b !in todo && 0 <= t < buckets.Length1 ==>
        buckets[b, t] == InFront(s, digit, b, t, tileSize)
    {
      var bin :| bin in todo;
      ScanBin(bin, buckets, s, digit, tileSize);
      todo := todo - {bin};
    }
  }

  /** Turns counts into offsets: the last tile's counts are saved before the scan overwrites them, then the bins' totals
      are added up. */
  method Offsets<T>(buckets: array2<nat>, globalOffsets: array<nat>, ghost s: seq<T>, ghost digit: T -> nat,
                    ghost tileSize: nat)
    requires tileSize > 0 && buckets.Length1 == Tiles(|s|, tileSize) > 0 && globalOffsets.Length == buckets.Length0 > 0
    requires forall b, t :: 0 <= b < buckets.Length0 && 0 <= t < buckets.Length1 ==>
      buckets[b, t] == InFront(s, digit, b, t + 1, tileSize) - InFront(s, digit, b, t, tileSize)
    modifies buckets, globalOffsets
    ensures forall b, t :: 0 <= b < buckets.Length0 && 0 <= t < buckets.Length1 ==>
      buckets[b, t] == InFront(s, digit, b, t, tileSize)
    ensures forall b :: 0 <= b < globalOffsets.Length ==> globalOffsets[b] == |StableSort.Buckets(s, digit, b)|
  {
    hide InFront, Tiles, Begin, Filter;
    FrontEnds(s, digit, tileSize);
    var bins, tiles := buckets.Length0, buckets.Length1;
    globalOffsets[0] := 0;
    for i := 1 to bins
      modifies globalOffsets
      invariant globalOffsets[0] == 0
      invariant forall b :: 1 <= b < i ==> globalOffsets[b] == buckets[b - 1, tiles - 1]
    {
      globalOffsets[i] := buckets[i - 1, tiles - 1];
    }
    assert forall b :: 1 <= b < bins ==>
      globalOffsets[b] == |Filter(s, digit, b - 1)| - InFront(s, digit, b - 1, tiles - 1, tileSize);
    ScanBins(buckets, s, digit, tileSize);
    AddUp(buckets, globalOffsets, s, digit, tileSize);
  }

  method AddUp<T>(buckets: array2<nat>, globalOffsets: array<nat>, ghost s: seq<T>, ghost digit: T -> nat,
                  ghost tileSize: nat)
    requires buckets.Length1 > 0 && globalOffsets.Length == buckets.Length0 > 0 && globalOffsets[0] == 0
    requires forall b, t :: 0 <= b < buckets.Length0 && 0 <= t < buckets.Length1 ==>
      buckets[b, t] == InFront(s, digit, b, t, tileSize)
    requires forall b :: 1 <= b < globalOffsets.Length ==>
      globalOffsets[b] == |Filter(s, digit, b - 1)| - InFront(s, digit, b - 1, buckets.Length1 - 1, tileSize)
    modifies globalOffsets
    ensures forall b :: 0 <= b < globalOffsets.Length ==> globalOffsets[b] == |StableSort.Buckets(s, digit, b)|
  {
    hide InFront, Filter;
    for i := 1 to globalOffsets.Length
      invariant forall b :: 0 <= b < i ==> globalOffsets[b] == |StableSort.Buckets(s, digit, b)|
      invariant forall b :: i <= b < globalOffsets.Length ==> globalOffsets[b] == old(globalOffsets[b])
    {
      assert StableSort.Buckets(s, digit, i) == StableSort.Buckets(s, digit, i - 1) + Filter(s, digit, i - 1);
      globalOffsets[i] := globalOffsets[i] + globalOffsets[i - 1] + buckets[i - 1, buckets.Length1 - 1];
    }
  }

  lemma FrontEnds<T>(s: seq<T>, digit: T -> nat, tileSize: nat)
    requires tileSize > 0
    ensures forall b: nat :: InFront(s, digit, b, 0, tileSize) == 0
    ensures forall b: nat :: InFront(s, digit, b, Tiles(|s|, tileSize), tileSize) == |Filter(s, digit, b)|
  {
    TilesCover(|s|, tileSize);
    assert s[..|s|] == s && s[..0] == [];
  }

  // ---------------------------------------------------------------- scatter

  /** Element i has been processed. */
  ghost predicate IsDone(i: nat, progress: seq<nat>, tileSize: nat, n: nat) {
    exists t :: 0 <= t < |progress| && Begin(t, tileSize, n) <= i < Begin(t, tileSize, n) + progress[t]
  }

  /** Moves every element to its global offset plus its bin's running offset in its tile. However the tiles interleave,
      they write different cells, and the output is the concatenation of the bins. */
  method Scatter<T>(src: array<T>, dst: array<T>, digit: T -> nat, bins: nat, tileSize: nat, buckets: array2<nat>,
                    globalOffsets: array<nat>, ghost s: seq<T>)
    requires src != dst && src.Length == dst.Length && s == src[..] && globalOffsets as object != dst
    requires tileSize > 0 && buckets.Length0 == bins == globalOffsets.Length && buckets.Length1 == Tiles(|s|, tileSize)
    requires forall i :: 0 <= i < |s| ==> digit(s[i]) < bins
    requires forall b, t :: 0 <= b < bins && 0 <= t < buckets.Length1 ==>
      buckets[b, t] == InFront(s, digit, b, t, tileSize)
    requires forall b :: 0 <= b < bins ==> globalOffsets[b] == |StableSort.Buckets(s, digit, b)|
    modifies dst, buckets
    ensures dst[..] == StableSort.Buckets(s, digit, bins)
  {
    hide Begin, Filter, Tiles, StableSort.Buckets, InFront, Passed, Left, Running, Scattered;
    var n, tiles := src.Length, buckets.Length1;
    var progress := seq(tiles, _ => 0);
    NoneProcessed(tiles, tileSize, n);
    ScatterStarts(buckets, dst[..], s, digit, progress, tileSize);
    while exists t :: 0 <= t < tiles && Begin(t, tileSize, n) + progress[t] < Begin(t + 1, tileSize, n)
      invariant |progress| == tiles && InTiles(progress, tileSize, n)
      invariant Running(buckets, s, digit, progress, tileSize, false)
      invariant Scattered(dst[..], s, digit, progress, tileSize)
      decreases Left(progress, tileSize, n)
    {
      var tile :| 0 <= tile < tiles && Begin(tile, tileSize, n) + progress[tile] < Begin(tile + 1, tileSize, n);
      LeftDecreases(progress, tileSize, n, tile);
      ScatterNext(src, dst, digit, bins, tileSize, buckets, globalOffsets, tile, progress, s);
      progress := progress[tile := progress[tile] + 1];
    }
    ScatterEnds(dst[..], s, digit, bins, progress, tileSize);
  }

  /** One tile moves its next element. */
  method ScatterNext<T>(src: array<T>, dst: array<T>, digit: T -> nat, bins: nat, tileSize: nat, buckets: array2<nat>,
                        globalOffsets: array<nat>,
                        tile: nat, progress: seq<nat>, ghost s: seq<T>)
    requires src != dst && src.Length == dst.Length && s == src[..] && buckets.Length0 == bins == globalOffsets.Length
    requires forall i :: 0 <= i < |s| ==> digit(s[i]) < bins
    requires forall b :: 0 <= b < bins ==> globalOffsets[b] == |StableSort.Buckets(s, digit, b)|
    requires tile < |progress| && Begin(tile, tileSize, |s|) + progress[tile] < |s|
    requires Running(buckets, s, digit, progress, tileSize, false) && Scattered(dst[..], s, digit, progress, tileSize)
    modifies dst, buckets
    ensures Running(buckets, s, digit, progress[tile := progress[tile] + 1], tileSize, false)
    ensures Scattered(dst[..], s, digit, progress[tile := progress[tile] + 1], tileSize)
  {
    assert tile < buckets.Length1;
    hide Begin, Filter, StableSort.Buckets, Passed, Running, Scattered, Dest;
    var i := Begin(tile, tileSize, src.Length) + progress[tile];
    var x := src[i];
    var bin := digit(x);
    var cell := globalOffsets[bin];
    var offset := Take(buckets, bin, tile, s, digit, progress, tileSize, false);
    DestIsOffset(s, digit, tile, progress[tile], tileSize, cell + offset);
    ScatterStep(dst[..], s, digit, bins, progress, tileSize, tile);
    dst[cell + offset] := x;
  }

  lemma ScatterStarts<T>(buckets: array2<nat>, out: seq<T>, s: seq<T>, digit: T -> nat, progress: seq<nat>,
                         tileSize: nat)
    requires progress == seq(buckets.Length1, _ => 0) && |out| == |s|
    requires forall b, t :: 0 <= b < buckets.Length0 && 0 <= t < buckets.Length1 ==>
      buckets[b, t] == InFront(s, digit, b, t, tileSize)
    ensures Running(buckets, s, digit, progress, tileSize, false) && Scattered(out, s, digit, progress, tileSize)
  {
    FrontIsPassed(s, digit, tileSize);
    hide InFront, Passed, Begin, Dest;
  }

  /** Every processed element is at its destination. */
  ghost predicate Scattered<T>(out: seq<T>, s: seq<T>, digit: T -> nat, progress: seq<nat>, tileSize: nat) {
    |out| == |s| && forall i :: 0 <= i < |s| && IsDone(i, progress, tileSize, |s|) ==>
      Dest(s, digit, i) < |s| && out[Dest(s, digit, i)] == s[i]
  }

  /** The next element of a tile goes to a cell that no other element is written to. */
  lemma ScatterStep<T>(out: seq<T>, s: seq<T>, digit: T -> nat, bins: nat, progress: seq<nat>, tileSize: nat, tile: nat)
    requires Scattered(out, s, digit, progress, tileSize) && tile < |progress|
      && Begin(tile, tileSize, |s|) + progress[tile] < |s|
    requires forall j :: 0 <= j < |s| ==> digit(s[j]) < bins
    ensures var i := Begin(tile, tileSize, |s|) + progress[tile];
      && Dest(s, digit, i) < |s|
      && Scattered(out[Dest(s, digit, i) := s[i]], s, digit, progress[tile := progress[tile] + 1], tileSize)
  {
    hide Dest, Begin, IsDone;
    var i := Begin(tile, tileSize, |s|) + progress[tile];
    DestInRange(s, digit, bins, i);
    DestsDiffer(s, digit, i);
    DoneStep(progress, tileSize, |s|, tile);
  }

  lemma ScatterEnds<T>(out: seq<T>, s: seq<T>, digit: T -> nat, bins: nat, progress: seq<nat>, tileSize: nat)
    requires Scattered(out, s, digit, progress, tileSize) && tileSize > 0 && |progress| == Tiles(|s|, tileSize)
    requires forall j :: 0 <= j < |s| ==> digit(s[j]) < bins
    requires forall t :: 0 <= t < |progress| ==> Begin(t, tileSize, |s|) + progress[t] >= Begin(t + 1, tileSize, |s|)
    ensures out == StableSort.Buckets(s, digit, bins)
  {
    hide Dest, Begin, IsDone;
    AllDone(progress, tileSize, |s|);
    ScatterIsPass(s, out, digit, bins);
  }

  lemma DestIsOffset<T>(s: seq<T>, digit: T -> nat, tile: nat, done: nat, tileSize: nat, offset: nat)
    requires Begin(tile, tileSize, |s|) + done < |s|
    requires var bin := digit(s[Begin(tile, tileSize, |s|) + done]);
      offset == |StableSort.Buckets(s, digit, bin)| + Passed(s, digit, bin, tile, done, tileSize)
    ensures offset == Dest(s, digit, Begin(tile, tileSize, |s|) + done)
  {
  }

  lemma DestInRange<T>(s: seq<T>, digit: T -> nat, bins: nat, i: nat)
    requires i < |s| && forall j :: 0 <= j < |s| ==> digit(s[j]) < bins
    ensures Dest(s, digit, i) < |s|
  {
    BucketsLength(s, digit, bins);
    BucketsAt(s, digit, bins, i);
  }

  lemma DestsDiffer<T>(s: seq<T>, digit: T -> nat, i: nat)
    requires i < |s|
    ensures forall j :: 0 <= j < |s| && j != i ==> Dest(s, digit, j) != Dest(s, digit, i)
  {
    forall j | 0 <= j < |s| && j != i
      ensures Dest(s, digit, j) != Dest(s, digit, i)
    {
      if j < i {
        DestInjective(s, digit, j, i);
      } else {
        DestInjective(s, digit, i, j);
      }
    }
  }

  lemma DoneStep(progress: seq<nat>, tileSize: nat, n: nat, tile: nat)
    requires tile < |progress|
    ensures forall i :: IsDone(i, progress[tile := progress[tile] + 1], tileSize, n) ==>
      IsDone(i, progress, tileSize, n) || i == Begin(tile, tileSize, n) + progress[tile]
  {
    hide Begin;
    var next := progress[tile := progress[tile] + 1];
    forall i: nat | IsDone(i, next, tileSize, n) && i != Begin(tile, tileSize, n) + progress[tile]
      ensures IsDone(i, progress, tileSize, n)
    {
      var t :| 0 <= t < |next| && Begin(t, tileSize, n) <= i < Begin(t, tileSize, n) + next[t];
      assert Begin(t, tileSize, n) <= i < Begin(t, tileSize, n) + progress[t];
    }
  }

  lemma AllDone(progress: seq<nat>, tileSize: nat, n: nat)
    requires tileSize > 0 && |progress| == Tiles(n, tileSize)
    requires forall t :: 0 <= t < |progress| ==> Begin(t, tileSize, n) + progress[t] >= Begin(t + 1, tileSize, n)
    ensures forall i :: 0 <= i < n ==> IsDone(i, progress, tileSize, n)
  {
    hide Begin, Tiles;
    forall i | 0 <= i < n
      ensures IsDone(i, progress, tileSize, n)
    {
      var t := TileOf(i, tileSize, n);
      assert Begin(t, tileSize, n) <= i < Begin(t, tileSize, n) + progress[t];
    }
  }

  /** With every element at its destination the output is the pass. */
  lemma ScatterIsPass<T>(s: seq<T>, out: seq<T>, digit: T -> nat, bins: nat)
    requires |out| == |s| && forall j :: 0 <= j < |s| ==> digit(s[j]) < bins
    requires forall i :: 0 <= i < |s| ==> Dest(s, digit, i) < |s| && out[Dest(s, digit, i)] == s[i]
    ensures out == StableSort.Buckets(s, digit, bins)
  {
    hide Dest, StableSort.Buckets;
    BucketsLength(s, digit, bins);
    forall p | 0 <= p < |out|
      ensures out[p] == StableSort.Buckets(s, digit, bins)[p]
    {
      var i := DestOnto(s, digit, bins, p);
      BucketsAt(s, digit, bins, i);
    }
  }

  /** One digit: histogram, offsets, scatter. */
  method RadixPass<T>(src: array<T>, dst: array<T>, digit: T -> nat, bins: nat, tileSize: nat)
    requires src != dst && src.Length == dst.Length > 0 && tileSize > 0 && bins > 0
    requires forall i :: 0 <= i < src.Length ==> digit(src[i]) < bins
    modifies dst
    ensures dst[..] == StableSort.Buckets(old(src[..]), digit, bins)
  {
    hide StableSort.Buckets, InFront;
    ghost var s := src[..];
    var tiles := Tiles(src.Length, tileSize);
    SomeTile(src.Length, tileSize);
    var buckets := new nat[bins, tiles]((_, _) => 0);
    var globalOffsets := new nat[bins](_ => 0);
    Histogram(src, digit, bins, tileSize, buckets, s);
    Offsets(buckets, globalOffsets, s, digit, tileSize);
    Scatter(src, dst, digit, bins, tileSize, buckets, globalOffsets, s);
  }

  lemma SomeTile(n: nat, tileSize: nat)
    requires n > 0 && tileSize > 0
    ensures Tiles(n, tileSize) > 0
  {
    var t := TileOf(0, tileSize, n);
  }

  // ---------------------------------------------------------------- all digits

  function Steps(width: nat, bits: nat): nat
    requires bits > 0
  {
    (width + bits - 1) / bits
  }

  lemma {:induction false} PowAdd(a: nat, b: nat)
    ensures Pow2(a + b) == Pow2(a) * Pow2(b)
  {
    if b > 0 {
      PowAdd(a, b - 1);
      assert Pow2(a) * Pow2(b) == 2 * (Pow2(a) * Pow2(b - 1));
    }
  }

  lemma {:induction false} PowMonotone(a: nat, b: nat)
    requires a <= b
    ensures Pow2(a) <= Pow2(b)
    decreases b
  {
    if a < b {
      PowMonotone(a, b - 1);
    }
  }

  /** The lowest shift + bits bits are the digit above the lowest shift bits. */
  lemma LowSplits(k: nat, unit: nat, base: nat)
    requires unit > 0 && base > 0
    ensures k % (unit * base) == k / unit % base * unit + k % unit
    ensures k / unit % base < base && k % unit < unit
  {
    var q, f := k / unit, k % unit;
    var h, d := q / base, q % base;
    QuotientOf(k, unit);
    QuotientOf(q, base);
    JoinDigits(k, unit, base, q, f, h, d);
    ProductLess(d, base, f, unit);
    ProductCommutes(unit, base);
    DivMod(h, d * unit + f, unit * base);
  }

  lemma ProductCommutes(a: nat, b: nat)
    ensures a * b == b * a
  {
  }

  lemma QuotientOf(k: nat, m: nat)
    requires m > 0
    ensures k == k / m * m + k % m && k % m < m
  {
  }

  lemma JoinDigits(k: nat, unit: nat, base: nat, q: nat, f: nat, h: nat, d: nat)
    requires k == q * unit + f && q == h * base + d
    ensures k == h * (unit * base) + (d * unit + f)
  {
    assert q * unit == (h * base) * unit + d * unit;
    assert (h * base) * unit == h * (unit * base);
  }

  lemma {:induction false} SameKey<T(!new)>(s: seq<T>, f: T -> nat, g: T -> nat, v: nat)
    requires forall x :: f(x) == g(x)
    ensures Filter(s, f, v) == Filter(s, g, v)
  {
    if |s| > 0 {
      SameKey(s[..|s| - 1], f, g, v);
    }
  }

  lemma SameStableSort<T(!new)>(s: seq<T>, t: seq<T>, f: T -> nat, g: T -> nat)
    requires IsStableSort(s, t, f) && forall x :: f(x) == g(x)
    ensures IsStableSort(s, t, g)
  {
    forall v
      ensures Filter(t, g, v) == Filter(s, g, v)
    {
      SameKey(s, f, g, v);
      SameKey(t, f, g, v);
    }
  }

  /** After one more pass the data is stably sorted by `bits` more bits. */
  lemma PassSortsMoreBits<T(!new)>(s: seq<T>, t: seq<T>, key: T -> nat, shift: nat, bits: nat)
    requires IsStableSort(s, t, Low(key, shift))
    ensures IsStableSort(s, StableSort.Buckets(t, Digit(key, shift, bits), Pow2(bits)), Low(key, shift + bits))
  {
    hide IsStableSort, StableSort.Buckets;
    var f, d, g, unit := Low(key, shift), Digit(key, shift, bits), Low(key, shift + bits), Pow2(shift);
    PowAdd(shift, bits);
    forall x
      ensures f(x) < unit && d(x) < Pow2(bits) && g(x) == d(x) * unit + f(x)
    {
      LowSplits(key(x), unit, Pow2(bits));
    }
    PassRefines(s, t, d, Pow2(bits), f, g, unit);
  }

  lemma NothingToSort<T(!new)>(s: seq<T>, key: T -> nat)
    ensures IsStableSort(s, s, Low(key, 0))
  {
    forall x: T
      ensures Low(key, 0)(x) == 0
    {
    }
  }

  lemma AllBitsSorted<T(!new)>(s: seq<T>, t: seq<T>, key: T -> nat, width: nat, bits: nat)
    requires bits > 0 && (forall x :: key(x) < Pow2(width)) && IsStableSort(s, t, Low(key, Steps(width, bits) * bits))
    ensures IsStableSort(s, t, key)
  {
    hide IsStableSort, Pow2;
    var shift := Steps(width, bits) * bits;
    StepsSuffice(width, bits);
    PowMonotone(width, shift);
    forall x
      ensures Low(key, shift)(x) == key(x)
    {
      SmallRemainder(key(x), Pow2(shift));
    }
    SameStableSort(s, t, Low(key, shift), key);
  }

  lemma StepsSuffice(width: nat, bits: nat)
    requires bits > 0
    ensures Steps(width, bits) * bits >= width
  {
    var m := width + bits - 1;
    QuotientOf(m, bits);
  }

  /** Sorts the caller's array stably by keys of `width` bits, `bits` bits a pass, for every tile size and
      interleaving. */
  method RadixSortTbb<T(!new)>(a: array<T>, key: T -> nat, width: nat, bits: nat, tileSize: nat)
    requires bits > 0 && tileSize > 0 && forall x :: key(x) < Pow2(width)
    modifies a
    ensures IsStableSort(old(a[..]), a[..], key)
  {
    hide Pow2, StableSort.Buckets, Digit, Low, Filter;
    ghost var s := a[..];
    if a.Length == 0 {
      return;
    }
    var steps, x0 := Steps(width, bits), a[0];
    var buffer := new T[a.Length](_ => x0);
    var first, sorted := a, buffer;
    NothingToSort(s, key);
    hide IsStableSort;
    for step := 0 to steps
      invariant first == (if step % 2 == 0 then a else buffer) && sorted == (if step % 2 == 0 then buffer else a)
      invariant IsStableSort(s, first[..], Low(key, step * bits))
    {
      DigitsInRange(first[..], key, step * bits, bits);
      PassSortsMoreBits(s, first[..], key, step * bits, bits);
      assert (step + 1) * bits == step * bits + bits;
      RadixPass(first, sorted, Digit(key, step * bits, bits), Pow2(bits), tileSize);
      first, sorted := sorted, first;
    }
    AllBitsSorted(s, first[..], key, width, bits);
    if steps % 2 == 1 {
      ghost var result := buffer[..];
      for i := 0 to a.Length
        invariant buffer[..] == result && a[..i] == result[..i]
      {
        a[i] := buffer[i];
      }
      assert a[..] == result;
    }
  }

  lemma DigitsInRange<T(!new)>(s: seq<T>, key: T -> nat, shift: nat, bits: nat)
    ensures forall i :: 0 <= i < |s| ==> Digit(key, shift, bits)(s[i]) < Pow2(bits)
  {
  }
}
