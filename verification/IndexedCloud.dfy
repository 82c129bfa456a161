/** A downsampled cloud with one point a cell, found by the key of its cell, and the windows of cells that the GPU
    searches scan. */
module IndexedCloud {
  import opened Arithmetic
  import opened Geometry
  import opened Voxels
  import opened HashIndex

  datatype Cloud = Cloud(points: seq<Vec>, keys: seq<nat>, leaf: real)

  /** One point a cell, sorted by the key of the cell. */
  ghost predicate Indexed(c: Cloud) {
    && c.leaf > 0.0 && |c.points| == |c.keys| && StrictlyAscending(c.keys)
    && forall j :: 0 <= j < |c.points| ==>
      InRange(Cell(c.points[j], c.leaf)) && c.keys[j] == CoordKey(Cell(c.points[j], c.leaf))
  }

  lemma LeafPositive(c: Cloud)
    requires Indexed(c)
    ensures c.leaf > 0.0
  {
  }

  /** The device view of the hash index; it is not ready while its mask is 0. */
  datatype View = View(problem: Problem, table: seq<Slot>, mask: nat)

  ghost predicate Serves(v: View, c: Cloud, s: State) {
    v.mask != 0 ==>
      && v.problem.keys == c.keys && v.problem.cap == v.mask + 1
      && Inv(v.problem, s) && AllDone(s) && v.table == s.table
  }

  /** Hash lookup when the index is built, binary search otherwise. */
  method Probe(c: Cloud, v: View, key: nat, ghost s: State) returns (j: int)
    requires Indexed(c) && Serves(v, c, s) && key < EMPTY
    ensures IsIndexOf(c.keys, key, j)
  {
    if v.mask != 0 {
      j := HashLookup(v.problem, v.table, key, s);
    } else {
      j := FindVoxel(c.keys, key);
    }
  }

  // ---------------------------------------------------------------- the cells of a (2r + 1)^3 window, numbered

  /** The digits of a row-major number with w cells an axis. */
  function Digits(t: nat, w: nat): (nat, nat, nat)
    requires w > 0
  {
    (t / (w * w), t % (w * w) / w, t % (w * w) % w)
  }

  function Decode(t: nat, r: nat): VoxelCoord {
    var d := Digits(t, 2 * r + 1);
    VoxelCoord(d.0 - r, d.1 - r, d.2 - r)
  }

  /** Row-major numbering with w cells an axis. */
  function Number(x: int, y: int, z: int, w: nat): int {
    x * (w * w) + y * w + z
  }

  function Encode(o: VoxelCoord, r: nat): int {
    Number(o.x + r, o.y + r, o.z + r, 2 * r + 1)
  }

  function Cube(w: nat): nat {
    w * (w * w)
  }

  function Cells(r: nat): nat {
    Cube(2 * r + 1)
  }

  lemma NumberThenDigits(x: nat, y: nat, z: nat, w: nat, n: int)
    requires x < w && y < w && z < w && n == Number(x, y, z, w)
    ensures 0 <= n < Cube(w) && Digits(n, w) == (x, y, z)
  {
    hide Digits, Cube;
    var ww, m := w * w, y * w + z;
    ProductLess(y, w, z, w);
    DivMod(y, z, w);
    DivMod(x, m, ww);
    ProductLess(x, w, m, ww);
    assert n == x * ww + m;
    hide Number;
    DigitsAre(n, w, ww, m, x, y, z);
  }

  lemma DigitsAre(n: nat, w: nat, ww: nat, m: nat, x: nat, y: nat, z: nat)
    requires w > 0 && ww == w * w && ww > 0 && n / ww == x && n % ww == m && m / w == y && m % w == z && n < w * ww
    ensures n < Cube(w) && Digits(n, w) == (x, y, z)
  {
  }

  lemma DigitsThenNumber(t: nat, w: nat)
    requires w > 0 && t < Cube(w)
    ensures var d := Digits(t, w); d.0 < w && d.1 < w && d.2 < w && Number(d.0, d.1, d.2, w) == t
  {
    var ww := w * w;
    QuotientBound(t, w, ww);
    QuotientBound(t % ww, w, w);
  }

  /** Every offset of the window is numbered, and decoding its number gives it back. */
  lemma DecodeEncode(o: VoxelCoord, r: nat)
    requires Norm(o) <= r
    ensures 0 <= Encode(o, r) < Cells(r) && Decode(Encode(o, r), r) == o
  {
    hide Number, Cube, Digits;
    NumberThenDigits(o.x + r, o.y + r, o.z + r, 2 * r + 1, Encode(o, r));
  }

  /** Every number below the window size is an offset of the window, and encoding it gives the number back. */
  lemma EncodeDecode(t: nat, r: nat)
    requires t < Cells(r)
    ensures Norm(Decode(t, r)) <= r && Encode(Decode(t, r), r) == t
  {
    hide Number, Cube, Digits;
    DigitsThenNumber(t, 2 * r + 1);
  }

  /** Point j is stored under the key of the cell at offset o from c. */
  ghost predicate StoredAt(cloud: Cloud, c: VoxelCoord, j: int, o: VoxelCoord) {
    0 <= j < |cloud.keys| && cloud.keys[j] == CoordKey(Shift(c, o))
  }

  /** Within a window much smaller than the key range, wrap-around cannot reach one point at two offsets. */
  lemma StoredAtOneOffset(cloud: Cloud, c: VoxelCoord, j: int, o: VoxelCoord, o': VoxelCoord)
    requires StoredAt(cloud, c, j, o) && StoredAt(cloud, c, j, o') && Norm(o) <= 1000 && Norm(o') <= 1000
    ensures o == o'
  {
    hide CoordKey;
    EqualKeys(Shift(c, o), Shift(c, o'));
    SmallMultiple(o.x - o'.x);
    SmallMultiple(o.y - o'.y);
    SmallMultiple(o.z - o'.z);
  }

  lemma SmallMultiple(d: int)
    requires -0x20_0000 < d < 0x20_0000
    ensures d % 0x20_0000 == 0 ==> d == 0
  {
  }

  /** Every point of the cloud is stored at its true offset. */
  lemma StoredAtTrueOffset(cloud: Cloud, p: Vec, j: nat)
    requires Indexed(cloud) && j < |cloud.points|
    ensures StoredAt(cloud, Cell(p, cloud.leaf), j, Offset(p, cloud.points[j], cloud.leaf))
  {
    var c, d := Cell(p, cloud.leaf), Cell(cloud.points[j], cloud.leaf);
    assert Shift(c, Offset(p, cloud.points[j], cloud.leaf)) == d;
  }
}
