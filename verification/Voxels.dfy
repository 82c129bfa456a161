/** The voxel grid: cells, packed cell keys, and how far a point is from the cells around it. */
module Voxels {
  import opened Geometry

  datatype VoxelCoord = VoxelCoord(x: int, y: int, z: int)

  /** Conversion to int truncates towards zero. */
  function Truncate(v: real): int {
    if v >= 0.0 then v.Floor else -((-v).Floor)
  }

  /** Truncation and correction. */
  function FastFloor(v: real): (t: int)
    ensures t as real <= v < t as real + 1.0
  {
    var t := Truncate(v);
    if v < t as real then t - 1 else t
  }

  function Cell(p: Vec, leaf: real): VoxelCoord
    requires leaf > 0.0
  {
    VoxelCoord(FastFloor(p.x / leaf), FastFloor(p.y / leaf), FastFloor(p.z / leaf))
  }

  // ---------------------------------------------------------------- packed keys: 21 bits an axis

  const INVALID_KEY: nat := 0xFFFF_FFFF_FFFF_FFFF

  predicate AxisInRange(c: int) {
    0 <= c + 0x10_0000 < 0x20_0000
  }

  predicate InRange(c: VoxelCoord) {
    AxisInRange(c.x) && AxisInRange(c.y) && AxisInRange(c.z)
  }

  /** Three 21-bit fields side by side. */
  function Pack(x: nat, y: nat, z: nat): nat {
    x + 0x20_0000 * y + 0x400_0000_0000 * z
  }

  /** Packing without a range check: each axis is reduced to 21 bits, so coordinates wrap around. */
  function CoordKey(c: VoxelCoord): (key: nat)
    ensures key < 0x8000_0000_0000_0000
  {
    Pack((c.x + 0x10_0000) % 0x20_0000, (c.y + 0x10_0000) % 0x20_0000, (c.z + 0x10_0000) % 0x20_0000)
  }

  lemma AxisFits(c: int)
    requires AxisInRange(c)
    ensures c + 0x10_0000 >= 0 && (c + 0x10_0000) % 0x20_0000 == c + 0x10_0000
  {
  }

  /** In range nothing wraps. */
  lemma KeyInRange(c: VoxelCoord)
    requires InRange(c)
    ensures c.x + 0x10_0000 >= 0 && c.y + 0x10_0000 >= 0 && c.z + 0x10_0000 >= 0
    ensures CoordKey(c) == Pack(c.x + 0x10_0000, c.y + 0x10_0000, c.z + 0x10_0000)
  {
    hide Pack;
    AxisFits(c.x);
    AxisFits(c.y);
    AxisFits(c.z);
  }

  /** c comes before d by z, then y, then x. */
  predicate LayerOrder(c: VoxelCoord, d: VoxelCoord) {
    c.z < d.z || (c.z == d.z && (c.y < d.y || (c.y == d.y && c.x < d.x)))
  }

  /** In range the order of the keys is that of the cells, layer by layer. */
  lemma KeyOrder(c: VoxelCoord, d: VoxelCoord)
    requires InRange(c) && InRange(d)
    ensures CoordKey(c) < CoordKey(d) <==> LayerOrder(c, d)
  {
    hide CoordKey;
    KeyInRange(c);
    KeyInRange(d);
  }

  function KeyCoord(key: nat): VoxelCoord {
    VoxelCoord(key % 0x20_0000 - 0x10_0000, key / 0x20_0000 % 0x20_0000 - 0x10_0000,
               key / 0x400_0000_0000 % 0x20_0000 - 0x10_0000)
  }

  /** The key of a point, with the range check. */
  function VoxelKey(p: Vec, leaf: real): nat
    requires leaf > 0.0
  {
    if InRange(Cell(p, leaf)) then CoordKey(Cell(p, leaf)) else INVALID_KEY
  }

  /** On 64-bit words, shifting the fields into place and or-ing them is the same as adding them, and shifting and
      masking takes them apart. */
  lemma PackingOnWords(x: bv64, y: bv64, z: bv64)
    requires x < 0x20_0000 && y < 0x20_0000 && z < 0x20_0000
    ensures var key := x | (y << 21) | (z << 42);
      && key == x + (y << 21) + (z << 42) && key < 0x8000_0000_0000_0000
      && key & 0x1F_FFFF == x && (key >> 21) & 0x1F_FFFF == y && (key >> 42) & 0x1F_FFFF == z
  {
  }

  lemma Fields(x: nat, y: nat, z: nat)
    requires x < 0x20_0000 && y < 0x20_0000 && z < 0x20_0000
    ensures var key := Pack(x, y, z);
      key % 0x20_0000 == x && key / 0x20_0000 % 0x20_0000 == y && key / 0x400_0000_0000 == z
  {
    var key := Pack(x, y, z);
    assert key == x + 0x20_0000 * (y + 0x20_0000 * z);
    assert key / 0x20_0000 == y + 0x20_0000 * z;
    assert key / 0x400_0000_0000 == z;
  }

  lemma AxisWraps(c: int)
    ensures var field := (c + 0x10_0000) % 0x20_0000;
      field < 0x20_0000 && field % 0x20_0000 == field && (field - 0x10_0000 == c <==> AxisInRange(c))
  {
  }

  /** Unpacking undoes packing exactly for coordinates in range. */
  lemma PackThenUnpack(c: VoxelCoord)
    ensures KeyCoord(CoordKey(c)) == c <==> InRange(c)
  {
    hide Pack, AxisInRange;
    AxisWraps(c.x);
    AxisWraps(c.y);
    AxisWraps(c.z);
    Fields((c.x + 0x10_0000) % 0x20_0000, (c.y + 0x10_0000) % 0x20_0000, (c.z + 0x10_0000) % 0x20_0000);
  }

  lemma Quotients(key: nat, q: nat, z: nat)
    requires q == key / 0x20_0000 && z == q / 0x20_0000
    ensures key == key % 0x20_0000 + 0x20_0000 * q && q == q % 0x20_0000 + 0x20_0000 * z
    ensures z == key / 0x400_0000_0000
  {
    var x, y := key % 0x20_0000, q % 0x20_0000;
    assert key == (x + 0x20_0000 * y) + 0x400_0000_0000 * z;
  }

  /** And packing undoes unpacking for every 63-bit key. */
  lemma UnpackThenPack(key: nat)
    requires key < 0x8000_0000_0000_0000
    ensures InRange(KeyCoord(key)) && CoordKey(KeyCoord(key)) == key
  {
    var q := key / 0x20_0000;
    var x, y, z := key % 0x20_0000, q % 0x20_0000, q / 0x20_0000;
    Quotients(key, q, z);
    assert key == Pack(x, y, z) && z < 0x20_0000;
    assert KeyCoord(key) == VoxelCoord(x - 0x10_0000, y - 0x10_0000, z - 0x10_0000);
  }

  lemma ModEqual(a: int, b: int)
    requires a % 0x20_0000 == b % 0x20_0000
    ensures (a - b) % 0x20_0000 == 0
  {
    assert a - b == 0x20_0000 * (a / 0x20_0000 - b / 0x20_0000);
  }

  /** Equal keys mean equal coordinates up to wrap-around. */
  lemma EqualKeys(c: VoxelCoord, d: VoxelCoord)
    requires CoordKey(c) == CoordKey(d)
    ensures (c.x - d.x) % 0x20_0000 == 0 && (c.y - d.y) % 0x20_0000 == 0 && (c.z - d.z) % 0x20_0000 == 0
  {
    Fields((c.x + 0x10_0000) % 0x20_0000, (c.y + 0x10_0000) % 0x20_0000, (c.z + 0x10_0000) % 0x20_0000);
    Fields((d.x + 0x10_0000) % 0x20_0000, (d.y + 0x10_0000) % 0x20_0000, (d.z + 0x10_0000) % 0x20_0000);
    ModEqual(c.x + 0x10_0000, d.x + 0x10_0000);
    ModEqual(c.y + 0x10_0000, d.y + 0x10_0000);
    ModEqual(c.z + 0x10_0000, d.z + 0x10_0000);
  }

  // ---------------------------------------------------------------- cells around a point

  function Shift(c: VoxelCoord, o: VoxelCoord): VoxelCoord {
    VoxelCoord(c.x + o.x, c.y + o.y, c.z + o.z)
  }

  function Abs(v: int): nat {
    if v < 0 then -v else v
  }

  /** The Chebyshev norm of a cell offset. */
  function Norm(o: VoxelCoord): nat {
    var m := if Abs(o.x) >= Abs(o.y) then Abs(o.x) else Abs(o.y);
    if m >= Abs(o.z) then m else Abs(o.z)
  }

  /** Position inside the own cell, in cell units. */
  function Frac(v: real, leaf: real): (f: real)
    requires leaf > 0.0
    ensures 0.0 <= f < 1.0
  {
    v / leaf - FastFloor(v / leaf) as real
  }

  /** Distance to the cell `o` steps along one axis, in cell units, from position f in the own cell. */
  function Gap(o: int, f: real): real {
    if o == 0 then 0.0
    else (Abs(o) - 1) as real + if o > 0 then 1.0 - f else f
  }

  function SqGap(p: Vec, o: VoxelCoord, leaf: real): real
    requires leaf > 0.0
  {
    Square(Gap(o.x, Frac(p.x, leaf))) + Square(Gap(o.y, Frac(p.y, leaf))) + Square(Gap(o.z, Frac(p.z, leaf)))
  }

  lemma CellScale(v: real, leaf: real, u: real)
    requires leaf > 0.0 && u == v / leaf
    ensures v == u * leaf
  {
  }

  /** In cell units: the gap towards the other point's cell does not exceed the distance along the axis. */
  lemma UnitGap(u: real, w: real)
    ensures var o, f := FastFloor(w) - FastFloor(u), u - FastFloor(u) as real;
      0.0 <= Gap(o, f) && Square(Gap(o, f)) <= Square(u - w)
  {
    var o, f := FastFloor(w) - FastFloor(u), u - FastFloor(u) as real;
    SquareMonotone(Gap(o, f), u - w);
  }

  lemma AxisGap(p: real, q: real, leaf: real)
    requires leaf > 0.0
    ensures var o := FastFloor(q / leaf) - FastFloor(p / leaf);
      Square(Gap(o, Frac(p, leaf))) * Square(leaf) <= Square(p - q)
  {
    var u, w := p / leaf, q / leaf;
    UnitGap(u, w);
    CellScale(p, leaf, u);
    CellScale(q, leaf, w);
    ScaledDifference(u, w, leaf, p, q);
    ProductMonotone(Square(Gap(FastFloor(w) - FastFloor(u), Frac(p, leaf))), Square(u - w), Square(leaf), Square(leaf));
  }

  lemma ScaledDifference(u: real, w: real, leaf: real, p: real, q: real)
    requires p == u * leaf && q == w * leaf
    ensures Square(p - q) == Square(u - w) * Square(leaf)
  {
    assert p - q == (u - w) * leaf;
    SquareScale(u - w, leaf);
  }

  lemma SquareScale(a: real, s: real)
    ensures Square(a * s) == Square(a) * Square(s)
  {
    assert (a * s) * (a * s) == (a * a) * (s * s);
  }

  /** The offset from the cell of p to the cell of q. */
  function Offset(p: Vec, q: Vec, leaf: real): VoxelCoord
    requires leaf > 0.0
  {
    var c, d := Cell(p, leaf), Cell(q, leaf);
    VoxelCoord(d.x - c.x, d.y - c.y, d.z - c.z)
  }

  /** A point is at least as far away as the nearest corner, edge or face of its cell. */
  lemma CellGapBoundsDistance(p: Vec, q: Vec, leaf: real)
    requires leaf > 0.0
    ensures SqGap(p, Offset(p, q, leaf), leaf) * Square(leaf) <= SqDist(p, q)
  {
    hide Square, Gap, Frac;
    AxisGap(p.x, q.x, leaf);
    AxisGap(p.y, q.y, leaf);
    AxisGap(p.z, q.z, leaf);
    var o := Offset(p, q, leaf);
    SumOfGaps(Square(Gap(o.x, Frac(p.x, leaf))), Square(Gap(o.y, Frac(p.y, leaf))), Square(Gap(o.z, Frac(p.z, leaf))),
              Square(leaf),
              Square(p.x - q.x), Square(p.y - q.y), Square(p.z - q.z));
  }

  lemma SumOfGaps(a: real, b: real, c: real, s: real, x: real, y: real, z: real)
    requires a * s <= x && b * s <= y && c * s <= z
    ensures (a + b + c) * s <= x + y + z
  {
  }

  function Min(a: real, b: real): real {
    if a <= b then a else b
  }

  /** Distance from the point to the nearest face of its own cell, in cell units. */
  function FracMin(p: Vec, leaf: real): (m: real)
    requires leaf > 0.0
    ensures 0.0 <= m < 1.0
  {
    var fx, fy, fz := Frac(p.x, leaf), Frac(p.y, leaf), Frac(p.z, leaf);
    Min(Min(Min(fx, 1.0 - fx), Min(fy, 1.0 - fy)), Min(fz, 1.0 - fz))
  }

  /** A cell more than s steps away is at least s cells and the own margin away. */
  lemma OutsideShell(p: Vec, o: VoxelCoord, s: nat, leaf: real)
    requires leaf > 0.0 && Norm(o) > s
    ensures Square(FracMin(p, leaf) + s as real) <= SqGap(p, o, leaf)
  {
    var r := FracMin(p, leaf) + s as real;
    if Abs(o.x) > s {
      SquareMonotone(r, Gap(o.x, Frac(p.x, leaf)));
    } else if Abs(o.y) > s {
      SquareMonotone(r, Gap(o.y, Frac(p.y, leaf)));
    } else {
      SquareMonotone(r, Gap(o.z, Frac(p.z, leaf)));
    }
  }

  lemma ScaledBound(r: real, gap: real, scale: real, bound: real, d: real)
    requires Square(r) <= gap && gap * Square(scale) <= d && bound == r * scale
    ensures Square(bound) <= d
  {
    SquareScale(r, scale);
    ProductMonotone(Square(r), gap, Square(scale), Square(scale));
  }

  /** Distance from a point to the nearest face of the cube of s shells around its cell. */
  function ShellBound(p: Vec, s: nat, leaf: real): real
    requires leaf > 0.0
  {
    (FracMin(p, leaf) + s as real) * leaf
  }

  /** Points outside the cube of s shells are no nearer than its nearest face. */
  lemma OutsideCube(p: Vec, q: Vec, s: nat, leaf: real)
    requires leaf > 0.0 && Norm(Offset(p, q, leaf)) > s
    ensures Square(ShellBound(p, s, leaf)) <= SqDist(p, q)
  {
    hide Square, SqGap, SqDist, FracMin, Norm, Offset;
    OutsideShell(p, Offset(p, q, leaf), s, leaf);
    CellGapBoundsDistance(p, q, leaf);
    ScaledBound(FracMin(p, leaf) + s as real, SqGap(p, Offset(p, q, leaf), leaf), leaf, ShellBound(p, s, leaf),
                SqDist(p, q));
  }
}
