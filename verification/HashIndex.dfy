/** The concurrent voxel hash index: threads insert their keys by compare-and-swap with linear probing;
    lookups on the finished table agree with binary search over the sorted keys. */
module HashIndex {
  import opened Arithmetic
  import opened Collections

  const EMPTY: nat := 0xFFFF_FFFF_FFFF_FFFF

  datatype Slot = Slot(key: nat, val: nat)

  predicate PowerOfTwo(n: nat) {
    n == 1 || (n > 1 && n % 2 == 0 && PowerOfTwo(n / 2))
  }

  /** Bitwise and of natural numbers. */
  function And(a: nat, b: nat): nat {
    if a == 0 || b == 0 then 0 else 2 * And(a / 2, b / 2) + a % 2 * (b % 2)
  }

  /** Masking with one less than a power of two takes the remainder. */
  lemma {:induction false} MaskIsRemainder(a: nat, n: nat)
    requires PowerOfTwo(n)
    ensures And(a, n - 1) == a % n
  {
    if a == 0 {
      assert 0 % n == 0;
    } else if n > 1 {
      MaskIsRemainder(a / 2, n / 2);
      assert (n - 1) / 2 == n / 2 - 1 && (n - 1) % 2 == 1;
      HalvedRemainder(a, n / 2);
    }
  }

  lemma HalvedRemainder(a: nat, h: nat)
    requires h > 0
    ensures a % (2 * h) == 2 * (a / 2 % h) + a % 2
  {
    var q, r := a / 2 / h, a / 2 % h;
    assert a / 2 == q * h + r;
    assert a == q * (2 * h) + (2 * r + a % 2);
    DivMod(q, 2 * r + a % 2, 2 * h);
  }

  /** The same on 64-bit words, for every capacity from 16 slots up to the range of a 32-bit mask. */
  lemma MaskOnWords(z: bv64)
    ensures z & 0xF == z % 0x10
    ensures z & 0x1F == z % 0x20
    ensures z & 0x3F == z % 0x40
    ensures z & 0x7F == z % 0x80
    ensures z & 0xFF == z % 0x100
    ensures z & 0x1FF == z % 0x200
    ensures z & 0x3FF == z % 0x400
    ensures z & 0x7FF == z % 0x800
    ensures z & 0xFFF == z % 0x1000
    ensures z & 0x1FFF == z % 0x2000
    ensures z & 0x3FFF == z % 0x4000
    ensures z & 0x7FFF == z % 0x8000
    ensures z & 0xFFFF == z % 0x10000
    ensures z & 0x1FFFF == z % 0x20000
    ensures z & 0x3FFFF == z % 0x40000
    ensures z & 0x7FFFF == z % 0x80000
    ensures z & 0xFFFFF == z % 0x100000
    ensures z & 0x1FFFFF == z % 0x200000
    ensures z & 0x3FFFFF == z % 0x400000
    ensures z & 0x7FFFFF == z % 0x800000
    ensures z & 0xFFFFFF == z % 0x1000000
    ensures z & 0x1FFFFFF == z % 0x2000000
    ensures z & 0x3FFFFFF == z % 0x4000000
    ensures z & 0x7FFFFFF == z % 0x8000000
    ensures z & 0xFFFFFFF == z % 0x10000000
    ensures z & 0x1FFFFFFF == z % 0x20000000
    ensures z & 0x3FFFFFFF == z % 0x40000000
    ensures z & 0x7FFFFFFF == z % 0x80000000
    ensures z & 0xFFFFFFFF == z % 0x100000000
  {
  }

  /** The splitmix64 finalizer on 64-bit words. */
  function Mix(key: bv64): bv64 {
    var z0 := key + 0x9e3779b97f4a7c15;
    var z1 := (z0 ^ (z0 >> 30)) * 0xbf58476d1ce4e5b9;
    var z2 := (z1 ^ (z1 >> 27)) * 0x94d049bb133111eb;
    z2 ^ (z2 >> 31)
  }

  /** Every step of the finalizer can be undone, so mixing loses nothing. */
  lemma StepsUndone(x: bv64)
    ensures var z := x ^ (x >> 30); z ^ (z >> 30) ^ (z >> 60) == x
    ensures var z := x ^ (x >> 27); z ^ (z >> 27) ^ (z >> 54) == x
    ensures var z := x ^ (x >> 31); z ^ (z >> 31) ^ (z >> 62) == x
    ensures x * 0xbf58476d1ce4e5b9 * 0x96de1b173f119089 == x
    ensures x * 0x94d049bb133111eb * 0x319642b2d24d8ec3 == x
  {
  }

  /** The first outputs of the splitmix64 generator with seed 0, whose states are the multiples of its increment. */
  lemma GeneratorValues()
    ensures Mix(0) == 0xe220a8397b1dcdaf
    ensures Mix(0x9e3779b97f4a7c15) == 0x6e789e6aa1b965f4
    ensures Mix(0x3c6ef372fe94f82a) == 0x06c45d188009454f
  {
  }

  /** The low 32 bits of the mixed word. */
  function Scramble(key: nat): nat {
    (Mix((key % 0x1_0000_0000_0000_0000) as bv64) as nat) % 0x1_0000_0000
  }

  function VoxelHash(key: nat, mask: nat): nat {
    And(Scramble(key), mask)
  }

  /** Where the capacity is a power of two, the masked hash is the slot at which probing starts. */
  lemma HashIsHome(p: Problem, key: nat)
    requires PowerOfTwo(p.cap) && p.hash == Scramble
    ensures p.cap > 0 && VoxelHash(key, p.cap - 1) == Home(p, key) < p.cap
  {
    hide Scramble;
    MaskIsRemainder(Scramble(key), p.cap);
  }

  /** The table capacity for n keys: the first power of two from 16 on that is at least 2n. */
  method Capacity(n: nat) returns (cap: nat)
    ensures PowerOfTwo(cap) && cap >= 16 && cap >= 2 * n
    ensures cap > 16 ==> cap < 4 * n
  {
    cap := 16;
    while cap < n * 2
      invariant PowerOfTwo(cap) && cap >= 16
      invariant cap > 16 ==> cap < 4 * n
      decreases n * 2 - cap
    {
      cap := cap * 2;
    }
  }

  // ---------------------------------------------------------------- the inserting threads

  /** Distinct keys, none of them the empty marker, to go into `cap` slots; any hash function. */
  datatype Problem = Problem(keys: seq<nat>, cap: nat, hash: nat -> nat)

  ghost predicate Sane(p: Problem) {
    && PowerOfTwo(p.cap) && 2 * |p.keys| <= p.cap
    && (forall i :: 0 <= i < |p.keys| ==> p.keys[i] < EMPTY)
    && (forall i, j :: 0 <= i < j < |p.keys| ==> p.keys[i] != p.keys[j])
  }

  function Home(p: Problem, key: nat): (pos: nat)
    requires p.cap > 0
    ensures pos < p.cap
  {
    p.hash(key) % p.cap
  }

  /** The slot probed `d` steps after slot `home`. */
  function At(p: Problem, home: nat, d: nat): (pos: nat)
    requires home < p.cap && d < p.cap
    ensures pos < p.cap
  {
    if home + d < p.cap then home + d else home + d - p.cap
  }

  /** Adding one and masking moves on to the next slot of the path, going round at the end of the table. */
  lemma ProbeStep(p: Problem, home: nat, d: nat)
    requires PowerOfTwo(p.cap) && home < p.cap && d + 1 < p.cap
    ensures And(At(p, home, d) + 1, p.cap - 1) == At(p, home, d + 1)
  {
    var pos := At(p, home, d);
    MaskIsRemainder(pos + 1, p.cap);
    if pos + 1 == p.cap {
      DivMod(1, 0, p.cap);
    } else {
      DivMod(0, pos + 1, p.cap);
    }
  }

  /** A thread has failed `d` probes and goes on probing, has claimed the slot there, or has also stored its value. */
  datatype Phase = Probing | Claimed | Done
  datatype Thread = Thread(phase: Phase, d: nat)
  datatype State = State(table: seq<Slot>, threads: seq<Thread>)

  ghost predicate InBounds(p: Problem, s: State) {
    && p.cap > 0 && |s.table| == p.cap && |s.threads| == |p.keys|
    && forall i :: 0 <= i < |s.threads| ==> s.threads[i].d < p.cap
  }

  function Pos(p: Problem, s: State, i: nat): nat
    requires p.cap > 0 && i < |p.keys| && i < |s.threads| && s.threads[i].d < p.cap
  {
    At(p, Home(p, p.keys[i]), s.threads[i].d)
  }

  /** One atomic step of thread i: a compare-and-swap, or the store of its value. */
  function Step(p: Problem, s: State, i: nat): State
    requires InBounds(p, s) && i < |p.keys|
  {
    var t, pos := s.threads[i], Pos(p, s, i);
    var slot := s.table[pos];
    match t.phase
    case Probing =>
      if slot.key == EMPTY then State(s.table[pos := slot.(key := p.keys[i])], s.threads[i := t.(phase := Claimed)])
      else if slot.key == p.keys[i] then s.(threads := s.threads[i := t.(phase := Done)])
      else s.(threads := s.threads[i := t.(d := t.d + 1)])
    case Claimed => State(s.table[pos := slot.(val := i)], s.threads[i := t.(phase := Done)])
    case Done => s
  }

  function Cleared(p: Problem): State {
    State(seq(p.cap, _ => Slot(EMPTY, 0)), seq(|p.keys|, _ => Thread(Probing, 0)))
  }

  // ---------------------------------------------------------------- the invariant of every interleaving

  /** Every slot thread i has passed is occupied. */
  ghost predicate PathOccupied(p: Problem, table: seq<Slot>, home: nat, d: nat)
    requires |table| == p.cap && home < p.cap && d < p.cap
  {
    forall e :: 0 <= e < d ==> table[At(p, home, e)].key != EMPTY
  }

  ghost predicate ThreadOk(p: Problem, s: State, i: nat)
    requires InBounds(p, s) && i < |p.keys|
  {
    var t, slot := s.threads[i], s.table[Pos(p, s, i)];
    && PathOccupied(p, s.table, Home(p, p.keys[i]), t.d)
    && (t.phase.Probing? ==> forall pos :: 0 <= pos < p.cap ==> s.table[pos].key != p.keys[i])
    && (!t.phase.Probing? ==> slot.key == p.keys[i])
    && (t.phase.Done? ==> slot.val == i)
  }

  ghost predicate Settled(s: State, i: nat)
    requires i < |s.threads|
  {
    !s.threads[i].phase.Probing?
  }

  ghost function Occupied(table: seq<Slot>): set<nat> {
    set pos | 0 <= pos < |table| && table[pos].key != EMPTY
  }

  ghost function SettledThreads(s: State): set<nat> {
    set i | 0 <= i < |s.threads| && Settled(s, i)
  }

  /** The occupied slots hold different keys of the problem; the free ones hold value 0. */
  ghost predicate TableContents(p: Problem, table: seq<Slot>)
    requires |table| == p.cap
  {
    && (forall pos :: 0 <= pos < p.cap && table[pos].key != EMPTY ==>
        exists i :: 0 <= i < |p.keys| && p.keys[i] == table[pos].key)
    && (forall a, b :: 0 <= a < b < p.cap && table[a].key != EMPTY ==> table[a].key != table[b].key)
    && (forall pos :: 0 <= pos < p.cap && table[pos].key == EMPTY ==> table[pos].val == 0)
  }

  ghost predicate Inv(p: Problem, s: State) {
    && Sane(p) && InBounds(p, s) && TableContents(p, s.table)
    && (forall i :: 0 <= i < |p.keys| ==> ThreadOk(p, s, i))
    && |Occupied(s.table)| == |SettledThreads(s)|
  }

  ghost function PathSlots(p: Problem, home: nat, d: nat): set<nat>
    requires home < p.cap && d <= p.cap
  {
    if d == 0 then {} else PathSlots(p, home, d - 1) + {At(p, home, d - 1)}
  }

  /** Within one round of the table a probe does not come back to a slot. */
  lemma {:induction false} NotRevisited(p: Problem, home: nat, d: nat, e: nat)
    requires home < p.cap && e <= d < p.cap
    ensures At(p, home, d) !in PathSlots(p, home, e)
    decreases e
  {
    if e > 0 {
      NotRevisited(p, home, d, e - 1);
    }
  }

  /** A probe path of d steps covers d different slots, all of them occupied ones. */
  lemma {:induction false} PathSlotsCount(p: Problem, table: seq<Slot>, home: nat, d: nat)
    requires home < p.cap == |table| && d <= p.cap
    requires forall e :: 0 <= e < d ==> table[At(p, home, e)].key != EMPTY
    ensures |PathSlots(p, home, d)| == d && PathSlots(p, home, d) <= Occupied(table)
    decreases d
  {
    if d > 0 {
      PathSlotsCount(p, table, home, d - 1);
      NotRevisited(p, home, d - 1, d - 1);
    }
  }

  lemma {:induction false} BoundedCount(a: set<nat>, n: nat)
    requires forall x :: x in a ==> x < n
    ensures |a| <= n
    decreases n
  {
    if n > 0 {
      BoundedCount(a - {n - 1}, n - 1);
    } else {
      assert a == {};
    }
  }

  /** An occupied probe path is shorter than the number of keys. */
  lemma PathIsShort(p: Problem, s: State, home: nat, d: nat)
    requires Inv(p, s) && home < p.cap && d <= p.cap
    requires forall e :: 0 <= e < d ==> s.table[At(p, home, e)].key != EMPTY
    ensures d <= |SettledThreads(s)| <= |p.keys|
  {
    PathSlotsCount(p, s.table, home, d);
    SubsetCardinality(PathSlots(p, home, d), Occupied(s.table));
    BoundedCount(SettledThreads(s), |p.keys|);
  }

  /** A thread still probing has passed fewer slots than there are other keys. */
  lemma ProbingIsShort(p: Problem, s: State, i: nat)
    requires Inv(p, s) && i < |p.keys| && s.threads[i].phase.Probing?
    ensures s.threads[i].d < |p.keys|
  {
    assert ThreadOk(p, s, i);
    PathIsShort(p, s, Home(p, p.keys[i]), s.threads[i].d);
    var settled := SettledThreads(s);
    BoundedCount(settled + {i}, |p.keys|);
    assert i !in settled;
  }

  lemma ClearedIsOk(p: Problem)
    requires Sane(p)
    ensures Inv(p, Cleared(p))
  {
    var s := Cleared(p);
    assert Occupied(s.table) == {};
    assert SettledThreads(s) == {};
  }

  /** A step never empties a slot or changes its key, and stores a value only where the key was claimed. */
  ghost predicate TableGrows(t: seq<Slot>, t': seq<Slot>) {
    |t| == |t'| && forall pos :: 0 <= pos < |t| && t[pos].key != EMPTY ==> t'[pos].key == t[pos].key
  }

  lemma ClaimAddsOne(p: Problem, s: State, i: nat)
    requires InBounds(p, s) && i < |p.keys| && p.keys[i] != EMPTY && s.threads[i].phase.Probing?
      && s.table[Pos(p, s, i)].key == EMPTY
    requires |Occupied(s.table)| == |SettledThreads(s)|
    ensures |Occupied(Step(p, s, i).table)| == |SettledThreads(Step(p, s, i))|
  {
    var s', pos := Step(p, s, i), Pos(p, s, i);
    assert Occupied(s'.table) == Occupied(s.table) + {pos};
    assert SettledThreads(s') == SettledThreads(s) + {i};
  }

  lemma ClaimKeepsTable(p: Problem, table: seq<Slot>, pos: nat, i: nat)
    requires |table| == p.cap && pos < p.cap && i < |p.keys| && p.keys[i] != EMPTY && table[pos].key == EMPTY
    requires TableContents(p, table) && forall x :: 0 <= x < p.cap ==> table[x].key != p.keys[i]
    ensures TableContents(p, table[pos := table[pos].(key := p.keys[i])])
  {
    var t' := table[pos := table[pos].(key := p.keys[i])];
    forall x | 0 <= x < p.cap && t'[x].key != EMPTY
      ensures exists j :: 0 <= j < |p.keys| && p.keys[j] == t'[x].key
    {
      if x == pos {
        assert p.keys[i] == t'[x].key;
      } else {
        assert table[x].key != EMPTY;
      }
    }
  }

  lemma ClaimKeepsThread(p: Problem, s: State, i: nat, j: nat)
    requires Inv(p, s) && i < |p.keys| && j < |p.keys| && s.threads[i].phase.Probing?
      && s.table[Pos(p, s, i)].key == EMPTY
    requires InBounds(p, Step(p, s, i))
    ensures ThreadOk(p, Step(p, s, i), j)
  {
    assert ThreadOk(p, s, j);
    assert j != i ==> p.keys[j] != p.keys[i];
  }

  lemma ClaimKeeps(p: Problem, s: State, i: nat)
    requires Inv(p, s) && i < |p.keys| && s.threads[i].phase.Probing? && s.table[Pos(p, s, i)].key == EMPTY
    ensures Inv(p, Step(p, s, i))
  {
    assert ThreadOk(p, s, i);
    ClaimAddsOne(p, s, i);
    ClaimKeepsTable(p, s.table, Pos(p, s, i), i);
    forall j | 0 <= j < |p.keys|
      ensures ThreadOk(p, Step(p, s, i), j)
    {
      ClaimKeepsThread(p, s, i, j);
    }
  }

  lemma StoreKeeps(p: Problem, s: State, i: nat)
    requires Inv(p, s) && i < |p.keys| && s.threads[i].phase.Claimed?
    ensures Inv(p, Step(p, s, i))
  {
    var s', pos := Step(p, s, i), Pos(p, s, i);
    assert ThreadOk(p, s, i);
    assert Occupied(s'.table) == Occupied(s.table);
    assert SettledThreads(s') == SettledThreads(s);
    forall j | 0 <= j < |p.keys|
      ensures ThreadOk(p, s', j)
    {
      assert ThreadOk(p, s, j);
      assert j != i ==> p.keys[j] != p.keys[i];
    }
  }

  lemma PassKeepsThread(p: Problem, s: State, i: nat, j: nat)
    requires Inv(p, s) && i < |p.keys| && j < |p.keys| && s.threads[i].phase.Probing? && InBounds(p, Step(p, s, i))
    requires s.table[Pos(p, s, i)].key != EMPTY && s.table[Pos(p, s, i)].key != p.keys[i]
    ensures ThreadOk(p, Step(p, s, i), j)
  {
    hide PowerOfTwo, TableContents;
    assert ThreadOk(p, s, j);
  }

  lemma PassKeeps(p: Problem, s: State, i: nat)
    requires Inv(p, s) && i < |p.keys| && s.threads[i].phase.Probing? && s.table[Pos(p, s, i)].key != EMPTY
    ensures Inv(p, Step(p, s, i)) && Step(p, s, i) == s.(threads := s.threads[i := Thread(Probing, s.threads[i].d + 1)])
  {
    hide PowerOfTwo;
    assert ThreadOk(p, s, i);
    ProbingIsShort(p, s, i);
    var s' := Step(p, s, i);
    assert SettledThreads(s') == SettledThreads(s);
    forall j | 0 <= j < |p.keys|
      ensures ThreadOk(p, s', j)
    {
      PassKeepsThread(p, s, i, j);
    }
  }

  /** Every step of every interleaving keeps the invariant, and no slot is ever emptied or given another key. */
  lemma StepKeeps(p: Problem, s: State, i: nat)
    requires Inv(p, s) && i < |p.keys|
    ensures Inv(p, Step(p, s, i)) && TableGrows(s.table, Step(p, s, i).table)
  {
    if s.threads[i].phase.Claimed? {
      StoreKeeps(p, s, i);
    } else if s.threads[i].phase.Probing? {
      if s.table[Pos(p, s, i)].key == EMPTY {
        ClaimKeeps(p, s, i);
      } else {
        PassKeeps(p, s, i);
      }
    }
  }

  // ---------------------------------------------------------------- termination

  ghost function Left(t: Thread, n: nat): nat {
    match t.phase
    case Probing => if t.d < n then n + 2 - t.d else 2
    case Claimed => 1
    case Done => 0
  }

  /** Steps the threads may still take. */
  ghost function StepsLeft(threads: seq<Thread>, n: nat): nat {
    if threads == [] then 0 else Left(threads[0], n) + StepsLeft(threads[1..], n)
  }

  lemma {:induction false} StepsLeftUpdate(threads: seq<Thread>, n: nat, i: nat, t: Thread)
    requires i < |threads|
    ensures StepsLeft(threads[i := t], n) == StepsLeft(threads, n) - Left(threads[i], n) + Left(t, n)
    decreases i
  {
    if i > 0 {
      assert threads[i := t][1..] == threads[1..][i - 1 := t];
      StepsLeftUpdate(threads[1..], n, i - 1, t);
    } else {
      assert threads[i := t][1..] == threads[1..];
    }
  }

  lemma {:induction false} StepsLeftBound(threads: seq<Thread>, n: nat)
    ensures StepsLeft(threads, n) <= |threads| * (n + 2)
  {
    if threads != [] {
      StepsLeftBound(threads[1..], n);
      assert |threads| * (n + 2) == (n + 2) + (|threads| - 1) * (n + 2);
    }
  }

  /** Any step of a thread that is not done brings the whole build closer to its end. */
  lemma StepDecreases(p: Problem, s: State, i: nat)
    requires Inv(p, s) && i < |p.keys| && !s.threads[i].phase.Done?
    ensures StepsLeft(Step(p, s, i).threads, |p.keys|) < StepsLeft(s.threads, |p.keys|)
  {
    var n := |p.keys|;
    var s' := Step(p, s, i);
    assert s'.threads == s.threads[i := s'.threads[i]];
    StepsLeftUpdate(s.threads, n, i, s'.threads[i]);
    if s.threads[i].phase.Probing? {
      ProbingIsShort(p, s, i);
      if s.table[Pos(p, s, i)].key != EMPTY {
        PassKeeps(p, s, i);
      }
    }
  }

  ghost predicate AllDone(s: State) {
    forall i :: 0 <= i < |s.threads| ==> s.threads[i].phase.Done?
  }

  /** A run: the schedule names the thread of each step, and only unfinished threads are scheduled. */
  ghost predicate IsRun(p: Problem, s: State, schedule: seq<nat>, end: State)
    decreases |schedule|
  {
    if schedule == [] then end == s
    else
      && InBounds(p, s) && schedule[0] < |p.keys| && !s.threads[schedule[0]].phase.Done?
      && IsRun(p, Step(p, s, schedule[0]), schedule[1..], end)
  }

  /** Every run keeps the invariant and makes at most n (n + 2) steps: all probing loops terminate. */
  lemma {:induction false} RunsAreShort(p: Problem, s: State, schedule: seq<nat>, end: State)
    requires Inv(p, s) && IsRun(p, s, schedule, end)
    ensures Inv(p, end) && TableGrows(s.table, end.table)
    ensures |schedule| <= StepsLeft(s.threads, |p.keys|) <= |p.keys| * (|p.keys| + 2)
    decreases |schedule|
  {
    StepsLeftBound(s.threads, |p.keys|);
    if schedule != [] {
      StepKeeps(p, s, schedule[0]);
      StepDecreases(p, s, schedule[0]);
      RunsAreShort(p, Step(p, s, schedule[0]), schedule[1..], end);
    }
  }

  /** In the finished table key i sits in exactly one slot, with value i, and nothing else is stored. */
  lemma FinishedTable(p: Problem, s: State)
    requires Inv(p, s) && AllDone(s)
    ensures forall i :: 0 <= i < |p.keys| ==> s.table[Pos(p, s, i)] == Slot(p.keys[i], i)
    ensures forall i, pos :: 0 <= i < |p.keys| && 0 <= pos < p.cap && s.table[pos].key == p.keys[i] ==>
      pos == Pos(p, s, i)
    ensures forall pos :: 0 <= pos < p.cap ==>
      s.table[pos] == Slot(EMPTY, 0) || exists i :: 0 <= i < |p.keys| && s.table[pos] == Slot(p.keys[i], i)
  {
    forall i | 0 <= i < |p.keys|
      ensures s.table[Pos(p, s, i)] == Slot(p.keys[i], i)
    {
      assert ThreadOk(p, s, i);
    }
  }

  /** The build: threads are scheduled one atomic step at a time in an arbitrary order. */
  method Build(p: Problem) returns (table: array<Slot>, ghost s: State)
    requires Sane(p)
    ensures fresh(table) && table[..] == s.table && Inv(p, s) && AllDone(s)
  {
    table := new Slot[p.cap](_ => Slot(EMPTY, 0));
    var threads := seq(|p.keys|, _ => Thread(Probing, 0));
    s := Cleared(p);
    ClearedIsOk(p);
    while exists i :: 0 <= i < |threads| && !threads[i].phase.Done?
      invariant s.threads == threads && s.table == table[..] && Inv(p, s)
      decreases StepsLeft(threads, |p.keys|)
    {
      var i :| 0 <= i < |threads| && !threads[i].phase.Done?;
      var t := threads[i];
      var pos := At(p, Home(p, p.keys[i]), t.d);
      StepKeeps(p, s, i);
      StepDecreases(p, s, i);
      s := Step(p, s, i);
      if t.phase.Claimed? {
        table[pos] := table[pos].(val := i);
        threads := threads[i := t.(phase := Done)];
      } else if table[pos].key == EMPTY {
        table[pos] := table[pos].(key := p.keys[i]);
        threads := threads[i := t.(phase := Claimed)];
      } else if table[pos].key == p.keys[i] {
        threads := threads[i := t.(phase := Done)];
      } else {
        threads := threads[i := t.(d := t.d + 1)];
      }
    }
  }

  /** The build as it is launched: the capacity from the doubling loop, the hash from the finalizer. */
  method BuildIndex(keys: seq<nat>) returns (p: Problem, table: array<Slot>, mask: nat, ghost s: State)
    requires forall i :: 0 <= i < |keys| ==> keys[i] < EMPTY
    requires forall i, j :: 0 <= i < j < |keys| ==> keys[i] != keys[j]
    ensures p.keys == keys && p.hash == Scramble && p.cap == mask + 1 >= 16 && mask != 0
    ensures fresh(table) && table[..] == s.table && Inv(p, s) && AllDone(s)
  {
    var cap := Capacity(|keys|);
    p := Problem(keys, cap, Scramble);
    table, s := Build(p);
    mask := cap - 1;
  }

  // ---------------------------------------------------------------- lookup

  /** r is the position of key in keys, or -1 when it is absent. */
  ghost predicate IsIndexOf(keys: seq<nat>, key: nat, r: int) {
    if r == -1 then key !in keys else 0 <= r < |keys| && keys[r] == key
  }

  ghost predicate StrictlyAscending(keys: seq<nat>) {
    forall i, j :: 0 <= i < j < |keys| ==> keys[i] < keys[j]
  }

  method FindVoxel(keys: seq<nat>, key: nat) returns (r: int)
    requires StrictlyAscending(keys)
    ensures IsIndexOf(keys, key, r)
  {
    var lo, hi := 0, |keys|;
    while lo < hi
      invariant 0 <= lo <= hi <= |keys|
      invariant forall i :: 0 <= i < lo ==> keys[i] < key
      invariant forall i :: hi <= i < |keys| ==> keys[i] >= key
    {
      var mid := (lo + hi) / 2;
      if keys[mid] < key {
        lo := mid + 1;
      } else {
        hi := mid;
      }
    }
    if lo < |keys| && keys[lo] == key {
      return lo;
    }
    return -1;
  }

  /** On a finished table the probe loop ends and finds every key; for the empty marker itself it returns the value of a
      free slot. */
  method HashLookup(p: Problem, table: seq<Slot>, key: nat, ghost s: State) returns (r: int)
    requires Inv(p, s) && AllDone(s) && table == s.table
    ensures key != EMPTY ==> IsIndexOf(p.keys, key, r)
    ensures key == EMPTY ==> r == 0
  {
    ghost var home := Home(p, key);
    MaskIsRemainder(p.hash(key), p.cap);
    var pos := And(p.hash(key), p.cap - 1);
    ghost var d := 0;
    while true
      invariant 0 <= d < p.cap && pos == At(p, home, d)
      invariant forall e :: 0 <= e < d ==> table[At(p, home, e)].key != EMPTY && table[At(p, home, e)].key != key
      decreases p.cap - d
    {
      if table[pos].key == key {
        Found(p, s, key, pos);
        return table[pos].val;
      }
      if table[pos].key == EMPTY {
        Absent(p, s, key, d);
        return -1;
      }
      PathIsShort(p, s, home, d + 1);
      ProbeStep(p, home, d);
      pos := And(pos + 1, p.cap - 1);
      d := d + 1;
    }
  }

  lemma Found(p: Problem, s: State, key: nat, pos: nat)
    requires Inv(p, s) && AllDone(s) && pos < p.cap && s.table[pos].key == key
    ensures key != EMPTY ==> IsIndexOf(p.keys, key, s.table[pos].val)
    ensures key == EMPTY ==> s.table[pos].val == 0
  {
    FinishedTable(p, s);
  }

  /** A finished key rests in its slot, behind occupied slots only. */
  lemma RestsOnPath(p: Problem, s: State, i: nat)
    requires Inv(p, s) && AllDone(s) && i < |p.keys|
    ensures |s.threads| == |p.keys| && s.threads[i].d < p.cap
    ensures s.table[At(p, Home(p, p.keys[i]), s.threads[i].d)].key == p.keys[i]
    ensures forall e :: 0 <= e < s.threads[i].d ==> s.table[At(p, Home(p, p.keys[i]), e)].key != EMPTY
  {
    assert ThreadOk(p, s, i);
  }

  lemma Absent(p: Problem, s: State, key: nat, d: nat)
    requires Inv(p, s) && AllDone(s) && d < p.cap && s.table[At(p, Home(p, key), d)].key == EMPTY
    requires forall e :: 0 <= e < d ==> s.table[At(p, Home(p, key), e)].key != key
    ensures key !in p.keys
  {
    forall i | 0 <= i < |p.keys|
      ensures p.keys[i] != key
    {
      RestsOnPath(p, s, i);
    }
  }

  /** Hash lookup and binary search agree on a probe key exactly when it is not the empty marker. */
  method LookupsAgree(p: Problem, table: seq<Slot>, key: nat, ghost s: State) returns (hashed: int, searched: int)
    requires Inv(p, s) && AllDone(s) && table == s.table && StrictlyAscending(p.keys)
    ensures hashed == searched <==> key != EMPTY
    ensures IsIndexOf(p.keys, key, searched)
  {
    hashed := HashLookup(p, table, key, s);
    searched := FindVoxel(p.keys, key);
  }
}
