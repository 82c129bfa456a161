/** The result container of the CPU searches: two caller-owned buffers kept sorted in place. */
module KnnResult {
  import opened KNearest

  /** The cells behind the neighbours found name no point: they hold the invalid index and the largest distance. */
  ghost predicate Unused(indices: array<int>, distances: array<real>, found: nat, k: nat, far: real, invalid: int)
    requires indices.Length == distances.Length == k
    reads indices, distances
  {
    forall a :: found <= a < k ==> indices[a] == invalid && distances[a] == far
  }

  class KnnResult {
    const k: nat                  // buffer size
    const far: real               // the largest representable distance, which fills unused cells
    const invalid: int            // the index that fills unused cells
    const indices: array<int>
    const distances: array<real>
    var numFound: nat
    ghost var entries: seq<Entry>

    ghost predicate Valid()
      reads this, indices, distances
    {
      && 0 < k && indices.Length == distances.Length == k
      && numFound == |entries| <= k
      && (forall a :: 0 <= a < numFound ==> distances[a] == entries[a].d && indices[a] == entries[a].j)
      && (forall a :: 0 <= a < numFound ==> distances[a] < far)
      && Unused(indices, distances, numFound, k, far, invalid)
    }

    /** The buffers must have the requested size, which must be positive. */
    constructor (indices: array<int>, distances: array<real>, k: nat, far: real, invalid: int)
      requires 0 < k && indices.Length == distances.Length == k
      modifies indices, distances
      ensures Valid() && entries == []
      ensures this.k == k && this.far == far && this.invalid == invalid
      ensures this.indices == indices && this.distances == distances
    {
      this.k, this.far, this.invalid, this.indices, this.distances := k, far, invalid, indices, distances;
      numFound, entries := 0, [];
      new;
      for a := 0 to k
        invariant forall b :: 0 <= b < a ==> indices[b] == invalid && distances[b] == far
        invariant numFound == 0 && entries == []
      {
        indices[a], distances[a] := invalid, far;
      }
    }

    function WorstDistance(): (d: real)
      requires Valid()
      reads this, indices, distances
      ensures d == if |entries| == k then entries[k - 1].d else far
    {
      distances[k - 1]
    }

    /** Insertion by shifting the tail of both buffers. `index` is the already transformed index. */
    method Push(index: int, distance: real)
      requires Valid() && Ascending(entries, false)
      modifies this, indices, distances
      ensures Valid()
      ensures entries == if distance < far then KNearest.Push(old(entries), Entry(distance, index), k, false)
        else old(entries)
    {
      if distance >= WorstDistance() {
        return;
      }
      ghost var e := Entry(distance, index);
      ghost var base := if |entries| < k then entries else entries[..k - 1];
      if k == 1 {
        indices[0], distances[0] := index, distance;
      } else {
        Place(indices, distances, if numFound < k - 1 then numFound else k - 1, index, distance, false, base);
      }
      entries := Insert(base, e, false);
      numFound := if numFound + 1 < k then numFound + 1 else k;
    }
  }

  /** Sorted insertion in place: shifts the entries behind the new one by a cell each, from `top` downwards. */
  method Place(indices: array<int>, distances: array<real>, top: nat, index: int, distance: real, lex: bool,
               ghost base: seq<Entry>)
    requires top == |base| && top < indices.Length == distances.Length
    requires forall a :: 0 <= a < top ==> Entry(distances[a], indices[a]) == base[a]
    modifies indices, distances
    ensures var s := Insert(base, Entry(distance, index), lex);
      forall a :: 0 <= a <= top ==> Entry(distances[a], indices[a]) == s[a]
    ensures forall a :: top < a < indices.Length ==> distances[a] == old(distances[a]) && indices[a] == old(indices[a])
  {
    hide Before, Insert;
    var e, loc := Entry(distance, index), top;
    assert base[..top] == base;
    while loc > 0 && Before(e, Entry(distances[loc - 1], indices[loc - 1]), lex)
      invariant 0 <= loc <= top
      invariant InsertAt(base, e, lex) == InsertAt(base[..loc], e, lex)
      invariant forall a :: 0 <= a < loc ==> Entry(distances[a], indices[a]) == base[a]
      invariant forall a :: loc < a <= top ==> Entry(distances[a], indices[a]) == base[a - 1]
      invariant forall a :: top < a < indices.Length ==>
        distances[a] == old(distances[a]) && indices[a] == old(indices[a])
    {
      assert base[..loc][..loc - 1] == base[..loc - 1];
      indices[loc] := indices[loc - 1];
      distances[loc] := distances[loc - 1];
      loc := loc - 1;
    }
    assert InsertAt(base, e, lex) == loc;
    indices[loc], distances[loc] := index, distance;
    InsertCells(base, e, lex);
  }
}
