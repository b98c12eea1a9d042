/**
 The forward iterators over strided and dynamic memrefs (backend/include/ExecutionEngine/CRunnerUtils.h):
 operator++ carries like an odometer, and the past-the-end position is the offset -1. A shape may be empty.
 */
module StridedIterator {
  import opened StridedCopy

  /** What an iterator reads of its descriptor. */
  datatype Layout = Layout(offset: int, sizes: seq<nat>, strides: seq<int>)
  {
    predicate Valid() { |sizes| == |strides| }

    function Position(idx: seq<int>): int
      requires Valid() && |idx| == |sizes|
    {
      offset + Dot(idx, strides)
    }
  }

  /** operator[] walks the dimensions from the last to the first. */
  method Subscript(m: Layout, indices: seq<int>) returns (curOffset: int)
    requires m.Valid() && InBox(indices, m.sizes)
    ensures curOffset == m.Position(indices)
  {
    curOffset := m.offset;
    for dim := |indices| downto 0
      invariant curOffset == m.offset + Dot(indices[dim..], m.strides[dim..])
    {
      curOffset := curOffset + indices[dim] * m.strides[dim];
      assert indices[dim..][1..] == indices[dim + 1..] && m.strides[dim..][1..] == m.strides[dim + 1..];
    }
    assert indices[0..] == indices && m.strides[0..] == m.strides;
  }

  /** operator[] with one index drops the first dimension; subscripting the rest finishes the job. */
  function Slice(m: Layout, i: int): Layout
    requires m.Valid() && |m.sizes| > 0
  {
    Layout(m.offset + i * m.strides[0], m.sizes[1..], m.strides[1..])
  }

  lemma SlicePosition(m: Layout, idx: seq<int>)
    requires m.Valid() && |idx| == |m.sizes| > 0
    ensures Slice(m, idx[0]).Valid() && Slice(m, idx[0]).Position(idx[1..]) == m.Position(idx)
  {
  }

  // ------------------------------------------------------------------
  // The iterator
  // ------------------------------------------------------------------

  /** An iterator's own fields: the offset, where -1 stands for the end, and the index of each dimension. */
  datatype Cursor = Cursor(offset: int, indices: seq<int>)

  function Begin(m: Layout): (c: Cursor)
    ensures |c.indices| == |m.sizes|
  {
    Cursor(m.offset, seq(|m.sizes|, i => 0))
  }

  /** What operator++ does from dimension dim downwards: dimensions at their last index carry. */
  function Carry(m: Layout, c: Cursor, dim: int): (r: Cursor)
    requires m.Valid() && |c.indices| == |m.sizes| && -1 <= dim < |m.sizes|
    ensures |r.indices| == |m.sizes|
    decreases dim + 1
  {
    if dim < 0 then c.(offset := -1)
    else if c.indices[dim] + 1 == m.sizes[dim] then
      Carry(m, Cursor(c.offset - c.indices[dim] * m.strides[dim], c.indices[dim := 0]), dim - 1)
    else Cursor(c.offset + m.strides[dim], c.indices[dim := c.indices[dim] + 1])
  }

  function Step(m: Layout, c: Cursor): (r: Cursor)
    requires m.Valid() && |c.indices| == |m.sizes|
    ensures |r.indices| == |m.sizes|
  {
    Carry(m, c, |m.sizes| - 1)
  }

  class MemRefIterator {
    const descriptor: Layout
    var offset: int
    var indices: seq<int>

    function View(): Cursor
      reads this
    {
      Cursor(offset, indices)
    }

    /** begin(): all indices zero, at the descriptor's offset. */
    constructor (m: Layout)
      ensures descriptor == m && View() == Begin(m)
    {
      descriptor := m;
      offset := m.offset;
      indices := seq(|m.sizes|, i => 0);
    }

    /** operator++ */
    method Next()
      requires descriptor.Valid() && |indices| == |descriptor.sizes|
      modifies this
      ensures View() == Step(descriptor, old(View()))
      ensures old(On(descriptor, View())) ==>
                Arrives(descriptor, View(), Ordinal(old(indices), descriptor.sizes) + 1)
    {
      if On(descriptor, View()) { StepArrives(descriptor, View()); }
      var m := descriptor;
      var dim := |m.sizes| - 1;
      while dim >= 0 && indices[dim] + 1 == m.sizes[dim]
        invariant -1 <= dim < |m.sizes| && |indices| == |m.sizes|
        invariant Carry(m, View(), dim) == Step(m, old(View()))
        decreases dim
      {
        offset := offset - indices[dim] * m.strides[dim];
        indices := indices[dim := 0];
        dim := dim - 1;
      }
      if dim < 0 {
        offset := -1;
        return;
      }
      indices := indices[dim := indices[dim] + 1];
      offset := offset + m.strides[dim];
    }
  }

  // ------------------------------------------------------------------
  // Standing on an element
  // ------------------------------------------------------------------

  /** The cursor stands on an element: its offset is the closed form over its indices. */
  ghost predicate On(m: Layout, c: Cursor) {
    m.Valid() && InBox(c.indices, m.sizes) && c.offset == m.Position(c.indices)
  }

  /** The element at place n in row-major order, or the end if there is none. */
  ghost predicate Arrives(m: Layout, c: Cursor, n: int) {
    if n < Product(m.sizes) then On(m, c) && Ordinal(c.indices, m.sizes) == n else c.offset == -1
  }

  lemma StepArrives(m: Layout, c: Cursor)
    requires On(m, c)
    ensures Arrives(m, Step(m, c), Ordinal(c.indices, m.sizes) + 1)
  {
    assert m.sizes[|m.sizes|..] == [];
    CarryArrives(m, c, |m.sizes| - 1, Ordinal(c.indices, m.sizes) + 1);
  }

  /** Everything behind dim is at zero, and place n is one further in dimension dim. */
  ghost predicate Carrying(m: Layout, c: Cursor, dim: int, n: int) {
    && On(m, c) && -1 <= dim < |m.sizes|
    && Ordinal(c.indices, m.sizes) + Product(m.sizes[dim + 1..]) == n
    && forall j :: dim < j < |c.indices| ==> c.indices[j] == 0
  }

  lemma {:induction false} CarryArrives(m: Layout, c: Cursor, dim: int, n: int)
    requires Carrying(m, c, dim, n)
    ensures Arrives(m, Carry(m, c, dim), n)
    decreases dim + 1
  {
    if dim < 0 {
      OrdinalZero(c.indices, m.sizes);
      assert m.sizes[0..] == m.sizes;
    } else if c.indices[dim] + 1 == m.sizes[dim] {
      var c' := Cursor(c.offset - c.indices[dim] * m.strides[dim], c.indices[dim := 0]);
      CarriedOn(m, c, dim, n, c');
      CarryArrives(m, c', dim - 1, n);
    } else {
      BumpArrives(m, c, dim, n);
    }
  }

  lemma CarriedOn(m: Layout, c: Cursor, dim: nat, n: int, c': Cursor)
    requires Carrying(m, c, dim, n) && c.indices[dim] + 1 == m.sizes[dim]
    requires c' == Cursor(c.offset - c.indices[dim] * m.strides[dim], c.indices[dim := 0])
    ensures Carrying(m, c', dim - 1, n)
  {
    CarryOut(c.indices, m.sizes, m.strides, dim);
  }

  lemma BumpArrives(m: Layout, c: Cursor, dim: nat, n: int)
    requires Carrying(m, c, dim, n) && c.indices[dim] + 1 != m.sizes[dim]
    ensures Arrives(m, Cursor(c.offset + m.strides[dim], c.indices[dim := c.indices[dim] + 1]), n)
  {
    Bump(c.indices, m.sizes, m.strides, dim);
    OrdinalBound(c.indices[dim := c.indices[dim] + 1], m.sizes);
  }

  /** An axis at its last index goes back to zero and hands its weight to the axis before it. */
  lemma CarryOut(idx: seq<int>, sizes: seq<nat>, strides: seq<int>, a: nat)
    requires |idx| == |sizes| == |strides| && a < |idx| && idx[a] + 1 == sizes[a]
    ensures Dot(idx[a := 0], strides) == Dot(idx, strides) - idx[a] * strides[a]
    ensures Ordinal(idx[a := 0], sizes) + Product(sizes[a..]) == Ordinal(idx, sizes) + Product(sizes[a + 1..])
  {
    DotUpdate(idx, strides, a, 0);
    OrdinalUpdate(idx, sizes, a, 0);
    ProductStep(sizes, a);
    TakeBack(idx[a], sizes[a], Product(sizes[a + 1..]));
    TakeBack(idx[a], sizes[a], strides[a]);
  }

  lemma TakeBack(i: int, size: int, p: int)
    requires i + 1 == size
    ensures (0 - i) * p == -(i * p) && size * p == i * p + p
  {
  }

  // ------------------------------------------------------------------
  // Whole traversals
  // ------------------------------------------------------------------

  /** The indices seen by `for (it = begin(); it != end(); ++it)` within n rounds, and whether it has ended. */
  function Walk(m: Layout, c: Cursor, n: nat): (seq<seq<int>>, bool)
    requires m.Valid() && |c.indices| == |m.sizes|
    decreases n
  {
    if c.offset == -1 then ([], true)
    else if n == 0 then ([], false)
    else
      var rest := Walk(m, Step(m, c), n - 1);
      ([c.indices] + rest.0, rest.1)
  }

  lemma WalkOn(m: Layout, c: Cursor, n: nat, seen: seq<seq<int>>)
    requires m.Valid() && |c.indices| == |m.sizes| && c.offset != -1 && n > 0
    ensures Walk(m, c, n).1 == Walk(m, Step(m, c), n - 1).1
    ensures seen + Walk(m, c, n).0 == seen + [c.indices] + Walk(m, Step(m, c), n - 1).0
  {
  }

  /** The loop itself, left after the given number of rounds if it has not ended by then. */
  method Traverse(m: Layout, rounds: nat) returns (visited: seq<seq<int>>, ended: bool)
    requires m.Valid()
    ensures visited == Walk(m, Begin(m), rounds).0 && ended == Walk(m, Begin(m), rounds).1
  {
    var it := new MemRefIterator(m);
    visited := [];
    var left := rounds;
    while it.offset != -1 && left > 0
      invariant fresh(it) && it.descriptor == m && |it.indices| == |m.sizes| && left >= 0
      invariant visited + Walk(m, it.View(), left).0 == Walk(m, Begin(m), rounds).0
      invariant Walk(m, it.View(), left).1 == Walk(m, Begin(m), rounds).1
      decreases left
    {
      WalkOn(m, it.View(), left, visited);
      visited := visited + [it.indices];
      it.Next();
      left := left - 1;
    }
    ended := it.offset == -1;
  }

  /** Consecutive elements in row-major order, none of them at offset -1; the first is at place n. */
  ghost predicate InOrder(m: Layout, visited: seq<seq<int>>, n: int)
    requires m.Valid()
  {
    forall k :: 0 <= k < |visited| ==>
      InBox(visited[k], m.sizes) && Ordinal(visited[k], m.sizes) == n + k && m.Position(visited[k]) != -1
  }

  /** The walk goes on in order up to the first element at offset -1, and ends with the last element at the latest. */
  ghost predicate WalksFrom(m: Layout, c: Cursor, n: nat, place: int)
    requires m.Valid() && |c.indices| == |m.sizes|
  {
    && InOrder(m, Walk(m, c, n).0, place) && place + |Walk(m, c, n).0| <= Product(m.sizes)
    && (n >= Product(m.sizes) - place ==> Walk(m, c, n).1)
  }

  lemma {:induction false} WalkInOrder(m: Layout, c: Cursor, n: nat, place: int)
    requires m.Valid() && |c.indices| == |m.sizes| && 0 <= place <= Product(m.sizes) && Arrives(m, c, place)
    ensures WalksFrom(m, c, n, place)
    decreases n
  {
    if c.offset != -1 && n > 0 {
      StepArrives(m, c);
      WalkInOrder(m, Step(m, c), n - 1, place + 1);
      WalkExtends(m, c, n, place);
    }
  }

  lemma WalkExtends(m: Layout, c: Cursor, n: nat, place: int)
    requires On(m, c) && c.offset != -1 && n > 0 && Ordinal(c.indices, m.sizes) == place
    requires WalksFrom(m, Step(m, c), n - 1, place + 1)
    ensures WalksFrom(m, c, n, place)
  {
    var rest := Walk(m, Step(m, c), n - 1).0;
    forall k | 0 <= k < |rest| + 1
      ensures InBox(([c.indices] + rest)[k], m.sizes) && Ordinal(([c.indices] + rest)[k], m.sizes) == place + k
      ensures m.Position(([c.indices] + rest)[k]) != -1
    {
      if k > 0 { assert ([c.indices] + rest)[k] == rest[k - 1]; }
    }
  }

  /** The loop ends, and it has seen every element once, in row-major order, and nothing else. */
  ghost predicate VisitsElements(m: Layout, visited: seq<seq<int>>, ended: bool) {
    && ended && |visited| == Product(m.sizes)
    && forall k :: 0 <= k < |visited| ==> InBox(visited[k], m.sizes) && Ordinal(visited[k], m.sizes) == k
  }

  /** Where the loop does what it is for: on a shape without elements it must start at offset -1. */
  ghost predicate Traversable(m: Layout)
    requires m.Valid()
  {
    if Product(m.sizes) == 0 then m.offset == -1 else forall idx :: InBox(idx, m.sizes) ==> m.Position(idx) != -1
  }

  lemma TraversalExact(m: Layout)
    requires m.Valid()
    ensures Traversable(m) <==>
            exists n: nat :: VisitsElements(m, Walk(m, Begin(m), n).0, Walk(m, Begin(m), n).1)
  {
    var n := Product(m.sizes);
    if n > 0 { BeginArrives(m); }
    if Traversable(m) {
      if n > 0 {
        WalkInOrder(m, Begin(m), n, 0);
        WalkCount(m, Begin(m), n, 0);
      }
      assert VisitsElements(m, Walk(m, Begin(m), n).0, Walk(m, Begin(m), n).1);
    }
    forall k: nat | VisitsElements(m, Walk(m, Begin(m), k).0, Walk(m, Begin(m), k).1) ensures Traversable(m) {
      if n > 0 {
        WalkInOrder(m, Begin(m), k, 0);
        NoneAtEnd(m, Walk(m, Begin(m), k).0);
      }
    }
  }

  lemma BeginArrives(m: Layout)
    requires m.Valid() && Product(m.sizes) > 0
    ensures Arrives(m, Begin(m), 0)
  {
    var c := Begin(m);
    forall i | 0 <= i < |m.sizes| ensures m.sizes[i] > 0 {
      if m.sizes[i] == 0 { EmptyProduct(m.sizes, i); }
    }
    DotZero(c.indices, m.strides);
    OrdinalZero(c.indices, m.sizes);
  }

  /** A list of all places in order contains every element. */
  lemma NoneAtEnd(m: Layout, visited: seq<seq<int>>)
    requires m.Valid() && InOrder(m, visited, 0) && |visited| == Product(m.sizes)
    ensures forall idx :: InBox(idx, m.sizes) ==> m.Position(idx) != -1
  {
    forall idx | InBox(idx, m.sizes) ensures m.Position(idx) != -1 {
      OrdinalBound(idx, m.sizes);
      OrdinalInjective(idx, visited[Ordinal(idx, m.sizes)], m.sizes);
    }
  }

  /** Where no element lies at offset -1 the walk cannot end early. */
  lemma {:induction false} WalkCount(m: Layout, c: Cursor, n: nat, place: int)
    requires m.Valid() && |c.indices| == |m.sizes| && 0 <= place <= Product(m.sizes) && Arrives(m, c, place)
    requires forall idx :: InBox(idx, m.sizes) ==> m.Position(idx) != -1
    requires n >= Product(m.sizes) - place
    ensures place + |Walk(m, c, n).0| == Product(m.sizes)
    decreases n
  {
    if place < Product(m.sizes) {
      StepArrives(m, c);
      WalkCount(m, Step(m, c), n - 1, place + 1);
    }
  }

  /** A vector of length zero: nothing lies at offset -1, and yet the loop starts, and never ends. */
  lemma EmptyNeverEnds(n: nat)
    ensures Layout(0, [0], [1]).Valid() && !exists idx :: InBox(idx, [0])
    ensures !Walk(Layout(0, [0], [1]), Begin(Layout(0, [0], [1])), n).1
    ensures |Walk(Layout(0, [0], [1]), Begin(Layout(0, [0], [1])), n).0| == n
  {
    var m := Layout(0, [0], [1]);
    assert Begin(m).indices == [0];
    WalkPastZero(m, Begin(m), n);
  }

  lemma {:induction false} WalkPastZero(m: Layout, c: Cursor, n: nat)
    requires m == Layout(0, [0], [1]) && |c.indices| == 1 && c.indices[0] == c.offset >= 0
    ensures !Walk(m, c, n).1 && |Walk(m, c, n).0| == n
    decreases n
  {
    if n > 0 {
      assert Step(m, c) == Carry(m, c, 0) == Cursor(c.offset + 1, c.indices[0 := c.indices[0] + 1]);
      WalkPastZero(m, Step(m, c), n - 1);
    }
  }
}
