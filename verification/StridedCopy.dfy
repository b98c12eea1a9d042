/**
 Strided memory: the element-by-element copy and the iterators advance an odometer of indices and a linear
 position together (backend/include/ExecutionEngine/CRunnerUtils.cpp and CRunnerUtils.h). The position is
 always the closed form over the indices, for every rank, every stride and every element size.
 */
module StridedCopy {
  import Arith

  // ------------------------------------------------------------------
  // Indices in row-major order
  // ------------------------------------------------------------------

  /** The linear position of a multi-index. */
  function Dot(idx: seq<int>, strides: seq<int>): int
    requires |idx| == |strides|
  {
    if idx == [] then 0 else idx[0] * strides[0] + Dot(idx[1..], strides[1..])
  }

  predicate InBox(idx: seq<int>, sizes: seq<nat>) {
    |idx| == |sizes| && forall i :: 0 <= i < |idx| ==> 0 <= idx[i] < sizes[i]
  }

  function Product(sizes: seq<nat>): nat {
    if sizes == [] then 1 else sizes[0] * Product(sizes[1..])
  }

  /** The place of a multi-index in row-major order. */
  function Ordinal(idx: seq<int>, sizes: seq<nat>): int
    requires |idx| == |sizes|
  {
    if idx == [] then 0 else idx[0] * Product(sizes[1..]) + Ordinal(idx[1..], sizes[1..])
  }

  lemma {:induction false} DotUpdate(idx: seq<int>, strides: seq<int>, a: nat, v: int)
    requires |idx| == |strides| && a < |idx|
    ensures Dot(idx[a := v], strides) == Dot(idx, strides) + (v - idx[a]) * strides[a]
  {
    if a == 0 {
      assert idx[0 := v][1..] == idx[1..];
      assert v * strides[0] == idx[0] * strides[0] + (v - idx[0]) * strides[0];
    } else {
      assert idx[a := v][1..] == idx[1..][a - 1 := v];
      DotUpdate(idx[1..], strides[1..], a - 1, v);
    }
  }

  lemma {:induction false} DotZero(idx: seq<int>, strides: seq<int>)
    requires |idx| == |strides| && forall i :: 0 <= i < |idx| ==> idx[i] == 0
    ensures Dot(idx, strides) == 0
  {
    if idx != [] { DotZero(idx[1..], strides[1..]); }
  }

  lemma {:induction false} OrdinalZero(idx: seq<int>, sizes: seq<nat>)
    requires |idx| == |sizes| && forall i :: 0 <= i < |idx| ==> idx[i] == 0
    ensures Ordinal(idx, sizes) == 0
  {
    if idx != [] { OrdinalZero(idx[1..], sizes[1..]); }
  }

  lemma {:induction false} OrdinalBound(idx: seq<int>, sizes: seq<nat>)
    requires InBox(idx, sizes)
    ensures 0 <= Ordinal(idx, sizes) < Product(sizes)
  {
    if idx != [] {
      OrdinalBound(idx[1..], sizes[1..]);
      RowBound(idx[0], sizes[0], Ordinal(idx[1..], sizes[1..]), Product(sizes[1..]));
    }
  }

  lemma RowBound(i: int, n: int, r: int, p: int)
    requires 0 <= i < n && 0 <= r < p
    ensures 0 <= i * p + r < n * p
  {
    assert (i + 1) * p <= n * p;
    assert i * p >= 0;
  }

  /** Two indices at the same place are the same index. */
  lemma {:induction false} OrdinalInjective(a: seq<int>, b: seq<int>, sizes: seq<nat>)
    requires InBox(a, sizes) && InBox(b, sizes) && Ordinal(a, sizes) == Ordinal(b, sizes)
    ensures a == b
  {
    if a != [] {
      var p := Product(sizes[1..]);
      OrdinalBound(a[1..], sizes[1..]);
      OrdinalBound(b[1..], sizes[1..]);
      SameQuotient(a[0], Ordinal(a[1..], sizes[1..]), b[0], Ordinal(b[1..], sizes[1..]), p);
      OrdinalInjective(a[1..], b[1..], sizes[1..]);
      assert a == [a[0]] + a[1..] && b == [b[0]] + b[1..];
    }
  }

  lemma SameQuotient(q: int, r: int, q': int, r': int, p: int)
    requires 0 <= r < p && 0 <= r' < p && q * p + r == q' * p + r'
    ensures q == q' && r == r'
  {
    Arith.UniqueDivMod(q * p + r, p, q, r);
    Arith.UniqueDivMod(q * p + r, p, q', r');
  }

  /**
   The odometer: with everything behind axis a at zero, advancing axis a by one moves the place by the
   number of elements behind it.
   */
  lemma {:induction false} OrdinalUpdate(idx: seq<int>, sizes: seq<nat>, a: nat, v: int)
    requires |idx| == |sizes| && a < |idx|
    ensures Ordinal(idx[a := v], sizes) == Ordinal(idx, sizes) + (v - idx[a]) * Product(sizes[a + 1..])
  {
    if a == 0 {
      assert idx[0 := v][1..] == idx[1..];
      var p := Product(sizes[1..]);
      assert v * p == idx[0] * p + (v - idx[0]) * p;
    } else {
      assert idx[a := v][1..] == idx[1..][a - 1 := v];
      OrdinalUpdate(idx[1..], sizes[1..], a - 1, v);
      assert sizes[1..][a..] == sizes[a + 1..];
    }
  }

  lemma ProductStep(sizes: seq<nat>, a: nat)
    requires a < |sizes|
    ensures Product(sizes[a..]) == sizes[a] * Product(sizes[a + 1..])
  {
    assert sizes[a..][1..] == sizes[a + 1..];
  }

  lemma {:induction false} PositiveProduct(sizes: seq<nat>)
    requires forall i :: 0 <= i < |sizes| ==> sizes[i] > 0
    ensures Product(sizes) > 0
  {
    if sizes != [] { PositiveProduct(sizes[1..]); }
  }

  lemma {:induction false} EmptyProduct(sizes: seq<nat>, a: nat)
    requires a < |sizes| && sizes[a] == 0
    ensures Product(sizes) == 0
  {
    if a > 0 { EmptyProduct(sizes[1..], a - 1); }
  }

  // ------------------------------------------------------------------
  // memrefCopy
  // ------------------------------------------------------------------

  /** An unranked descriptor: data pointer, offset and strides in elements. */
  datatype MemRef = MemRef(data: int, offset: int, sizes: seq<nat>, strides: seq<int>)
  {
    /** The first byte of the element at idx. */
    function Byte(elemSize: nat, idx: seq<int>): int
      requires |idx| == |strides|
    {
      data + offset * elemSize + Dot(idx, Scaled(strides, elemSize))
    }

    /** Every element lies within a buffer of the given length. */
    ghost predicate Within(elemSize: nat, length: nat)
      requires |sizes| == |strides|
    {
      forall idx :: InBox(idx, sizes) ==> 0 <= Byte(elemSize, idx) && Byte(elemSize, idx) + elemSize <= length
    }

    /** No two elements share a byte. */
    ghost predicate Separate(elemSize: nat)
      requires |sizes| == |strides|
    {
      forall i, j :: InBox(i, sizes) && InBox(j, sizes) && i != j ==>
        Byte(elemSize, i) + elemSize <= Byte(elemSize, j) || Byte(elemSize, j) + elemSize <= Byte(elemSize, i)
    }
  }

  function Scaled(strides: seq<int>, elemSize: nat): (s: seq<int>)
    ensures |s| == |strides| && forall i :: 0 <= i < |s| ==> s[i] == strides[i] * elemSize
  {
    seq(|strides|, i requires 0 <= i < |strides| => strides[i] * elemSize)
  }

  ghost predicate Strided(m: MemRef) { |m.sizes| == |m.strides| }

  /** A byte belongs to the element at idx. */
  ghost predicate Covers(m: MemRef, elemSize: nat, idx: seq<int>, p: int)
    requires Strided(m)
  {
    InBox(idx, m.sizes) && m.Byte(elemSize, idx) <= p < m.Byte(elemSize, idx) + elemSize
  }

  /** Two descriptors of one shape over separate buffers, with destination elements that do not overlap. */
  ghost predicate Copyable(elemSize: nat, s: MemRef, from: nat, d: MemRef, to: nat) {
    && Strided(s) && Strided(d) && s.sizes == d.sizes
    && s.Within(elemSize, from) && d.Within(elemSize, to) && d.Separate(elemSize)
  }

  /** The bytes of the element at idx are the same on both sides. */
  ghost predicate ElementCopied<B(!new)>(src: seq<B>, s: MemRef, dst: seq<B>, d: MemRef, elemSize: nat, idx: seq<int>)
    requires Copyable(elemSize, s, |src|, d, |dst|) && InBox(idx, d.sizes)
  {
    dst[d.Byte(elemSize, idx)..d.Byte(elemSize, idx) + elemSize]
    == src[s.Byte(elemSize, idx)..s.Byte(elemSize, idx) + elemSize]
  }

  /** The first `count` elements in row-major order have been copied. */
  ghost predicate CopiedBefore<B(!new)>(src: seq<B>, s: MemRef, dst: seq<B>, d: MemRef, elemSize: nat, count: int)
    requires Copyable(elemSize, s, |src|, d, |dst|)
  {
    forall idx :: InBox(idx, d.sizes) && Ordinal(idx, d.sizes) < count ==> ElementCopied(src, s, dst, d, elemSize, idx)
  }

  /** No byte outside the elements of the descriptor differs. */
  ghost predicate OthersKept<B(!new)>(before: seq<B>, after: seq<B>, d: MemRef, elemSize: nat)
    requires Strided(d)
  {
    |before| == |after| &&
    forall p :: 0 <= p < |before| && before[p] != after[p] ==> exists idx :: Covers(d, elemSize, idx, p)
  }

  function Blit<B>(dst: seq<B>, to: nat, bytes: seq<B>): (r: seq<B>)
    requires to + |bytes| <= |dst|
    ensures |r| == |dst|
  {
    dst[..to] + bytes + dst[to + |bytes|..]
  }

  method MemCpy<B>(dst: array<B>, to: nat, src: array<B>, from: nat, count: nat)
    requires src != dst && to + count <= dst.Length && from + count <= src.Length
    modifies dst
    ensures dst[..] == Blit(old(dst[..]), to, src[from..from + count])
  {
    for b := 0 to count
      invariant forall j :: 0 <= j < dst.Length ==>
                  dst[j] == if to <= j < to + b then src[from + (j - to)] else old(dst[j])
    {
      dst[to + b] := src[from + b];
    }
    var copied := src[from..from + count];
    assert forall k :: 0 <= k < count ==> copied[k] == src[from + k];
  }

  /** Copying one more element keeps the ones before it, and touches no byte outside the destination's elements. */
  lemma CopyStep<B(!new)>(src: seq<B>, s: MemRef, dst: seq<B>, d: MemRef, elemSize: nat, at: seq<int>, next: seq<B>)
    requires Copyable(elemSize, s, |src|, d, |dst|) && InBox(at, d.sizes)
    requires CopiedBefore(src, s, dst, d, elemSize, Ordinal(at, d.sizes))
    requires next == Blit(dst, d.Byte(elemSize, at), src[s.Byte(elemSize, at)..s.Byte(elemSize, at) + elemSize])
    ensures CopiedBefore(src, s, next, d, elemSize, Ordinal(at, d.sizes) + 1)
    ensures OthersKept(dst, next, d, elemSize)
  {
    var to := d.Byte(elemSize, at);
    forall idx | InBox(idx, d.sizes) && Ordinal(idx, d.sizes) < Ordinal(at, d.sizes) + 1
      ensures ElementCopied(src, s, next, d, elemSize, idx)
    {
      if Ordinal(idx, d.sizes) == Ordinal(at, d.sizes) {
        OrdinalInjective(idx, at, d.sizes);
      } else {
        assert ElementCopied(src, s, dst, d, elemSize, idx);
        BlitElsewhere(dst, to, src[s.Byte(elemSize, at)..s.Byte(elemSize, at) + elemSize], d.Byte(elemSize, idx),
                      elemSize);
      }
    }
    forall p | 0 <= p < |dst| && dst[p] != next[p] ensures exists idx :: Covers(d, elemSize, idx, p) {
      assert Covers(d, elemSize, at, p);
    }
  }

  lemma NothingCopied<B(!new)>(src: seq<B>, s: MemRef, dst: seq<B>, d: MemRef, elemSize: nat)
    requires Copyable(elemSize, s, |src|, d, |dst|)
    ensures CopiedBefore(src, s, dst, d, elemSize, 0)
  {
    forall idx | InBox(idx, d.sizes) ensures Ordinal(idx, d.sizes) >= 0 {
      OrdinalBound(idx, d.sizes);
    }
  }

  lemma BlitElsewhere<B>(dst: seq<B>, to: nat, bytes: seq<B>, b: nat, n: nat)
    requires to + |bytes| <= |dst| && b + n <= |dst| && (b + n <= to || to + |bytes| <= b)
    ensures Blit(dst, to, bytes)[b..b + n] == dst[b..b + n]
  {
  }

  lemma OthersKeptTransitive<B(!new)>(a: seq<B>, b: seq<B>, c: seq<B>, d: MemRef, elemSize: nat)
    requires Strided(d) && OthersKept(a, b, d, elemSize) && OthersKept(b, c, d, elemSize)
    ensures OthersKept(a, c, d, elemSize)
  {
    forall p | 0 <= p < |a| && a[p] != c[p] ensures exists idx :: Covers(d, elemSize, idx, p) {
      assert a[p] != b[p] || b[p] != c[p];
    }
  }

  /**
   memrefCopy ends after exactly one copy per element; then every destination element equals its source
   element, and every byte that belongs to no destination element is as it was.
   */
  method MemrefCopy<B(!new)>(elemSize: nat, src: array<B>, s: MemRef, dst: array<B>, d: MemRef)
    returns (ghost copies: nat)
    requires src != dst && Copyable(elemSize, s, src.Length, d, dst.Length)
    modifies dst
    ensures copies == Product(s.sizes)
    ensures forall idx :: InBox(idx, d.sizes) ==> ElementCopied(src[..], s, dst[..], d, elemSize, idx)
    ensures OthersKept(old(dst[..]), dst[..], d, elemSize)
  {
    copies := 0;
    var empty := HasEmptyAxis(s.sizes);
    if !empty {
      if |s.sizes| == 0 {
        NothingCopied(src[..], s, dst[..], d, elemSize);
        CopyElement(elemSize, src, s, dst, d, [], s.data + s.offset * elemSize, d.data + d.offset * elemSize);
        copies := 1;
      } else {
        copies := CopyElements(elemSize, src, s, dst, d);
      }
    }
    forall idx | InBox(idx, d.sizes) ensures ElementCopied(src[..], s, dst[..], d, elemSize, idx) {
      OrdinalBound(idx, s.sizes);
    }
  }

  method HasEmptyAxis(sizes: seq<nat>) returns (empty: bool)
    ensures empty <==> Product(sizes) == 0
    ensures !empty ==> forall j :: 0 <= j < |sizes| ==> sizes[j] > 0
  {
    for axis := 0 to |sizes|
      invariant forall j :: 0 <= j < axis ==> sizes[j] > 0
    {
      if sizes[axis] == 0 {
        EmptyProduct(sizes, axis);
        return true;
      }
    }
    PositiveProduct(sizes);
    empty := false;
  }

  /** One memcpy of one element. */
  method CopyElement<B(!new)>(elemSize: nat, src: array<B>, s: MemRef, dst: array<B>, d: MemRef, ghost at: seq<int>,
                              from: int, to: int)
    requires src != dst && Copyable(elemSize, s, src.Length, d, dst.Length) && InBox(at, d.sizes)
    requires from == s.Byte(elemSize, at) && to == d.Byte(elemSize, at)
    requires CopiedBefore(src[..], s, dst[..], d, elemSize, Ordinal(at, d.sizes))
    modifies dst
    ensures CopiedBefore(src[..], s, dst[..], d, elemSize, Ordinal(at, d.sizes) + 1)
    ensures OthersKept(old(dst[..]), dst[..], d, elemSize)
  {
    ghost var before := dst[..];
    MemCpy(dst, to, src, from, elemSize);
    assert src[..][from..from + elemSize] == src[from..from + elemSize];
    CopyStep(src[..], s, before, d, elemSize, at, dst[..]);
  }

  /** Rank 1 and above: the odometer. */
  method CopyElements<B(!new)>(elemSize: nat, src: array<B>, s: MemRef, dst: array<B>, d: MemRef)
    returns (ghost copies: nat)
    requires src != dst && Copyable(elemSize, s, src.Length, d, dst.Length)
    requires |s.sizes| > 0 && forall j :: 0 <= j < |s.sizes| ==> s.sizes[j] > 0
    modifies dst
    ensures copies == Product(s.sizes)
    ensures CopiedBefore(src[..], s, dst[..], d, elemSize, copies)
    ensures OthersKept(old(dst[..]), dst[..], d, elemSize)
  {
    var sizes := s.sizes;
    var srcPtr, dstPtr := s.data + s.offset * elemSize, d.data + d.offset * elemSize;
    var srcStrides, dstStrides := Scaled(s.strides, elemSize), Scaled(d.strides, elemSize);
    var indices: seq<int> := seq(|sizes|, i => 0);
    DotZero(indices, srcStrides);
    DotZero(indices, dstStrides);
    OrdinalZero(indices, sizes);
    PositiveProduct(sizes);
    NothingCopied(src[..], s, dst[..], d, elemSize);
    var readIndex, writeIndex, done := 0, 0, false;
    copies := 0;
    while !done
      invariant copies <= Product(sizes) && (done ==> copies == Product(sizes))
      invariant !done ==> InBox(indices, sizes) && copies == Ordinal(indices, sizes)
      invariant !done ==> readIndex == Dot(indices, srcStrides) && writeIndex == Dot(indices, dstStrides)
      invariant CopiedBefore(src[..], s, dst[..], d, elemSize, copies)
      invariant OthersKept(old(dst[..]), dst[..], d, elemSize)
      decreases Product(sizes) - copies, !done
    {
      OrdinalBound(indices, sizes);
      ghost var before := dst[..];
      CopyElement(elemSize, src, s, dst, d, indices, srcPtr + readIndex, dstPtr + writeIndex);
      OthersKeptTransitive(old(dst[..]), before, dst[..], d, elemSize);
      copies := copies + 1;
      indices, readIndex, writeIndex, done := Advance(sizes, srcStrides, dstStrides, indices, readIndex, writeIndex);
    }
  }

  // ------------------------------------------------------------------
  // The odometer
  // ------------------------------------------------------------------

  /** Advancing one axis by one. */
  lemma Bump(idx: seq<int>, sizes: seq<nat>, strides: seq<int>, a: nat)
    requires |idx| == |sizes| == |strides| && a < |idx|
    ensures Dot(idx[a := idx[a] + 1], strides) == Dot(idx, strides) + strides[a]
    ensures Ordinal(idx[a := idx[a] + 1], sizes) == Ordinal(idx, sizes) + Product(sizes[a + 1..])
  {
    var next := idx[a] + 1;
    DotUpdate(idx, strides, a, next);
    OrdinalUpdate(idx, sizes, a, next);
    OneStep(next - idx[a], strides[a]);
    OneStep(next - idx[a], Product(sizes[a + 1..]));
  }

  lemma OneStep(one: int, y: int)
    requires one == 1
    ensures one * y == y
  {
  }

  /** Undoing an axis that has run through its whole size. */
  lemma Reset(idx: seq<int>, sizes: seq<nat>, strides: seq<int>, a: nat)
    requires |idx| == |sizes| == |strides| && a < |idx| && idx[a] == sizes[a]
    ensures Dot(idx[a := 0], strides) == Dot(idx, strides) - sizes[a] * strides[a]
    ensures Ordinal(idx[a := 0], sizes) == Ordinal(idx, sizes) - Product(sizes[a..])
  {
    DotUpdate(idx, strides, a, 0);
    OrdinalUpdate(idx, sizes, a, 0);
    ProductStep(sizes, a);
    NegatedProduct(sizes[a], Product(sizes[a + 1..]));
    NegatedProduct(sizes[a], strides[a]);
  }

  lemma NegatedProduct(x: int, y: int)
    ensures (0 - x) * y == -(x * y)
  {
  }

  /** One turn of the odometer: the next index in row-major order with its two positions, or the end. */
  method Advance(sizes: seq<nat>, srcStrides: seq<int>, dstStrides: seq<int>, from: seq<int>, read: int, write: int)
    returns (indices: seq<int>, readIndex: int, writeIndex: int, done: bool)
    requires |sizes| > 0 && |srcStrides| == |dstStrides| == |sizes| && InBox(from, sizes)
    requires read == Dot(from, srcStrides) && write == Dot(from, dstStrides)
    ensures |indices| == |sizes|
    ensures done <==> Ordinal(from, sizes) + 1 == Product(sizes)
    ensures !done ==> InBox(indices, sizes) && Ordinal(indices, sizes) == Ordinal(from, sizes) + 1
    ensures !done ==> readIndex == Dot(indices, srcStrides) && writeIndex == Dot(indices, dstStrides)
  {
    indices, readIndex, writeIndex := from, read, write;
    var axis := |sizes| - 1;
    assert sizes[|sizes|..] == [];
    while true
      invariant 0 <= axis < |sizes| && InBox(indices, sizes)
      invariant forall j :: axis < j < |sizes| ==> indices[j] == 0
      invariant Ordinal(indices, sizes) + Product(sizes[axis + 1..]) == Ordinal(from, sizes) + 1
      invariant readIndex == Dot(indices, srcStrides) && writeIndex == Dot(indices, dstStrides)
      decreases axis
    {
      Bump(indices, sizes, srcStrides, axis);
      Bump(indices, sizes, dstStrides, axis);
      indices := indices[axis := indices[axis] + 1];
      readIndex := readIndex + srcStrides[axis];
      writeIndex := writeIndex + dstStrides[axis];
      if sizes[axis] != indices[axis] {
        OrdinalBound(indices, sizes);
        done := false;
        break;
      }
      if axis == 0 {
        OrdinalZero(indices[1..], sizes[1..]);
        done := true;
        break;
      }
      Reset(indices, sizes, srcStrides, axis);
      Reset(indices, sizes, dstStrides, axis);
      indices := indices[axis := 0];
      readIndex := readIndex - sizes[axis] * srcStrides[axis];
      writeIndex := writeIndex - sizes[axis] * dstStrides[axis];
      axis := axis - 1;
    }
  }
}
