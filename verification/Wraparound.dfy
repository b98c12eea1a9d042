/**
 Modulo addressing of a two-dimensional tile: the tile is cast into two chunks, which are clipped by the
 mask (lib/Analysis/PtrAnalysis.cpp, lib/Analysis/MaskAnalysis.cpp) and copied one after the other.
 */
module Wraparound {
  import opened Wrappers
  import opened Ir
  import opened Folding
  import opened PtrStates
  import opened PtrSoundness
  import Arith

  /** A reinterpret_cast: where it starts and how large it is. */
  datatype Chunk = Chunk(offset: int, rows: int, cols: int)

  /** arith.divsi: truncating division. */
  function TruncDiv(a: int, b: int): int
    requires b > 0
  {
    if a >= 0 then a / b else -((-a) / b)
  }

  // ------------------------------------------------------------------
  // The target offset
  // ------------------------------------------------------------------

  /** accumulateTargetOffset */
  method AccumulateTargetOffset(offsets: seq<OFR>) returns (target: OFR)
    ensures forall w: World :: EvalO(target, w) == OffsetSum(offsets, w)
  {
    target := Attr(0);
    for i := 0 to |offsets|
      invariant forall w: World :: EvalO(target, w) + OffsetSum(offsets[i..], w) == OffsetSum(offsets, w)
    {
      ghost var before := target;
      target := AddOFRs(target, offsets[i]);
      forall w: World ensures EvalO(target, w) + OffsetSum(offsets[i + 1..], w) == OffsetSum(offsets, w) {
        AddValue(before, offsets[i], w, 0);
        assert offsets[i..][1..] == offsets[i + 1..];
      }
    }
  }

  ghost function OffsetSum(offsets: seq<OFR>, w: World): int {
    if offsets == [] then 0 else EvalO(offsets[0], w) + OffsetSum(offsets[1..], w)
  }

  // ------------------------------------------------------------------
  // Side by side
  // ------------------------------------------------------------------

  function SideBySideCasts(target: int, rowSize: int, colSize: int, n: int): (Chunk, Chunk) {
    var x := TruncRem(target, n);
    var y := target - x;
    var d1 := MinInt(x + colSize, n) - x;
    (Chunk(target, rowSize, d1), Chunk(y, rowSize, colSize - d1))
  }

  function SideBySideSubviews(block1: Chunk, block2: Chunk, rows: int, cols: int): (Chunk, Chunk) {
    var col1 := MinInt(block1.cols, cols);
    (Chunk(block1.offset, rows, col1), Chunk(block2.offset, rows, cols - col1))
  }

  /** Where element (r, c) of the tile is read, once the first chunk and then the second have been copied. */
  function SideBySideAddr(sv1: Chunk, sv2: Chunk, strideRow: int, strideCol: int, r: int, c: int): int {
    if c < sv1.cols then sv1.offset + r * strideRow + c * strideCol
    else sv2.offset + r * strideRow + (c - sv1.cols) * strideCol
  }

  function SideBySideTile(target: int, rowSize: int, colSize: int, n: int, rows: int, cols: int): (Chunk, Chunk) {
    var (b1, b2) := SideBySideCasts(target, rowSize, colSize, n);
    SideBySideSubviews(b1, b2, rows, cols)
  }

  /** The column of the target: the signed remainder finds it unless the target lies before the base. */
  lemma TargetColumn(q: int, n: int, c0: int)
    requires 0 <= c0 < n
    ensures TruncRem(q * n + c0, n) == c0 <==> q >= 0 || c0 == 0
  {
    if q >= 0 {
      assert q * n >= 0;
      Arith.UniqueDivMod(q * n + c0, n, q, c0);
    } else {
      Arith.MulAtLeast(-q, n);
      assert (-q) * n == -(q * n);
      assert q * n + c0 < 0;
      if c0 == 0 {
        Arith.UniqueDivMod(-(q * n), n, -q, 0);
      } else {
        assert TruncRem(q * n + c0, n) <= 0;
      }
    }
  }

  /** The two clipped chunks partition the masked tile. */
  lemma SideBySidePartition(q: nat, n: int, c0: int, rowSize: nat, colSize: nat, rows: nat, cols: nat)
    requires 0 <= c0 < n && rows <= rowSize && cols <= colSize
    ensures var (sv1, sv2) := SideBySideTile(q * n + c0, rowSize, colSize, n, rows, cols);
            0 <= sv1.cols && 0 <= sv2.cols && sv1.cols + sv2.cols == cols && sv1.rows == sv2.rows == rows
    ensures var (sv1, sv2) := SideBySideTile(q * n + c0, rowSize, colSize, n, rows, cols);
            sv1.offset == q * n + c0 && sv1.cols == MinInt(n - c0, cols) && sv2.offset == q * n
  {
    TargetColumn(q, n, c0);
  }

  /**
   With unit column stride every element of the masked tile is read at its wrapped column, exactly when the
   tile wraps at most once: its masked width is at most 2n - c0. A width of at most n always is.
   */
  lemma SideBySideExact(q: nat, n: int, c0: int, strideRow: int, rowSize: nat, colSize: nat, rows: nat, cols: nat)
    requires 0 <= c0 < n && rows <= rowSize && cols <= colSize && rows > 0
    ensures var (sv1, sv2) := SideBySideTile(q * n + c0, rowSize, colSize, n, rows, cols);
            (forall r, c :: 0 <= r < rows && 0 <= c < cols ==>
               SideBySideAddr(sv1, sv2, strideRow, 1, r, c) == q * n + r * strideRow + (c0 + c) % n)
            <==> cols <= 2 * n - c0
    ensures colSize <= n ==> cols <= 2 * n - c0
  {
    SideBySidePartition(q, n, c0, rowSize, colSize, rows, cols);
    var (sv1, sv2) := SideBySideTile(q * n + c0, rowSize, colSize, n, rows, cols);
    if cols <= 2 * n - c0 {
      forall r, c | 0 <= r < rows && 0 <= c < cols
        ensures SideBySideAddr(sv1, sv2, strideRow, 1, r, c) == q * n + r * strideRow + (c0 + c) % n
      {
        WrapOnce(c0, c, n);
      }
    } else {
      var c := 2 * n - c0;
      assert (c0 + c) % n == 0 by { Arith.UniqueDivMod(c0 + c, n, 2, 0); }
      assert SideBySideAddr(sv1, sv2, strideRow, 1, 0, c) == q * n + n;
    }
  }

  lemma WrapOnce(c0: int, c: int, n: int)
    requires 0 <= c0 < n && 0 <= c && c0 + c < 2 * n
    ensures (c0 + c) % n == if c0 + c < n then c0 + c else c0 + c - n
  {
    if c0 + c < n {
      Arith.UniqueDivMod(c0 + c, n, 0, c0 + c);
    } else {
      Arith.UniqueDivMod(c0 + c, n, 1, c0 + c - n);
    }
  }

  // ------------------------------------------------------------------
  // Stacked
  // ------------------------------------------------------------------

  function StackedCasts(target: int, rowSize: int, colSize: int, strideRow: int, modRow: int): (Chunk, Chunk)
    requires strideRow > 0
  {
    var wrapped := TruncRem(target, strideRow);
    var clamped := modRow * strideRow + wrapped;
    var d1 := TruncDiv(clamped - target, strideRow);
    (Chunk(target, d1, colSize), Chunk(wrapped, rowSize - d1, colSize))
  }

  function StackedSubviews(block1: Chunk, block2: Chunk, rows: int, cols: int): (Chunk, Chunk) {
    var row1 := MinInt(block1.rows, rows);
    (Chunk(block1.offset, row1, cols), Chunk(block2.offset, rows - row1, cols))
  }

  function StackedAddr(sv1: Chunk, sv2: Chunk, strideRow: int, strideCol: int, r: int, c: int): int {
    if r < sv1.rows then sv1.offset + r * strideRow + c * strideCol
    else sv2.offset + (r - sv1.rows) * strideRow + c * strideCol
  }

  function StackedTile(target: int, rowSize: int, colSize: int, strideRow: int, modRow: int, rows: int,
                       cols: int): (Chunk, Chunk)
    requires strideRow > 0
  {
    var (b1, b2) := StackedCasts(target, rowSize, colSize, strideRow, modRow);
    StackedSubviews(b1, b2, rows, cols)
  }

  /** The first chunk reaches to the last row, however tall the tile; clipping makes the two a partition. */
  lemma StackedPartition(row0: nat, c0: int, strideRow: int, m: int, rowSize: nat, colSize: nat, rows: nat, cols: nat)
    requires 0 <= c0 < strideRow && row0 < m && rows <= rowSize && cols <= colSize
    ensures var (sv1, sv2) := StackedTile(row0 * strideRow + c0, rowSize, colSize, strideRow, m, rows, cols);
            0 <= sv1.rows && 0 <= sv2.rows && sv1.rows + sv2.rows == rows && sv1.cols == sv2.cols == cols
    ensures var (sv1, sv2) := StackedTile(row0 * strideRow + c0, rowSize, colSize, strideRow, m, rows, cols);
            sv1.offset == row0 * strideRow + c0 && sv1.rows == MinInt(m - row0, rows) && sv2.offset == c0
  {
    StackedCastHeight(row0, c0, strideRow, m, rowSize, colSize);
  }

  /**
   Every element of the masked tile is read at its wrapped row, exactly when the tile wraps at most once:
   its masked height is at most 2m - row0. A height of at most m always is, wrapping or not.
   */
  lemma StackedExact(row0: nat, c0: int, strideRow: int, strideCol: int, m: int,
                     rowSize: nat, colSize: nat, rows: nat, cols: nat)
    requires 0 <= c0 < strideRow && row0 < m && rows <= rowSize && cols <= colSize && cols > 0
    ensures var (sv1, sv2) := StackedTile(row0 * strideRow + c0, rowSize, colSize, strideRow, m, rows, cols);
            (forall r, c :: 0 <= r < rows && 0 <= c < cols ==>
               StackedAddr(sv1, sv2, strideRow, strideCol, r, c)
               == ((row0 + r) % m) * strideRow + c0 + c * strideCol)
            <==> rows <= 2 * m - row0
    ensures rowSize <= m ==> rows <= 2 * m - row0
  {
    StackedPartition(row0, c0, strideRow, m, rowSize, colSize, rows, cols);
    var (sv1, sv2) := StackedTile(row0 * strideRow + c0, rowSize, colSize, strideRow, m, rows, cols);
    if rows <= 2 * m - row0 {
      forall r, c | 0 <= r < rows && 0 <= c < cols
        ensures StackedAddr(sv1, sv2, strideRow, strideCol, r, c)
             == ((row0 + r) % m) * strideRow + c0 + c * strideCol
      {
        WrapOnce(row0, r, m);
        StackedRow(row0, r, m, strideRow);
      }
    } else {
      var r := 2 * m - row0;
      assert (row0 + r) % m == 0 by { Arith.UniqueDivMod(row0 + r, m, 2, 0); }
      assert StackedAddr(sv1, sv2, strideRow, strideCol, r, 0) == c0 + m * strideRow;
      Arith.MulAtLeast(m, strideRow);
    }
  }

  lemma StackedRow(row0: int, r: int, m: int, s: int)
    ensures (row0 + r) * s == row0 * s + r * s
    ensures (row0 + r - m) * s == (r - (m - row0)) * s
  {
  }

  // ------------------------------------------------------------------
  // The casts themselves, which are copied where there is no mask
  // ------------------------------------------------------------------

  /** Element (r, c) of the tile lies inside the chunk it is read from. */
  predicate InsideColumns(b1: Chunk, b2: Chunk, r: int, c: int) {
    if c < b1.cols then 0 <= r < b1.rows && 0 <= c else 0 <= r < b2.rows && c - b1.cols < b2.cols
  }

  predicate InsideRows(b1: Chunk, b2: Chunk, r: int, c: int) {
    if r < b1.rows then 0 <= r && 0 <= c < b1.cols else r - b1.rows < b2.rows && 0 <= c < b2.cols
  }

  /**
   The side-by-side casts have the rows of the tile and share its columns. Every element is read inside its chunk, at
   its wrapped column, exactly when the tile wraps at most once.
   */
  lemma SideBySideCastsExact(q: nat, n: int, c0: int, strideRow: int, rowSize: nat, colSize: nat)
    requires 0 <= c0 < n && rowSize > 0
    ensures var (b1, b2) := SideBySideCasts(q * n + c0, rowSize, colSize, n);
            && b1.rows == b2.rows == rowSize && b1.cols >= 0 && b2.cols >= 0 && b1.cols + b2.cols == colSize
            && (forall r, c :: 0 <= r < rowSize && 0 <= c < colSize ==> InsideColumns(b1, b2, r, c))
            && ((forall r, c :: 0 <= r < rowSize && 0 <= c < colSize ==>
                   SideBySideAddr(b1, b2, strideRow, 1, r, c) == q * n + r * strideRow + (c0 + c) % n)
                <==> colSize <= 2 * n - c0)
  {
    TargetColumn(q, n, c0);
    SideBySideExact(q, n, c0, strideRow, rowSize, colSize, rowSize, colSize);
    var (b1, b2) := SideBySideCasts(q * n + c0, rowSize, colSize, n);
    assert SideBySideTile(q * n + c0, rowSize, colSize, n, rowSize, colSize) == (b1, b2);
  }

  /**
   The stacked casts have the columns of the tile. Their rows add up to those of the tile, but the first one always
   reaches to the last row of the tensor: it fits into the tile exactly when the tile reaches there too.
   */
  lemma StackedCastsExact(row0: nat, c0: int, strideRow: int, strideCol: int, m: int, rowSize: nat, colSize: nat)
    requires 0 <= c0 < strideRow && row0 < m && colSize > 0
    ensures var (b1, b2) := StackedCasts(row0 * strideRow + c0, rowSize, colSize, strideRow, m);
            && b1.cols == b2.cols == colSize && b1.rows == m - row0 && b1.rows + b2.rows == rowSize
            && (b1.rows <= rowSize <==> row0 + rowSize >= m) && (b2.rows >= 0 <==> row0 + rowSize >= m)
            && (forall r, c :: 0 <= r < rowSize && 0 <= c < colSize ==> InsideRows(b1, b2, r, c))
            && (row0 + rowSize >= m ==>
                 ((forall r, c :: 0 <= r < rowSize && 0 <= c < colSize ==>
                     StackedAddr(b1, b2, strideRow, strideCol, r, c)
                     == ((row0 + r) % m) * strideRow + c0 + c * strideCol)
                  <==> rowSize <= 2 * m - row0))
  {
    StackedCastHeight(row0, c0, strideRow, m, rowSize, colSize);
    StackedExact(row0, c0, strideRow, strideCol, m, rowSize, colSize, rowSize, colSize);
    var (b1, b2) := StackedCasts(row0 * strideRow + c0, rowSize, colSize, strideRow, m);
    if row0 + rowSize >= m {
      assert StackedTile(row0 * strideRow + c0, rowSize, colSize, strideRow, m, rowSize, colSize) == (b1, b2);
    }
  }

  lemma StackedCastHeight(row0: nat, c0: int, strideRow: int, m: int, rowSize: nat, colSize: nat)
    requires 0 <= c0 < strideRow && row0 < m
    ensures StackedCasts(row0 * strideRow + c0, rowSize, colSize, strideRow, m)
         == (Chunk(row0 * strideRow + c0, m - row0, colSize), Chunk(c0, rowSize - (m - row0), colSize))
  {
    TargetColumn(row0, strideRow, c0);
    var target := row0 * strideRow + c0;
    Arith.DistributeDiff(m, row0, strideRow);
    assert m * strideRow + c0 - target == (m - row0) * strideRow;
    assert (m - row0) * strideRow >= 0;
    Arith.UniqueDivMod((m - row0) * strideRow, strideRow, m - row0, 0);
  }

  // ------------------------------------------------------------------
  // The chunks implement a wrapping pointer state
  // ------------------------------------------------------------------

  /** A state whose columns wrap around reads, element by element, what the side-by-side chunks copy. */
  lemma SideBySideState(st: PState, w: World, q: nat, n: int, strideRow: int, colSize: nat,
                        rowSize: nat, rows: nat, cols: nat, r: nat, c: nat)
    requires st.Valid() && st.Rank() == 2 && !st.offsets[0].T? && !st.offsets[1].T?
    requires st.shape[0] == Attr(0) && st.shape[1] != Attr(0) && EvalO(st.shape[1], w) == n
    requires EvalO(st.strides[0], w) == strideRow && EvalO(st.strides[1], w) == 1
    requires EvalO(st.offsets[0], w) == q * n && 0 <= EvalO(st.offsets[1], w) < n
    requires rows <= rowSize && cols <= colSize <= n && r < rows && c < cols
    ensures var target := EvalO(st.offsets[0], w) + EvalO(st.offsets[1], w);
            var (sv1, sv2) := SideBySideTile(target, rowSize, colSize, n, rows, cols);
            Denote(st, w, [r, c]) == BaseVal(st, w) + SideBySideAddr(sv1, sv2, strideRow, 1, r, c)
  {
    var c0 := EvalO(st.offsets[1], w);
    SideBySideExact(q, n, c0, strideRow, rowSize, colSize, rows, cols);
    SumPair(Terms(st, w, [r, c]));
    assert Terms(st, w, [r, c])[0] == q * n + r * strideRow;
    assert Terms(st, w, [r, c])[1] == TruncRem(c0 + c, n) == (c0 + c) % n;
  }

  /**
   The same for a state whose rows wrap around. Its bound has been multiplied with the row stride, so it is the
   bound of the scaled offset.
   */
  lemma StackedState(st: PState, w: World, row0: nat, m: int, strideRow: int, strideCol: int, colSize: nat,
                     rowSize: nat, rows: nat, cols: nat, r: nat, c: nat)
    requires st.Valid() && st.Rank() == 2 && !st.offsets[0].T? && !st.offsets[1].T?
    requires st.shape[0] != Attr(0) && st.shape[1] == Attr(0) && EvalO(st.shape[0], w) == m * strideRow
    requires EvalO(st.strides[0], w) == strideRow > 0 && EvalO(st.strides[1], w) == strideCol
    requires row0 < m && EvalO(st.offsets[0], w) == row0 * strideRow && 0 <= EvalO(st.offsets[1], w) < strideRow
    requires rows <= rowSize <= m && cols <= colSize && r < rows && c < cols
    ensures var target := EvalO(st.offsets[0], w) + EvalO(st.offsets[1], w);
            var (sv1, sv2) := StackedTile(target, rowSize, colSize, strideRow, m, rows, cols);
            Denote(st, w, [r, c]) == BaseVal(st, w) + StackedAddr(sv1, sv2, strideRow, strideCol, r, c)
  {
    var c0 := EvalO(st.offsets[1], w);
    StackedExact(row0, c0, strideRow, strideCol, m, rowSize, colSize, rows, cols);
    SumPair(Terms(st, w, [r, c]));
    assert Terms(st, w, [r, c])[1] == c0 + c * strideCol;
    assert Terms(st, w, [r, c])[0] == TruncRem(row0 * strideRow + r * strideRow, m * strideRow);
    ScaledRow(row0, r, m, strideRow);
  }

  /** A row number under a bound, with both multiplied by the stride. */
  lemma ScaledRow(row0: nat, r: nat, m: int, s: int)
    requires m > 0 && s > 0
    ensures TruncRem(row0 * s + r * s, m * s) == ((row0 + r) % m) * s
  {
    assert row0 * s + r * s == (row0 + r) * s;
    Arith.RemScales(row0 + r, m, s);
  }

  /**
   The lowering in use casts the whole tile at once, from the sum of the offsets with the strides of the pointer. For
   wrapping columns that is right exactly when the tile ends in front of the bound.
   */
  lemma SplitColumnsExact(st: PState, w: World, n: int, rows: nat, cols: nat)
    requires st.Valid() && st.Rank() == 2 && !st.offsets[0].T? && !st.offsets[1].T?
    requires st.shape[0] == Attr(0) && st.shape[1] != Attr(0) && EvalO(st.shape[1], w) == n
    requires EvalO(st.strides[1], w) == 1 && 0 <= EvalO(st.offsets[1], w) < n && rows > 0
    ensures (forall r: nat, c: nat :: r < rows && c < cols ==> Denote(st, w, [r, c]) == CastAddr(st, w, r, c))
        <==> EvalO(st.offsets[1], w) + cols <= n
  {
    var c0 := EvalO(st.offsets[1], w);
    forall r: nat, c: nat | r < rows && c < cols
      ensures Denote(st, w, [r, c]) == CastAddr(st, w, r, c) <==> c0 + c < n
    {
      SumPair(Terms(st, w, [r, c]));
      assert Terms(st, w, [r, c])[1] == TruncRem(c0 + c, n) == (c0 + c) % n;
      BelowBound(c0 + c, n);
    }
    if c0 + cols > n {
      var c := n - c0;
      assert Denote(st, w, [0, c]) != CastAddr(st, w, 0, c);
    }
  }

  /** The address of an element in one cast. */
  function CastAddr(st: PState, w: World, r: nat, c: nat): int
    requires st.Valid() && st.Rank() == 2
  {
    BaseVal(st, w) + (EvalO(st.offsets[0], w) + EvalO(st.offsets[1], w))
    + r * EvalO(st.strides[0], w) + c * EvalO(st.strides[1], w)
  }

  lemma BelowBound(k: nat, n: int)
    requires n > 0
    ensures k % n == k <==> k < n
  {
    if k < n { Arith.UniqueDivMod(k, n, 0, k); }
  }

  /** The same for wrapping rows. */
  lemma SplitRowsExact(st: PState, w: World, row0: nat, m: int, rows: nat, cols: nat)
    requires st.Valid() && st.Rank() == 2 && !st.offsets[0].T? && !st.offsets[1].T?
    requires st.shape[0] != Attr(0) && st.shape[1] == Attr(0) && EvalO(st.strides[0], w) > 0
    requires EvalO(st.shape[0], w) == m * EvalO(st.strides[0], w)
    requires row0 < m && EvalO(st.offsets[0], w) == row0 * EvalO(st.strides[0], w) && cols > 0
    ensures (forall r: nat, c: nat :: r < rows && c < cols ==> Denote(st, w, [r, c]) == CastAddr(st, w, r, c))
        <==> row0 + rows <= m
  {
    var s := EvalO(st.strides[0], w);
    forall r: nat, c: nat | r < rows && c < cols
      ensures Denote(st, w, [r, c]) == CastAddr(st, w, r, c) <==> row0 + r < m
    {
      SumPair(Terms(st, w, [r, c]));
      assert Terms(st, w, [r, c])[0] == TruncRem(row0 * s + r * s, m * s);
      ScaledRow(row0, r, m, s);
      BelowBound(row0 + r, m);
      SameRow((row0 + r) % m, row0, r, s);
    }
    if row0 + rows > m {
      var r := m - row0;
      assert Denote(st, w, [r, 0]) != CastAddr(st, w, r, 0);
    }
  }

  lemma SameRow(a: int, row0: int, r: int, s: int)
    requires s > 0
    ensures a * s == row0 * s + r * s <==> a == row0 + r
  {
    assert row0 * s + r * s == (row0 + r) * s;
    if a > row0 + r { Arith.MulAtLeast(a - (row0 + r), s); }
    if a < row0 + r { Arith.MulAtLeast(row0 + r - a, s); }
    assert (a - (row0 + r)) * s == a * s - (row0 + r) * s;
  }

  lemma SumPair(t: seq<int>)
    requires |t| == 2
    ensures Sum(t) == t[0] + t[1]
  {
    assert Sum(t[1..]) == t[1] + Sum(t[1..][1..]);
  }
}
