/**
 The pointer of a tile whose rows wrap around, as matrix kernels build it: it passes the tests of PtrPlain.Checked,
 for every modulus and row stride (lib/AnalysisStructured/PtrAnalysis.cpp).
 */
module PtrTile {
  import opened Wrappers
  import opened Ir
  import opened Folding
  import opened PtrStates
  import opened PtrSoundness
  import opened PtrPlain

  // base + (range % bound)[:, None] * stride + range[None, :]
  function Row(bound: Val, n: nat): Expr { Rem(Range(0, n), Splat(IntScalar(bound), [n])) }

  function Scaled(bound: Val, stride: Val, n: nat): Expr {
    Mul(ExpandDims(Row(bound, n), 1), Splat(IntScalar(stride), [n, 1]))
  }

  function Columns(n: nat, m: nat): Expr { Broadcast(ExpandDims(Range(0, m), 0), [n, m]) }

  function Offsets(bound: Val, stride: Val, n: nat, m: nat): Expr {
    Add(Broadcast(Scaled(bound, stride, n), [n, m]), Columns(n, m))
  }

  function Tile(bound: Val, stride: Val, n: nat, m: nat): Expr {
    AddPtr(Splat(PtrArg(0), [n, m]), Offsets(bound, stride, n, m))
  }

  /** A state of two dimensions of which only the first may wrap around, and only the second move otherwise. */
  predicate Rows(st: PState, dims: seq<nat>) {
    && |dims| == 2 && st.Valid() && st.sizes == dims && st.Structured() && st.source.None? && st.scalar.None?
    && st.shape[1] == Attr(0) && HasConstZero(st.offsets[1]) && HasConstZero(st.strides[1])
  }

  predicate StaysInRow(st: PState, dims: seq<nat>) {
    && |dims| == 2 && st.Valid() && st.sizes == dims && st.Structured() && st.scalar.None?
    && Unwrapped(st) && HasConstZero(st.offsets[0]) && HasConstZero(st.strides[0])
  }

  lemma SplatOf(v: Val, dims: seq<nat>)
    requires |dims| > 0
    ensures Visit(Splat(IntScalar(v), dims), PLAIN, map[]).Some?
    ensures var st := Visit(Splat(IntScalar(v), dims), PLAIN, map[]).value;
            && st.Valid() && st.sizes == dims && st.source.None? && st.scalar == Some(IndexCast(v))
            && !st.HasModulo() && st.Structured()
    ensures Checked(Splat(IntScalar(v), dims), PLAIN, map[])
  {
    assert Visit(IntScalar(v), PLAIN, map[]) == Some(EMPTY.(scalar := Some(IndexCast(v))));
  }

  lemma RowOf(bound: Val, n: nat)
    requires n >= 2
    ensures Visit(Row(bound, n), PLAIN, map[]) == Some(RangeState(0, n).(shape := [V(IndexCast(bound))]))
    ensures Checked(Row(bound, n), PLAIN, map[])
  {
    SplatOf(bound, [n]);
    var ls := RangeState(0, n);
    assert Visit(Range(0, n), PLAIN, map[]) == Some(ls) && !ls.HasModulo();
    assert ls.shape[0 := V(IndexCast(bound))] == [V(IndexCast(bound))];
    assert RemState(ls, IndexCast(bound), Row(bound, n), PLAIN)
        == Some(RangeState(0, n).(shape := [V(IndexCast(bound))]));
    assert Checked(Range(0, n), PLAIN, map[]) && RemChecked(ls, Row(bound, n));
  }

  lemma ColumnOfRow(bound: Val, n: nat) returns (st: PState)
    requires n >= 2
    ensures Visit(ExpandDims(Row(bound, n), 1), PLAIN, map[]) == Some(st) && Rows(st, [n, 1])
    ensures Checked(ExpandDims(Row(bound, n), 1), PLAIN, map[])
  {
    RowOf(bound, n);
    var row := RangeState(0, n).(shape := [V(IndexCast(bound))]);
    assert Insert(row.offsets, 1, Attr(0)) == [Attr(0), Attr(0)];
    assert Insert(row.sizes, 1, 1) == [n, 1];
    assert Insert(row.strides, 1, Attr(0)) == [Attr(1), Attr(0)];
    assert Insert(row.shape, 1, Attr(0)) == [V(IndexCast(bound)), Attr(0)];
    st := ExpandState(row, 1).value;
  }

  lemma ScaledState(l: PState, r: PState, dims: seq<nat>) returns (st: PState)
    requires Rows(l, dims) && r.Valid() && r.Rank() == 2 && r.source.None? && r.scalar.Some? && !r.HasModulo()
    ensures WithOffsets(MulState(l, r, false)) == Some(st) && Rows(st, dims)
  {
    st := WithOffsets(MulState(l, r, false)).value;
    forall i | 0 <= i < 2 ensures !st.offsets[i].T? {
      assert st.offsets[i] == MulDim(l.offsets[i], l.strides[i], l.shape[i], r.scalar.value, false).0;
    }
    assert st.strides[1] == MulDim(l.offsets[1], l.strides[1], l.shape[1], r.scalar.value, false).1;
    assert st.shape[1] == MulDim(l.offsets[1], l.strides[1], l.shape[1], r.scalar.value, false).2;
  }

  lemma ScaledOf(bound: Val, stride: Val, n: nat) returns (st: PState)
    requires n >= 2
    ensures Visit(Scaled(bound, stride, n), PLAIN, map[]) == Some(st) && Rows(st, [n, 1])
    ensures Checked(Scaled(bound, stride, n), PLAIN, map[])
  {
    var l := ColumnOfRow(bound, n);
    SplatOf(stride, [n, 1]);
    var r := Visit(Splat(IntScalar(stride), [n, 1]), PLAIN, map[]).value;
    st := ScaledState(l, r, [n, 1]);
  }

  lemma ColumnsOf(n: nat, m: nat) returns (st: PState)
    requires n >= 2 && m >= 2
    ensures Visit(Columns(n, m), PLAIN, map[]) == Some(st) && StaysInRow(st, [n, m]) && st.source.None?
    ensures Checked(Columns(n, m), PLAIN, map[])
  {
    var row := RangeState(0, m);
    assert Visit(Range(0, m), PLAIN, map[]) == Some(row);
    assert Insert(row.offsets, 0, Attr(0)) == [Attr(0), Attr(0)];
    assert Insert(row.sizes, 0, 1) == [1, m] && Insert([m], 0, 1) == [1, m];
    assert Insert(row.strides, 0, Attr(0)) == [Attr(0), Attr(1)];
    assert Insert(row.shape, 0, Attr(0)) == [Attr(0), Attr(0)];
    var e := ExpandState(row, 0).value;
    assert Visit(ExpandDims(Range(0, m), 0), PLAIN, map[]) == Some(e);
    st := BroadcastState(e, [1, m], [n, m]);
    assert st.sizes == [n, m];
  }

  /** A wrapping dimension beside one that stays put. */
  lemma RowsAddable(a: PState, b: PState, dims: seq<nat>)
    requires a.Valid() && a.sizes == dims && a.Structured() && |dims| == 2 && StaysInRow(b, dims)
    requires a.shape[1] == Attr(0) && !(a.source.Some? && b.source.Some?)
    ensures AddChecked(a, b, false) && AddChecked(b, a, false)
    ensures AddState(a, b, false).Some? && AddState(a, b, false).value.Structured()
    ensures AddState(b, a, false).Some? && AddState(b, a, false).value.Structured()
    ensures AddState(a, b, false).value.sizes == AddState(b, a, false).value.sizes == dims
    ensures AddState(a, b, false).value.shape[1] == Attr(0)
  {
    assert !b.HasModulo();
    assert AddShapes(a, b, 2) == Some([]) && AddShapes(a, b, 1) == Some([Attr(0)] + []);
    assert AddShapes(a, b, 0) == Some([a.shape[0]] + ([Attr(0)] + []));
    if !a.HasModulo() { AddShapesUnwrapped(b, a, 0); }
  }

  lemma StretchedOf(bound: Val, stride: Val, n: nat, m: nat) returns (st: PState)
    requires n >= 2 && m >= 2
    ensures Visit(Broadcast(Scaled(bound, stride, n), [n, m]), PLAIN, map[]) == Some(st) && Rows(st, [n, m])
    ensures Checked(Broadcast(Scaled(bound, stride, n), [n, m]), PLAIN, map[])
  {
    var scaled := ScaledOf(bound, stride, n);
    Shapes(bound, stride, n, m);
    st := BroadcastState(scaled, [n, 1], [n, m]);
    assert st.sizes == [n, m];
  }

  lemma OffsetsOf(bound: Val, stride: Val, n: nat, m: nat) returns (st: PState)
    requires n >= 2 && m >= 2
    ensures Visit(Offsets(bound, stride, n, m), PLAIN, map[]) == Some(st) && st.Valid() && st.Structured()
    ensures st.sizes == [n, m] && st.shape[1] == Attr(0) && st.source.None?
    ensures Checked(Offsets(bound, stride, n, m), PLAIN, map[])
  {
    var l := StretchedOf(bound, stride, n, m);
    var r := ColumnsOf(n, m);
    RowsAddable(l, r, [n, m]);
    st := SumOf(Broadcast(Scaled(bound, stride, n), [n, m]), Columns(n, m), l, r);
  }

  /** Nothing is gathered, so the operands are added as they are. */
  lemma SumOf(le: Expr, re: Expr, l: PState, r: PState) returns (st: PState)
    requires Visit(le, PLAIN, map[]) == Some(l) && Visit(re, PLAIN, map[]) == Some(r) && l.Valid() && r.Valid()
    requires l.Structured() && r.Structured() && l.Rank() == r.Rank() == 2 && AddState(l, r, false).Some?
    ensures Visit(Add(le, re), PLAIN, map[]) == Some(st) && st == WithOffsets(AddState(l, r, false)).value
  {
    assert GatherBoth(le, re, l, r, PLAIN) == Some((l, r));
    st := WithOffsets(AddState(l, r, false)).value;
    SumVisit(le, re, l, r, PLAIN, map[]);
  }

  lemma TileOf(bound: Val, stride: Val, n: nat, m: nat) returns (st: PState)
    requires n >= 2 && m >= 2
    ensures Visit(Tile(bound, stride, n, m), PLAIN, map[]) == Some(st) && st.Valid() && st.Structured()
    ensures Checked(Tile(bound, stride, n, m), PLAIN, map[])
  {
    var off := OffsetsOf(bound, stride, n, m);
    var base := BaseOf([n, m]);
    RowsAddable(off, base, [n, m]);
    st := AddressOf(Splat(PtrArg(0), [n, m]), Offsets(bound, stride, n, m), base, off);
  }

  lemma BaseOf(dims: seq<nat>) returns (st: PState)
    requires |dims| == 2
    ensures Visit(Splat(PtrArg(0), dims), PLAIN, map[]) == Some(st) && StaysInRow(st, dims) && st.source == Some(0)
    ensures Checked(Splat(PtrArg(0), dims), PLAIN, map[])
  {
    assert Visit(PtrArg(0), PLAIN, map[]) == Some(EMPTY.(source := Some(0)));
    st := Visit(Splat(PtrArg(0), dims), PLAIN, map[]).value;
  }

  lemma AddressOf(pe: Expr, oe: Expr, p: PState, off: PState) returns (st: PState)
    requires Visit(pe, PLAIN, map[]) == Some(p) && Visit(oe, PLAIN, map[]) == Some(off) && p.Valid() && off.Valid()
    requires p.Structured() && off.Structured() && p.Rank() == off.Rank() == 2 && p.source.Some?
    requires AddState(p, off, false).Some? && AddState(p, off, false).value.Structured()
    ensures Visit(AddPtr(pe, oe), PLAIN, map[]) == Some(st) && st.Valid() && st.Structured()
  {
    st := AddPtrOperands(p, off, PLAIN).value;
    AddressVisit(pe, oe, p, off, PLAIN, map[]);
  }

  lemma Shapes(bound: Val, stride: Val, n: nat, m: nat)
    ensures ShapeOf(Row(bound, n)) == [n] && ShapeOf(Scaled(bound, stride, n)) == [n, 1]
    ensures ShapeOf(ExpandDims(Range(0, m), 0)) == [1, m]
  {
    assert ShapeOf(Row(bound, n)) == ShapeOf(Range(0, n)) == [n] && ShapeOf(Range(0, m)) == [m];
    assert Insert([n], 1, 1) == [n, 1] && Insert([m], 0, 1) == [1, m];
  }

  lemma ScaledElement(bound: Val, stride: Val, n: nat, w: World, i: nat)
    requires n >= 2 && i < n
    ensures WellTyped(Scaled(bound, stride, n)) && !IsPtr(Scaled(bound, stride, n))
    ensures EvalX(Scaled(bound, stride, n), w, [i, 0]) == TruncRem(i, Eval(bound, w)) * Eval(stride, w)
  {
    Shapes(bound, stride, n, n);
    RowElement(bound, n, w, i);
    assert Remove([i, 0], 1) == [i];
    assert EvalX(ExpandDims(Row(bound, n), 1), w, [i, 0]) == EvalX(Row(bound, n), w, [i]);
    assert EvalX(Splat(IntScalar(stride), [n, 1]), w, [i, 0]) == EvalX(IntScalar(stride), w, []) == Eval(stride, w);
  }

  lemma ColumnElement(n: nat, m: nat, w: World, x: seq<nat>)
    requires n >= 2 && m >= 2 && InBounds(x, [n, m])
    ensures WellTyped(Columns(n, m)) && !IsPtr(Columns(n, m)) && EvalX(Columns(n, m), w, x) == x[1]
  {
    Shapes(ConstV(0), ConstV(0), n, m);
    assert Clamp(x, [1, m]) == [0, x[1]] && Remove([0, x[1]], 0) == [x[1]];
    assert !IsPtr(ExpandDims(Range(0, m), 0));
    assert EvalX(Columns(n, m), w, x) == EvalX(Range(0, m), w, [x[1]]);
  }

  lemma StretchedElement(bound: Val, stride: Val, n: nat, m: nat, w: World, x: seq<nat>)
    requires n >= 2 && m >= 2 && InBounds(x, [n, m])
    ensures var e := Broadcast(Scaled(bound, stride, n), [n, m]);
            && WellTyped(e) && !IsPtr(e)
            && EvalX(e, w, x) == TruncRem(x[0], Eval(bound, w)) * Eval(stride, w)
  {
    Shapes(bound, stride, n, m);
    ScaledElement(bound, stride, n, w, x[0]);
    assert Clamp(x, [n, 1]) == [x[0], 0];
  }

  lemma TileElement(bound: Val, stride: Val, n: nat, m: nat, w: World, x: seq<nat>)
    requires n >= 2 && m >= 2 && InBounds(x, [n, m])
    ensures WellTyped(Tile(bound, stride, n, m)) && ShapeOf(Tile(bound, stride, n, m)) == [n, m]
    ensures EvalX(Tile(bound, stride, n, m), w, x)
         == w.ptr(0) + TruncRem(x[0], Eval(bound, w)) * Eval(stride, w) + x[1]
  {
    StretchedElement(bound, stride, n, m, w, x);
    ColumnElement(n, m, w, x);
    SumElement(Broadcast(Scaled(bound, stride, n), [n, m]), Columns(n, m), [n, m], w, x);
  }

  lemma SumElement(l: Expr, r: Expr, dims: seq<nat>, w: World, x: seq<nat>)
    requires WellTyped(l) && WellTyped(r) && !IsPtr(l) && !IsPtr(r) && ShapeOf(l) == ShapeOf(r) == dims
    requires |dims| > 0 && PositiveDims(dims)
    ensures var e := AddPtr(Splat(PtrArg(0), dims), Add(l, r));
            WellTyped(e) && ShapeOf(e) == dims && EvalX(e, w, x) == w.ptr(0) + EvalX(l, w, x) + EvalX(r, w, x)
  {
    assert EvalX(Splat(PtrArg(0), dims), w, x) == EvalX(PtrArg(0), w, []) == w.ptr(0);
  }

  lemma RowElement(bound: Val, n: nat, w: World, i: nat)
    requires i < n
    ensures WellTyped(Row(bound, n)) && ShapeOf(Row(bound, n)) == [n]
    ensures EvalX(Row(bound, n), w, [i]) == TruncRem(i, Eval(bound, w))
  {
    assert EvalX(Range(0, n), w, [i]) == i && EvalX(Splat(IntScalar(bound), [n]), w, [i]) == Eval(bound, w);
  }

  /** The decoded tile is the tile, at every element. */
  lemma TileDecoded(bound: Val, stride: Val, n: nat, m: nat, w: World, x: seq<nat>)
    requires n >= 2 && m >= 2 && InBounds(x, [n, m])
    ensures var st := Visit(Tile(bound, stride, n, m), PLAIN, map[]);
            && st.Some? && st.value.Structured() && st.value.Rank() == 2
            && Denote(st.value, w, x) == w.ptr(0) + TruncRem(x[0], Eval(bound, w)) * Eval(stride, w) + x[1]
  {
    TileElement(bound, stride, n, m, w, x);
    var st := TileOf(bound, stride, n, m);
    CheckedExactly(Tile(bound, stride, n, m), false, w, x);
  }
}
