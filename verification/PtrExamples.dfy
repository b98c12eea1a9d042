/**
 Expressions that pointer analysis accepts and decodes to another value or address: an input for each limit in
 PtrLimits (lib/AnalysisStructured/PtrAnalysis.cpp).
 */
module PtrExamples {
  import opened Wrappers
  import opened Ir
  import opened Folding
  import opened PtrStates
  import opened PtrSoundness
  import opened PtrPlain
  import opened PtrLimits
  import opened Gather
  import opened Analysis
  import opened PtrRun

  // The column range(0, 4) % 2, the column range(0, 4), and their sum.
  const WRAPPED := ExpandDims(Rem(Range(0, 4), ConstSplat(2, [4])), 1)
  const ROWS := ExpandDims(Range(0, 4), 1)

  lemma WrappedState()
    ensures Visit(WRAPPED, PLAIN, map[]) == Some(PState(
      None, None, [Attr(0), Attr(0)], [4, 1], [Attr(1), Attr(0)], [V(ConstV(2)), Attr(0)], [Attr(0), Attr(0)]))
  {
    assert Visit(Range(0, 4), PLAIN, map[]) == Some(RangeState(0, 4));
    assert !RangeState(0, 4).HasModulo();
    var st := Visit(Rem(Range(0, 4), ConstSplat(2, [4])), PLAIN, map[]).value;
    assert st == RangeState(0, 4).(shape := [V(ConstV(2))]);
    ColumnState(st, V(ConstV(2)));
  }

  /** expand_dims on a range of four elements with the given bound. */
  lemma ColumnState(st: PState, bound: OFR)
    requires st == RangeState(0, 4).(shape := [bound])
    ensures ExpandState(st, 1) == Some(PState(
      None, None, [Attr(0), Attr(0)], [4, 1], [Attr(1), Attr(0)], [bound, Attr(0)], [Attr(0), Attr(0)]))
  {
    assert Insert(st.offsets, 1, Attr(0)) == [Attr(0), Attr(0)];
    assert Insert(st.sizes, 1, 1) == [4, 1];
    assert Insert(st.strides, 1, Attr(0)) == [Attr(1), Attr(0)];
    assert Insert(st.shape, 1, Attr(0)) == [bound, Attr(0)];
  }

  lemma RowsState()
    ensures Visit(ROWS, PLAIN, map[]) == Some(PState(
      None, None, [Attr(0), Attr(0)], [4, 1], [Attr(1), Attr(0)], [Attr(0), Attr(0)], [Attr(0), Attr(0)]))
  {
    assert Visit(Range(0, 4), PLAIN, map[]) == Some(RangeState(0, 4));
    ColumnState(RangeState(0, 4), Attr(0));
  }

  ghost predicate IsColumn(st: PState, bound: OFR) {
    st == PState(None, None, [Attr(0), Attr(0)], [4, 1], [Attr(1), Attr(0)], [bound, Attr(0)], [Attr(0), Attr(0)])
  }

  lemma ColumnShapes(l: PState, r: PState)
    requires IsColumn(l, V(ConstV(2))) && IsColumn(r, Attr(0))
    ensures AddShapes(l, r, 0) == Some([V(ConstV(2)), Attr(0)])
  {
    assert AddShapes(l, r, 2) == Some([]);
    assert AddShapes(l, r, 1) == Some([Attr(0)] + []);
    assert AddShapes(l, r, 0) == Some([V(ConstV(2))] + ([Attr(0)] + []));
    assert [V(ConstV(2))] + ([Attr(0)] + []) == [V(ConstV(2)), Attr(0)];
  }

  lemma ColumnSum(st: PState, w: World)
    requires IsColumnSum(st)
    ensures st.Structured() && st.Rank() == 2 && Denote(st, w, [1, 0]) == 0
  {
    ColumnSumValue(st, w);
  }

  predicate IsColumnSum(st: PState) {
    && st.Valid() && st.Rank() == 2 && st.source.None?
    && st.offsets[0] == Attr(0) && st.strides[0] == Attr(2) && st.shape[0] == V(ConstV(2))
    && st.offsets[1] == Attr(0) && st.strides[1] == Attr(0) && st.shape[1] == Attr(0)
  }

  lemma ColumnSumForm(l: PState, r: PState)
    requires IsColumn(l, V(ConstV(2))) && IsColumn(r, Attr(0))
    ensures AddState(l, r, false).Some? && IsColumnSum(AddState(l, r, false).value)
  {
    ColumnAddable(l, r);
    ColumnShapes(l, r);
    ColumnAccepted(l, r, [V(ConstV(2)), Attr(0)]);
    ColumnSumIs(l, r, AddState(l, r, false).value);
  }

  lemma ColumnAccepted(l: PState, r: PState, shapes: seq<OFR>)
    requires l.Valid() && r.Valid() && Addable(l, r) && !r.HasModulo() && AddShapes(l, r, 0) == Some(shapes)
    ensures AddState(l, r, false).Some?
  {
  }

  lemma ColumnSumIs(l: PState, r: PState, st: PState)
    requires l.Valid() && r.Valid() && l.Rank() == r.Rank() == 2 && l.source.None? && r.source.None?
    requires l.offsets[0] == r.offsets[0] == l.offsets[1] == r.offsets[1] == l.strides[1] == r.strides[1] == Attr(0)
    requires l.strides[0] == r.strides[0] == Attr(1)
    requires AddState(l, r, false) == Some(st) && !r.HasModulo() && AddShapes(l, r, 0) == Some([V(ConstV(2)), Attr(0)])
    ensures IsColumnSum(st)
  {
    SumDim(l, r, st, 0, 0, 1);
    SumDim(l, r, st, 1, 0, 0);
  }

  lemma SumDim(l: PState, r: PState, st: PState, i: nat, o: int, s: int)
    requires l.Valid() && r.Valid() && st.Valid() && i < l.Rank() == r.Rank() && AddState(l, r, false) == Some(st)
    requires l.offsets[i] == r.offsets[i] == Attr(o) && l.strides[i] == r.strides[i] == Attr(s)
    ensures i < st.Rank() && st.offsets[i] == Attr(o + o) && st.strides[i] == Attr(s + s)
  {
    AttrSum(o, o);
    AttrSum(s, s);
  }

  lemma AttrSum(a: int, b: int)
    ensures AddOFRs(Attr(a), Attr(b)) == Attr(a + b)
  {
  }

  lemma ColumnAddable(l: PState, r: PState)
    requires IsColumn(l, V(ConstV(2))) && IsColumn(r, Attr(0))
    ensures Addable(l, r) && !r.HasModulo()
  {
    assert !r.HasModulo() by { assert !r.DimHasModulo(0) && !r.DimHasModulo(1); }
  }

  lemma ColumnSumValue(st: PState, w: World)
    requires IsColumnSum(st)
    ensures Denote(st, w, [1, 0]) == 0
  {
    var t := Terms(st, w, [1, 0]);
    assert t[0] == TruncRem(0 + 1 * 2, 2) == 0;
    SumOne(t, 0);
  }

  /** The two strides end up under one modulo: element 1 of the sum is 1 + 1, the state says (1 * 2) % 2. */
  lemma ModuloSumBreaks(w: World)
    ensures WellTyped(Add(WRAPPED, ROWS)) && EvalX(Add(WRAPPED, ROWS), w, [1, 0]) == 2
    ensures var st := Visit(Add(WRAPPED, ROWS), PLAIN, map[]);
            st.Some? && st.value.Structured() && st.value.Rank() == 2 && Denote(st.value, w, [1, 0]) == 0
  {
    WrappedState();
    RowsState();
    var l, r := Visit(WRAPPED, PLAIN, map[]).value, Visit(ROWS, PLAIN, map[]).value;
    ColumnSumForm(l, r);
    ColumnSum(AddState(l, r, false).value, w);
    WrappedSumVisit(l, r);
    WrappedSumElement(w);
    OrigiDenote(AddState(l, r, false).value, w);
  }

  lemma OrigiDenote(st: PState, w: World)
    requires st.Valid() && st.Rank() == 2
    ensures Denote(WithOffsets(Some(st)).value, w, [1, 0]) == Denote(st, w, [1, 0])
  {
    assert Terms(WithOffsets(Some(st)).value, w, [1, 0]) == Terms(st, w, [1, 0]);
  }

  lemma WrappedSumElement(w: World)
    ensures WellTyped(Add(WRAPPED, ROWS)) && EvalX(Add(WRAPPED, ROWS), w, [1, 0]) == 2
  {
    var range, wrapped := Range(0, 4), Rem(Range(0, 4), ConstSplat(2, [4]));
    assert Remove([1, 0], 1) == [1];
    assert EvalX(range, w, [1]) == 1 && EvalX(ConstSplat(2, [4]), w, [1]) == 2;
    assert EvalX(wrapped, w, [1]) == TruncRem(1, 2) == 1;
    assert EvalX(WRAPPED, w, [1, 0]) == EvalX(wrapped, w, Remove([1, 0], 1));
    assert EvalX(ROWS, w, [1, 0]) == EvalX(range, w, Remove([1, 0], 1));
    assert ShapeOf(range) == [4] && ShapeOf(wrapped) == [4];
    assert WellTyped(wrapped) && WellTyped(WRAPPED) && WellTyped(ROWS);
    assert ShapeOf(WRAPPED) == ShapeOf(ROWS) == Insert([4], 1, 1);
  }

  lemma WrappedSumVisit(l: PState, r: PState)
    requires Visit(WRAPPED, PLAIN, map[]) == Some(l) && Visit(ROWS, PLAIN, map[]) == Some(r)
    requires IsColumn(l, V(ConstV(2))) && IsColumn(r, Attr(0))
    ensures Visit(Add(WRAPPED, ROWS), PLAIN, map[]) == WithOffsets(AddState(l, r, false))
  {
    SumVisit(WRAPPED, ROWS, l, r, PLAIN, map[]);
  }

  /** broadcast(range(7, 8)) is the constant 7, the state says 7 + x. */
  lemma UnitRangeBreaks(w: World)
    ensures WellTyped(Broadcast(Range(7, 8), [4])) && EvalX(Broadcast(Range(7, 8), [4]), w, [3]) == 7
    ensures var st := Visit(Broadcast(Range(7, 8), [4]), PLAIN, map[]);
            st.Some? && st.value.Structured() && st.value.Rank() == 1 && Denote(st.value, w, [3]) == 10
  {
    assert Visit(Range(7, 8), PLAIN, map[]) == Some(RangeState(7, 8));
    var st := Visit(Broadcast(Range(7, 8), [4]), PLAIN, map[]).value;
    SumOne(Terms(st, w, [3]), 0);
  }

  // ------------------------------------------------------------------
  // Gathered pointers
  // ------------------------------------------------------------------

  /** A state of rank 2 whose rows are gathered, as the offset of a pointer. */
  predicate RowGather(st: PState, dims: seq<nat>) {
    && st.Valid() && st.Rank() == 2 && st.sizes == dims && st.source.None? && st.scalar.None?
    && st.shape == [Attr(0), Attr(0)] && !st.offsets[0].T? && st.offsets[1].T? && !st.strides[0].T? && !st.strides[1].T?
  }

  function Base(dims: seq<nat>): Expr { Splat(PtrArg(0), dims) }

  lemma BaseState(dims: seq<nat>, c: Config, known: Known, st: PState)
    requires |dims| == 2 && KnownValid(known) && (c.unstructured || known == map[])
    requires Visit(Base(dims), c, known) == Some(st)
    ensures st.Valid() && st.source == Some(0) && st.scalar.None? && st.sizes == dims
    ensures st.offsets == st.strides == st.shape == [Attr(0), Attr(0)]
  {
  }

  lemma BaseVisited(dims: seq<nat>, c: Config, known: Known)
    requires |dims| == 2 && KnownValid(known) && (c.unstructured || known == map[])
    ensures Visit(Base(dims), c, known).Some?
  {
    assert Visit(PtrArg(0), c, known) == Some(EMPTY.(source := Some(0)));
  }

  /** The base plus a row-gathered offset. */
  predicate PointerOver(st: PState, o: PState, dims: seq<nat>, u: bool)
    requires RowGather(o, dims)
  {
    && st.Valid() && st.Rank() == 2 && st.source == Some(0) && st.sizes == dims && st.shape == [Attr(0), Attr(0)]
    && st.offsets == [AddOFRs(Attr(0), o.offsets[0]), o.offsets[1]]
    && st.strides == [AddOFRs(Attr(0), o.strides[0]), if u then o.strides[1] else Attr(1)]
  }

  lemma BaseSum(b: PState, o: PState, dims: seq<nat>, u: bool)
    requires b.Valid() && b.source == Some(0) && b.scalar.None? && b.sizes == dims
    requires b.offsets == b.strides == b.shape == [Attr(0), Attr(0)] && RowGather(o, dims)
    ensures AddState(b, o, u).Some? && PointerOver(AddState(b, o, u).value, o, dims, u)
  {
    assert !b.HasModulo() && !o.HasModulo();
    AddShapesUnwrapped(b, o, 0);
    assert AddShapes(b, o, 0).value == [Attr(0), Attr(0)];
  }

  lemma PointerVisited(off: Expr, dims: seq<nat>, o: PState, c: Config, known: Known)
    requires |dims| == 2 && RowGather(o, dims) && KnownValid(known) && (c.unstructured || known == map[])
    requires Visit(off, c, known) == Some(o)
    ensures VisitAddptr(Base(dims), off, c, known).Some?
    ensures PointerOver(VisitAddptr(Base(dims), off, c, known).value, o, dims, c.unstructured)
  {
    BaseVisited(dims, c, known);
    var b := Visit(Base(dims), c, known).value;
    BaseState(dims, c, known, b);
    BaseSum(b, o, dims, c.unstructured);
  }

  /** The rewrite of base + off succeeds, and the pointer it makes stands for this address at index [0, 1]. */
  ghost predicate DecodedAt(off: Expr, dims: seq<nat>, address: int, w: World) {
    exists st :: RewriteAddptr(Base(dims), off, true, map[]).mapped == Some(Made(st)) && StandsFor(st, address, w)
  }

  ghost predicate StandsFor(st: PState, address: int, w: World) {
    st.Valid() && st.Rank() == 2 && Denote(st, w, [0, 1]) == address
  }

  /** Both walks, put together. */
  lemma RewriteMerges(off: Expr, dims: seq<nat>, s: PState, u: PState, m: PState, address: int, w: World)
    requires dims != [] && s.Valid() && u.Valid() && !s.Structured() && s.Rank() != 1
    requires VisitAddptr(Base(dims), off, STRUCTURED, map[]) == Some(s)
    requires VisitAddptr(Base(dims), off, UNSTRUCTURED, map[AddPtr(Base(dims), off) := s]) == Some(u)
    requires MergeUnstructuredState(s, u) == Some(m) && StandsFor(m, address, w)
    ensures DecodedAt(off, dims, address, w)
  {
    var p := Base(dims);
    assert RewriteGathered(p, off, s, map[AddPtr(p, off) := s])
        == MergedRewrite(AddPtr(p, off), s, u, map[AddPtr(p, off) := s]);
    assert RewriteAddptr(p, off, true, map[]).mapped == Some(Made(m));
  }

  lemma SecondWalk(p: Expr, off: Expr, s: PState, u: PState)
    requires s.Valid() && VisitAddptr(p, off, UNSTRUCTURED, map[]) == Some(u)
    ensures KnownValid(map[AddPtr(p, off) := s])
    ensures VisitAddptr(p, off, UNSTRUCTURED, map[AddPtr(p, off) := s]) == Some(u)
  {
    UnstructuredFrame(p, map[], AddPtr(p, off), s);
    UnstructuredFrame(off, map[], AddPtr(p, off), s);
  }

  /** What the rewritten pointer is: base, the structured rows of one walk and the gathered ones of the other. */
  lemma RewriteOf(off: Expr, dims: seq<nat>, so: PState, uo: PState, w: World)
    requires |dims| == 2 && RowGather(so, dims) && RowGather(uo, dims)
    requires Visit(off, STRUCTURED, map[]) == Some(so) && Visit(off, UNSTRUCTURED, map[]) == Some(uo)
    ensures DecodedAt(off, dims,
                      w.ptr(0) + EvalO(so.offsets[0], w) + EvalAt(uo.offsets[1], w, 1) * EvalO(uo.strides[1], w), w)
  {
    var p := Base(dims);
    PointerVisited(off, dims, so, STRUCTURED, map[]);
    PointerVisited(off, dims, uo, UNSTRUCTURED, map[]);
    var s, u := VisitAddptr(p, off, STRUCTURED, map[]).value, VisitAddptr(p, off, UNSTRUCTURED, map[]).value;
    SecondWalk(p, off, s, u);
    MergedPointer(s, u, so, uo, dims, w);
    RewriteMerges(off, dims, s, u, MergeUnstructuredState(s, u).value,
                  w.ptr(0) + EvalO(so.offsets[0], w) + EvalAt(uo.offsets[1], w, 1) * EvalO(uo.strides[1], w), w);
  }

  lemma MergedPointer(s: PState, u: PState, so: PState, uo: PState, dims: seq<nat>, w: World)
    requires RowGather(so, dims) && RowGather(uo, dims)
    requires PointerOver(s, so, dims, false) && PointerOver(u, uo, dims, true)
    ensures !s.Structured() && MergeUnstructuredState(s, u).Some?
    ensures StandsFor(MergeUnstructuredState(s, u).value,
                      w.ptr(0) + EvalO(so.offsets[0], w) + EvalAt(uo.offsets[1], w, 1) * EvalO(uo.strides[1], w), w)
  {
    assert s.offsets[1].T? && u.offsets[1].T?;
    var m := MergeUnstructuredState(s, u).value;
    SumOfTwo(Terms(m, w, [0, 1]));
    AddValue(Attr(0), so.offsets[0], w, 0);
  }

  // Two rows, each a vector of two elements.
  const SQUARE := [2, 2]

  function Row(v: Expr): Expr { Broadcast(ExpandDims(v, 0), SQUARE) }

  predicate Vector(st: PState) {
    && st.Valid() && st.sizes == [2] && st.shape == [Attr(0)] && st.source.None? && st.scalar.None?
    && st.offsets[0].T? && !st.strides[0].T?
  }

  lemma RowState(v: Expr, sv: PState, c: Config)
    requires ShapeOf(v) == [2] && Vector(sv) && Visit(v, c, map[]) == Some(sv)
    ensures Visit(Row(v), c, map[]).Some?
    ensures var st := Visit(Row(v), c, map[]).value;
            RowGather(st, SQUARE) && st.offsets == [Attr(0), sv.offsets[0]] && st.strides == [Attr(0), sv.strides[0]]
  {
    var e := ExpandState(sv, 0).value;
    assert Insert(sv.offsets, 0, Attr(0)) == [Attr(0), sv.offsets[0]];
    assert Insert(sv.strides, 0, Attr(0)) == [Attr(0), sv.strides[0]];
    assert Insert(sv.shape, 0, Attr(0)) == [Attr(0), Attr(0)];
    assert Insert(sv.sizes, 0, 1) == [1, 2] && Insert([2], 0, 1) == [1, 2];
    ExpandVisit(v, 0, sv, c, map[]);
    BroadcastVisit(ExpandDims(v, 0), SQUARE, e, c, map[]);
    RowSizes(e);
  }

  lemma RowSizes(st: PState)
    requires st.Valid() && st.sizes == [1, 2]
    ensures BroadcastState(st, [1, 2], SQUARE).sizes == SQUARE
  {
  }

  lemma RowElement(v: Expr, w: World)
    requires WellTyped(v) && ShapeOf(v) == [2] && !IsPtr(v)
    ensures WellTyped(AddPtr(Base(SQUARE), Row(v))) && ShapeOf(Row(v)) == SQUARE && WellTyped(Row(v)) && !IsPtr(Row(v))
    ensures EvalX(Row(v), w, [0, 1]) == EvalX(v, w, [1])
    ensures EvalX(AddPtr(Base(SQUARE), Row(v)), w, [0, 1]) == w.ptr(0) + EvalX(v, w, [1])
  {
    assert Insert([2], 0, 1) == [1, 2];
    assert Clamp([0, 1], [1, 2]) == [0, 1];
    assert Remove([0, 1], 0) == [1];
    assert EvalX(Base(SQUARE), w, [0, 1]) == EvalX(PtrArg(0), w, []) == w.ptr(0);
  }

  /** The pointer over a row holds what the second walk gathers. */
  lemma RowRewrite(v: Expr, s: PState, u: PState, address: int, w: World)
    requires ShapeOf(v) == [2] && Vector(s) && Vector(u)
    requires Visit(v, STRUCTURED, map[]) == Some(s) && Visit(v, UNSTRUCTURED, map[]) == Some(u)
    requires address == w.ptr(0) + EvalAt(u.offsets[0], w, 1) * EvalO(u.strides[0], w)
    ensures DecodedAt(Row(v), SQUARE, address, w)
  {
    RowState(v, s, STRUCTURED);
    RowState(v, u, UNSTRUCTURED);
    RewriteOf(Row(v), SQUARE, Visit(Row(v), STRUCTURED, map[]).value, Visit(Row(v), UNSTRUCTURED, map[]).value, w);
  }

  /** A vector of two indices that no operation explains. */
  function Indices(id: nat): Expr { Other(id, [2]) }

  lemma IndicesState(id: nat, c: Config) returns (st: PState)
    requires c.gather
    ensures Visit(Indices(id), c, map[]) == Some(st) && Vector(st)
    ensures st.offsets == [T(Orig(Indices(id)))] && st.strides == [Attr(1)]
  {
    assert SingleDim([2], 0);
    st := RebuildAsUnsupportedOp(Indices(id)).value;
    assert st.offsets == [T(Orig(Indices(id)))] && st.strides == [Attr(1)] && st.shape == [Attr(0)];
  }

  lemma IndexAt(id: nat, w: World)
    ensures EvalT(Orig(Indices(id)), w, 1) == w.tens(id, [1])
  {
    assert Spread([2], 1) == [1];
  }

  /** Nothing stands between operands that do not wrap around and addState. */
  lemma UnwrappedSum(l: Expr, r: Expr, ls: PState, rs: PState, c: Config)
    requires Visit(l, c, map[]) == Some(ls) && Visit(r, c, map[]) == Some(rs)
    requires ls.Valid() && rs.Valid() && Unwrapped(ls) && Unwrapped(rs)
    ensures Visit(Add(l, r), c, map[]) == WithOffsets(AddState(ls, rs, c.unstructured))
  {
    assert !ls.HasModulo() && !rs.HasModulo();
    NothingGathered(l, r, ls, rs, c);
  }

  /** A sum of two vectors without bounds. */
  lemma VectorSum(l: Expr, r: Expr, ls: PState, rs: PState, c: Config) returns (st: PState)
    requires Visit(l, c, map[]) == Some(ls) && Visit(r, c, map[]) == Some(rs)
    requires ls.Valid() && ls.sizes == [2] && ls.shape == [Attr(0)] && ls.source.None? && ls.scalar.None?
    requires Vector(rs)
    ensures Visit(Add(l, r), c, map[]) == Some(st) && SumOfVectors(st, ls, rs, c.unstructured)
  {
    UnwrappedSum(l, r, ls, rs, c);
    st := VectorStates(ls, rs, c.unstructured);
  }

  ghost predicate SumOfVectors(st: PState, ls: PState, rs: PState, u: bool)
    requires ls.Rank() == |ls.strides| == rs.Rank() == |rs.strides| == 1
  {
    && st.Valid() && st.sizes == [2] && st.shape == [Attr(0)] && st.source.None? && st.scalar.None?
    && st.offsets == [AddDim(ls.offsets[0], ls.strides[0], rs.offsets[0], rs.strides[0], u).0]
    && st.strides == [AddDim(ls.offsets[0], ls.strides[0], rs.offsets[0], rs.strides[0], u).1]
  }

  lemma VectorStates(ls: PState, rs: PState, u: bool) returns (st: PState)
    requires ls.Valid() && ls.sizes == [2] && ls.shape == [Attr(0)] && ls.source.None? && ls.scalar.None?
    requires Vector(rs)
    ensures WithOffsets(AddState(ls, rs, u)) == Some(st) && SumOfVectors(st, ls, rs, u)
  {
    assert !ls.HasModulo() && !rs.HasModulo();
    AddShapesUnwrapped(ls, rs, 0);
    if !ls.Structured() { assert ls.NonStructuredDim() == 0 == rs.NonStructuredDim(); }
    st := WithOffsets(AddState(ls, rs, u)).value;
  }

  /** range + indices, as the rows of a pointer: the range is lost. */
  lemma MergeBreaks(start: int, id: nat, w: World)
    ensures var v := Row(Add(Range(start, start + 2), Indices(id)));
            && WellTyped(AddPtr(Base(SQUARE), v))
            && EvalX(AddPtr(Base(SQUARE), v), w, [0, 1]) == w.ptr(0) + start + 1 + w.tens(id, [1])
            && DecodedAt(v, SQUARE, w.ptr(0) + start + w.tens(id, [1]), w)
  {
    var v := Add(Range(start, start + 2), Indices(id));
    MergedElement(start, id, w);
    var s := MergedRange(start, id, STRUCTURED, w);
    var u := MergedRange(start, id, UNSTRUCTURED, w);
    RowRewrite(v, s, u, w.ptr(0) + start + w.tens(id, [1]), w);
  }

  lemma MergedElement(start: int, id: nat, w: World)
    ensures var v := Row(Add(Range(start, start + 2), Indices(id)));
            && WellTyped(AddPtr(Base(SQUARE), v))
            && EvalX(AddPtr(Base(SQUARE), v), w, [0, 1]) == w.ptr(0) + start + 1 + w.tens(id, [1])
  {
    RowElement(Add(Range(start, start + 2), Indices(id)), w);
  }

  lemma MergedRange(start: int, id: nat, c: Config, w: World) returns (st: PState)
    requires c.gather
    ensures Visit(Add(Range(start, start + 2), Indices(id)), c, map[]) == Some(st) && Vector(st)
    ensures c.unstructured ==> EvalAt(st.offsets[0], w, 1) * EvalO(st.strides[0], w) == start + w.tens(id, [1])
  {
    var l := RangeState(start, start + 2);
    assert l.sizes == [2] && Visit(Range(start, start + 2), c, map[]) == Some(l);
    var r := IndicesState(id, c);
    st := VectorSum(Range(start, start + 2), Indices(id), l, r, c);
    ShiftedIndices(start, id, w);
    assert c.unstructured ==> st.offsets[0] == AddOFRs(T(TSplat(ConstV(start))), T(Orig(Indices(id))));
  }

  lemma ShiftedIndices(start: int, id: nat, w: World)
    ensures AddOFRs(T(TSplat(ConstV(start))), T(Orig(Indices(id)))).T?
    ensures EvalAt(AddOFRs(T(TSplat(ConstV(start))), T(Orig(Indices(id)))), w, 1) == start + w.tens(id, [1])
  {
    IndexAt(id, w);
    AddValue(T(TSplat(ConstV(start))), T(Orig(Indices(id))), w, 1);
    assert Eval(ConstV(start), w) == start;
  }

  function Zeroed(id: nat): Expr { Mul(Indices(id), ConstSplat(0, [2])) }

  /**
   indices * 0 + more, as the rows of a pointer: the product counts as if the factor were one. A build with assertions
   stops at this sum.
   */
  lemma ZeroStrideBreaks(id: nat, more: nat, w: World)
    ensures var v := Row(Add(Zeroed(id), Indices(more)));
            && WellTyped(AddPtr(Base(SQUARE), v))
            && EvalX(AddPtr(Base(SQUARE), v), w, [0, 1]) == w.ptr(0) + w.tens(more, [1])
            && DecodedAt(v, SQUARE, w.ptr(0) + w.tens(id, [1]) + w.tens(more, [1]), w)
  {
    var v := Add(Zeroed(id), Indices(more));
    RowElement(v, w);
    assert EvalX(Zeroed(id), w, [1]) == EvalX(Indices(id), w, [1]) * 0;
    var s := ZeroedSum(id, more, STRUCTURED, w);
    var u := ZeroedSum(id, more, UNSTRUCTURED, w);
    RowRewrite(v, s, u, w.ptr(0) + w.tens(id, [1]) + w.tens(more, [1]), w);
  }

  lemma ZeroedSum(id: nat, more: nat, c: Config, w: World) returns (st: PState)
    requires c.gather
    ensures Visit(Add(Zeroed(id), Indices(more)), c, map[]) == Some(st) && Vector(st)
    ensures c.unstructured ==>
              EvalAt(st.offsets[0], w, 1) * EvalO(st.strides[0], w) == w.tens(id, [1]) + w.tens(more, [1])
  {
    var l := ZeroedState(id, c);
    var r := IndicesState(more, c);
    st := VectorSum(Zeroed(id), Indices(more), l, r, c);
    IndexAt(id, w);
    IndexAt(more, w);
    AddValue(T(Orig(Indices(id))), T(Orig(Indices(more))), w, 1);
    assert c.unstructured ==> st.offsets[0] == AddOFRs(T(Orig(Indices(id))), T(Orig(Indices(more))));
  }

  lemma ZeroedState(id: nat, c: Config) returns (st: PState)
    requires c.gather
    ensures Visit(Zeroed(id), c, map[]) == Some(st) && Vector(st) && st.offsets == [T(Orig(Indices(id)))]
    ensures st.strides == [if c.unstructured then V(ConstV(0)) else Attr(1)]
  {
    var l := IndicesState(id, c);
    var r := ConstSplatState(0, [2]);
    assert Visit(ConstSplat(0, [2]), c, map[]) == Some(r);
    assert !l.HasModulo() && !r.HasModulo();
    NothingGathered(Indices(id), ConstSplat(0, [2]), l, r, c);
    st := ZeroProduct(l, r, c.unstructured);
  }

  lemma ZeroProduct(l: PState, r: PState, u: bool) returns (st: PState)
    requires Vector(l) && l.strides == [Attr(1)] && r == ConstSplatState(0, [2])
    ensures WithOffsets(MulState(l, r, u)) == Some(st) && Vector(st) && st.offsets == l.offsets
    ensures st.strides == [if u then V(ConstV(0)) else Attr(1)]
  {
    assert !r.HasModulo();
    st := WithOffsets(MulState(l, r, u)).value;
    var d := MulDim(l.offsets[0], l.strides[0], l.shape[0], ConstV(0), u);
    assert st.offsets[0] == d.0 && st.strides[0] == d.1 && st.shape[0] == d.2;
  }

  // ------------------------------------------------------------------
  // Subtraction
  // ------------------------------------------------------------------

  function Column(start: int): Expr { Broadcast(ExpandDims(Range(start, start + 2), 1), SQUARE) }

  /** range[:, None] - indices[None, :]: the indices are added. */
  lemma SubtractionBreaks(start: int, id: nat, w: World)
    ensures var v := Sub(Column(start), Row(Indices(id)));
            && WellTyped(AddPtr(Base(SQUARE), v))
            && EvalX(AddPtr(Base(SQUARE), v), w, [0, 1]) == w.ptr(0) + start - w.tens(id, [1])
            && DecodedAt(v, SQUARE, w.ptr(0) + start + w.tens(id, [1]), w)
  {
    var v := Sub(Column(start), Row(Indices(id)));
    DifferenceElement(start, id, w);
    var s := DifferenceState(start, id, STRUCTURED, w);
    var u := DifferenceState(start, id, UNSTRUCTURED, w);
    RewriteOf(v, SQUARE, s, u, w);
  }

  lemma DifferenceElement(start: int, id: nat, w: World)
    ensures WellTyped(AddPtr(Base(SQUARE), Sub(Column(start), Row(Indices(id)))))
    ensures EvalX(AddPtr(Base(SQUARE), Sub(Column(start), Row(Indices(id)))), w, [0, 1])
         == w.ptr(0) + start - w.tens(id, [1])
  {
    RowElement(Indices(id), w);
    ColumnElement(start, w);
    DifferenceTyped(Column(start), Row(Indices(id)));
    assert EvalX(Base(SQUARE), w, [0, 1]) == EvalX(PtrArg(0), w, []) == w.ptr(0);
  }

  lemma DifferenceTyped(l: Expr, r: Expr)
    requires WellTyped(l) && WellTyped(r) && !IsPtr(l) && !IsPtr(r) && ShapeOf(l) == ShapeOf(r) == SQUARE
    ensures WellTyped(AddPtr(Base(SQUARE), Sub(l, r)))
  {
  }

  lemma ColumnElement(start: int, w: World)
    ensures WellTyped(Column(start)) && ShapeOf(Column(start)) == SQUARE && !IsPtr(Column(start))
    ensures EvalX(Column(start), w, [0, 1]) == start
  {
    assert Insert([2], 1, 1) == [2, 1];
    assert Clamp([0, 1], [2, 1]) == [0, 0];
    assert Remove([0, 0], 1) == [0];
    assert ShapeOf(ExpandDims(Range(start, start + 2), 1)) == [2, 1] && !IsPtr(ExpandDims(Range(start, start + 2), 1));
    assert EvalX(Column(start), w, [0, 1]) == EvalX(Range(start, start + 2), w, [0]) == start;
  }

  predicate IsColumnOf(st: PState, start: int) {
    && st.Valid() && st.sizes == SQUARE && st.source.None? && st.scalar.None? && st.shape == [Attr(0), Attr(0)]
    && st.offsets == [Attr(start), Attr(0)] && st.strides == [Attr(1), Attr(0)]
  }

  lemma ColumnOf(start: int, c: Config) returns (st: PState)
    ensures Visit(Column(start), c, map[]) == Some(st) && IsColumnOf(st, start)
  {
    var r := RangeState(start, start + 2);
    assert r.sizes == [2] && Visit(Range(start, start + 2), c, map[]) == Some(r);
    assert Insert(r.offsets, 1, Attr(0)) == [Attr(start), Attr(0)];
    assert Insert(r.strides, 1, Attr(0)) == [Attr(1), Attr(0)];
    assert Insert(r.shape, 1, Attr(0)) == [Attr(0), Attr(0)];
    assert Insert([2], 1, 1) == [2, 1];
    var e := ExpandState(r, 1).value;
    assert Visit(ExpandDims(Range(start, start + 2), 1), c, map[]) == Some(e);
    st := BroadcastState(e, [2, 1], SQUARE);
    assert st.sizes == SQUARE;
  }

  lemma DifferenceState(start: int, id: nat, c: Config, w: World) returns (st: PState)
    requires c.gather
    ensures Visit(Sub(Column(start), Row(Indices(id))), c, map[]) == Some(st) && RowGather(st, SQUARE)
    ensures st.offsets[0] == Attr(start)
    ensures c.unstructured ==> EvalAt(st.offsets[1], w, 1) * EvalO(st.strides[1], w) == w.tens(id, [1])
  {
    var l := ColumnOf(start, c);
    var v := IndicesState(id, c);
    RowState(Indices(id), v, c);
    var r := Visit(Row(Indices(id)), c, map[]).value;
    st := RowDifference(l, r, start, id, c.unstructured);
    DifferenceVisit(Column(start), Row(Indices(id)), l, r, c, map[]);
    DoublyNegated(id, w);
  }

  lemma DoublyNegated(id: nat, w: World)
    ensures EvalAt(T(TSub(TSplat(ConstV(0)), Orig(Indices(id)))), w, 1) * EvalO(Attr(-1), w) == w.tens(id, [1])
  {
    IndexAt(id, w);
    assert EvalT(TSub(TSplat(ConstV(0)), Orig(Indices(id))), w, 1) == Eval(ConstV(0), w) - w.tens(id, [1]);
  }

  /** A column minus gathered rows. */
  lemma RowDifference(l: PState, r: PState, start: int, id: nat, u: bool) returns (st: PState)
    requires IsColumnOf(l, start) && RowGather(r, SQUARE)
    requires r.offsets == [Attr(0), T(Orig(Indices(id)))] && r.strides == [Attr(0), Attr(1)]
    ensures WithOffsets(AddState(l, NegState(r), u)) == Some(st) && RowGather(st, SQUARE)
    ensures st.offsets == [Attr(start), T(TSub(TSplat(ConstV(0)), Orig(Indices(id))))]
    ensures st.strides[1] == if u then Attr(-1) else Attr(1)
  {
    var neg := NegState(r);
    assert neg.offsets == [Attr(0), T(TSub(TSplat(ConstV(0)), Orig(Indices(id))))];
    assert neg.strides == [Attr(0), Attr(-1)];
    assert !l.HasModulo() && !neg.HasModulo();
    AddShapesUnwrapped(l, neg, 0);
    st := WithOffsets(AddState(l, neg, u)).value;
    assert st.shape == [Attr(0), Attr(0)];
  }

  // ------------------------------------------------------------------
  // Remainders
  // ------------------------------------------------------------------

  // (splat(n) + range[None, :]) % splat(m)
  const WIDE := [1, 4]

  function Dividend(n: int): Expr { Add(ConstSplat(n, WIDE), ExpandDims(Range(0, 4), 0)) }

  function Remainder(n: int, m: int): Expr { Rem(Dividend(n), ConstSplat(m, WIDE)) }

  lemma RemainderElement(n: int, m: int, w: World)
    ensures WellTyped(Remainder(n, m)) && ShapeOf(Remainder(n, m)) == WIDE
    ensures EvalX(Remainder(n, m), w, [0, 1]) == TruncRem(n + 1, m)
  {
    assert Insert([4], 0, 1) == WIDE;
    assert Remove([0, 1], 0) == [1];
    assert EvalX(ExpandDims(Range(0, 4), 0), w, [0, 1]) == EvalX(Range(0, 4), w, [1]) == 1;
    assert EvalX(Dividend(n), w, [0, 1]) == n + 1;
  }

  predicate WideRow(st: PState, first: OFR) {
    && st.Valid() && st.sizes == WIDE && st.source.None? && st.scalar.None? && Unwrapped(st)
    && st.offsets[0] == first && st.strides[0] == Attr(0) && st.offsets[1] == Attr(0) && st.strides[1] == Attr(1)
  }

  lemma WideRange(c: Config) returns (st: PState)
    ensures Visit(ExpandDims(Range(0, 4), 0), c, map[]) == Some(st) && WideRow(st, Attr(0))
  {
    var r := RangeState(0, 4);
    assert Visit(Range(0, 4), c, map[]) == Some(r);
    st := WideExpand(Range(0, 4), r, c);
  }

  lemma WideExpand(e: Expr, r: PState, c: Config) returns (st: PState)
    requires Visit(e, c, map[]) == Some(r) && r.Valid() && r.sizes == [4] && r.source.None? && r.scalar.None?
    requires r.offsets == [Attr(0)] && r.strides == [Attr(1)] && r.shape == [Attr(0)]
    ensures Visit(ExpandDims(e, 0), c, map[]) == Some(st) && WideRow(st, Attr(0))
  {
    assert Insert(r.offsets, 0, Attr(0)) == [Attr(0), Attr(0)];
    assert Insert(r.strides, 0, Attr(0)) == [Attr(0), Attr(1)];
    assert Insert(r.shape, 0, Attr(0)) == [Attr(0), Attr(0)];
    assert Insert(r.sizes, 0, 1) == WIDE;
    st := ExpandState(r, 0).value;
  }

  predicate WideConstant(st: PState, n: Val) {
    && st.Valid() && st.sizes == WIDE && st.source.None? && Unwrapped(st)
    && st.offsets[0] == V(n) && st.strides[0] == st.offsets[1] == st.strides[1] == Attr(0)
  }

  lemma DividendState(n: int, c: Config) returns (st: PState)
    requires !c.unstructured
    ensures Visit(Dividend(n), c, map[]) == Some(st) && WideRow(st, V(ConstV(n)))
  {
    var r := WideRange(c);
    var l := ConstSplatState(n, WIDE);
    ConstantState(n, l);
    st := WideOperands(ConstSplat(n, WIDE), ExpandDims(Range(0, 4), 0), l, r, ConstV(n), c);
  }

  lemma ConstantState(n: int, st: PState)
    requires st == ConstSplatState(n, WIDE)
    ensures WideConstant(st, ConstV(n))
  {
    assert st.offsets == [V(ConstV(n)), Attr(0)];
  }

  lemma WideOperands(le: Expr, re: Expr, l: PState, r: PState, n: Val, c: Config) returns (st: PState)
    requires WideConstant(l, n) && WideRow(r, Attr(0)) && !c.unstructured
    requires Visit(le, c, map[]) == Some(l) && Visit(re, c, map[]) == Some(r)
    ensures Visit(Add(le, re), c, map[]) == Some(st) && WideRow(st, V(n))
  {
    UnwrappedSum(le, re, l, r, c);
    WideAccepted(l, r, n);
    AddUnwrapped(l, r, false);
    WideSum(l, r, AddState(l, r, false).value, n);
    st := WithOffsets(AddState(l, r, false)).value;
  }

  lemma WideAccepted(l: PState, r: PState, n: Val)
    requires WideConstant(l, n) && WideRow(r, Attr(0))
    ensures AddState(l, r, false).Some?
  {
    assert !l.HasModulo() && !r.HasModulo();
    AddShapesUnwrapped(l, r, 0);
  }

  lemma WideSum(l: PState, r: PState, st: PState, n: Val)
    requires WideConstant(l, n) && WideRow(r, Attr(0)) && AddState(l, r, false) == Some(st) && Unwrapped(st)
    ensures WideRow(st, V(n))
  {
    SumAt(l, r, false, st, 0);
    SumAt(l, r, false, st, 1);
    ConstantPlusZero(n, st.offsets[0], st.strides[0]);
    ZeroPlusRange(st.offsets[1], st.strides[1]);
  }

  lemma ConstantPlusZero(n: Val, o: OFR, s: OFR)
    requires (o, s) == AddDim(V(n), Attr(0), Attr(0), Attr(0), false)
    ensures o == V(n) && s == Attr(0)
  {
  }

  lemma ZeroPlusRange(o: OFR, s: OFR)
    requires (o, s) == AddDim(Attr(0), Attr(0), Attr(0), Attr(1), false)
    ensures o == Attr(0) && s == Attr(1)
  {
  }

  /** The constant stays outside the modulo: element 1 is (n + 1) % m, the state says n + 1 % m. */
  lemma RemainderDecoded(n: int, m: int, w: World)
    ensures EvalX(Remainder(n, m), w, [0, 1]) == TruncRem(n + 1, m)
    ensures var st := Visit(Remainder(n, m), PLAIN, map[]);
            && st.Some? && st.value.Structured() && st.value.Rank() == 2
            && Denote(st.value, w, [0, 1]) == n + TruncRem(1, m)
  {
    RemainderElement(n, m, w);
    var l := DividendState(n, PLAIN);
    assert Visit(ConstSplat(m, WIDE), PLAIN, map[]) == Some(ConstSplatState(m, WIDE));
    WideRemainder(Remainder(n, m), l, n, m, w);
  }

  lemma WideRemainder(e: Expr, l: PState, n: int, m: int, w: World)
    requires ShapeOf(e) == WIDE && WideRow(l, V(ConstV(n)))
    ensures RemState(l, ConstV(m), e, PLAIN) == Some(Bounded(l, 1, ConstV(m))) && Bounded(l, 1, ConstV(m)).Structured()
    ensures Denote(Bounded(l, 1, ConstV(m)), w, [0, 1]) == n + TruncRem(1, m)
  {
    assert !l.HasModulo();
    SumOfTwo(Terms(Bounded(l, 1, ConstV(m)), w, [0, 1]));
    assert Eval(ConstV(n), w) == n && Eval(ConstV(m), w) == m;
  }

  /** (5 + 1) % 3 is zero, the state says six. */
  lemma RemainderBreaks(w: World)
    ensures WellTyped(Remainder(5, 3)) && EvalX(Remainder(5, 3), w, [0, 1]) == 0
    ensures var st := Visit(Remainder(5, 3), PLAIN, map[]);
            st.Some? && st.value.Structured() && st.value.Rank() == 2 && Denote(st.value, w, [0, 1]) == 6
  {
    RemainderElement(5, 3, w);
    RemainderDecoded(5, 3, w);
    assert TruncRem(6, 3) == 0 && TruncRem(1, 3) == 1;
  }

  /** With gathering enabled the remainder becomes the gathered tensor, and the constant is added once more. */
  lemma RegatherBreaks(n: int, m: int, w: World)
    ensures WellTyped(AddPtr(Base(WIDE), Remainder(n, m)))
    ensures EvalX(AddPtr(Base(WIDE), Remainder(n, m)), w, [0, 1]) == w.ptr(0) + TruncRem(n + 1, m)
    ensures DecodedAt(Remainder(n, m), WIDE, w.ptr(0) + n + TruncRem(n + 1, m), w)
  {
    RegatherElement(n, m, w);
    var s := GatheredRemainder(n, m, w);
    var u := RemainderTensor(n, m, w);
    RewriteOf(Remainder(n, m), WIDE, s, u, w);
  }

  lemma RegatherElement(n: int, m: int, w: World)
    ensures WellTyped(AddPtr(Base(WIDE), Remainder(n, m)))
    ensures EvalX(AddPtr(Base(WIDE), Remainder(n, m)), w, [0, 1]) == w.ptr(0) + TruncRem(n + 1, m)
  {
    RemainderElement(n, m, w);
    assert EvalX(Base(WIDE), w, [0, 1]) == EvalX(PtrArg(0), w, []) == w.ptr(0);
  }

  lemma GatheredRemainder(n: int, m: int, w: World) returns (st: PState)
    ensures Visit(Remainder(n, m), STRUCTURED, map[]) == Some(st) && RowGather(st, WIDE) && EvalO(st.offsets[0], w) == n
  {
    RemainderElement(n, m, w);
    var l := DividendState(n, STRUCTURED);
    assert Visit(ConstSplat(m, WIDE), STRUCTURED, map[]) == Some(ConstSplatState(m, WIDE));
    st := GatheredRow(Remainder(n, m), l, n, m);
    assert Eval(ConstV(n), w) == n;
  }

  lemma GatheredRow(e: Expr, l: PState, n: int, m: int) returns (st: PState)
    requires ShapeOf(e) == WIDE && WideRow(l, V(ConstV(n)))
    ensures RemState(l, ConstV(m), e, STRUCTURED) == Some(st) && RowGather(st, WIDE) && st.offsets[0] == V(ConstV(n))
  {
    assert !l.HasModulo();
    assert SingleDim(WIDE, 1);
    assert RebuildAsGatherScatter(l, e, 1).Some?;
    st := RemDim(l, ConstV(m), e, 1, STRUCTURED);
  }

  lemma RemainderTensor(n: int, m: int, w: World) returns (st: PState)
    ensures Visit(Remainder(n, m), UNSTRUCTURED, map[]) == Some(st) && RowGather(st, WIDE)
    ensures EvalAt(st.offsets[1], w, 1) * EvalO(st.strides[1], w) == TruncRem(n + 1, m)
  {
    RemainderElement(n, m, w);
    assert SingleDim(WIDE, 1);
    st := Visit(Remainder(n, m), UNSTRUCTURED, map[]).value;
    assert st.shape == [Attr(0), Attr(0)];
    assert Spread(WIDE, 1) == [0, 1];
    assert EvalT(Orig(Remainder(n, m)), w, 1) == EvalX(Remainder(n, m), w, [0, 1]);
  }

  const FIVE_MOD_THREE := Rem(ConstSplat(5, [2]), ConstSplat(3, [2]))

  /** range(0, 2) * (splat(5) % splat(3)) is multiplied by five: element 1 is two. */
  lemma RemainderScalarBreaks(w: World)
    ensures WellTyped(Mul(Range(0, 2), FIVE_MOD_THREE)) && EvalX(Mul(Range(0, 2), FIVE_MOD_THREE), w, [1]) == 2
    ensures var st := Visit(Mul(Range(0, 2), FIVE_MOD_THREE), STRUCTURED, map[]);
            st.Some? && st.value.Structured() && st.value.Rank() == 1 && Denote(st.value, w, [1]) == 5
  {
    FiveModThree(w);
    var l := RangeState(0, 2);
    var r := ScalarRemainder();
    assert Visit(Range(0, 2), STRUCTURED, map[]) == Some(l);
    assert !l.HasModulo() && !r.HasModulo();
    NothingGathered(Range(0, 2), FIVE_MOD_THREE, l, r, STRUCTURED);
    var st := FiveTimes(l, r);
    SumOne(Terms(st, w, [1]), 0);
    assert Eval(ConstV(5), w) == 5;
  }

  lemma FiveModThree(w: World)
    ensures WellTyped(Mul(Range(0, 2), FIVE_MOD_THREE)) && EvalX(Mul(Range(0, 2), FIVE_MOD_THREE), w, [1]) == 2
  {
    assert EvalX(FIVE_MOD_THREE, w, [1]) == TruncRem(5, 3) == 2;
    assert EvalX(Range(0, 2), w, [1]) == 1;
  }

  lemma ScalarRemainder() returns (st: PState)
    ensures Visit(FIVE_MOD_THREE, STRUCTURED, map[]) == Some(st) && st.Valid() && st.sizes == [2] && st.source.None?
    ensures st.scalar == Some(ConstV(5)) && st.offsets == [T(Orig(FIVE_MOD_THREE))] && st.shape == [Attr(0)]
  {
    var l := ConstSplatState(5, [2]);
    assert Visit(ConstSplat(5, [2]), STRUCTURED, map[]) == Some(l);
    assert Visit(ConstSplat(3, [2]), STRUCTURED, map[]) == Some(ConstSplatState(3, [2]));
    assert !l.HasModulo();
    assert SingleDim([2], 0);
    assert RebuildAsGatherScatter(l, FIVE_MOD_THREE, 0).Some?;
    st := Visit(FIVE_MOD_THREE, STRUCTURED, map[]).value;
  }

  lemma FiveTimes(l: PState, r: PState) returns (st: PState)
    requires l == RangeState(0, 2) && r.Valid() && r.Rank() == 1 && !r.HasModulo()
    requires r.source.None? && r.scalar == Some(ConstV(5))
    ensures WithOffsets(MulState(l, r, false)) == Some(st) && st.Valid() && st.source.None? && st.Rank() == 1
    ensures st.offsets == [Attr(0)] && st.strides == [V(ConstV(5))] && st.shape == [Attr(0)]
  {
    st := WithOffsets(MulState(l, r, false)).value;
    var d := MulDim(l.offsets[0], l.strides[0], l.shape[0], ConstV(5), false);
    assert st.offsets[0] == d.0 && st.strides[0] == d.1 && st.shape[0] == d.2;
  }

  // ------------------------------------------------------------------
  // Swapped bounds
  // ------------------------------------------------------------------

  /** (range % 2)[:, None] + splat(1): the bound moves to the other dimension, and element 3 is 4 instead of 2. */
  lemma ModuloSwapBreaks(w: World)
    ensures WellTyped(Add(WRAPPED, ConstSplat(1, [4, 1]))) && EvalX(Add(WRAPPED, ConstSplat(1, [4, 1])), w, [3, 0]) == 2
    ensures var st := Visit(Add(WRAPPED, ConstSplat(1, [4, 1])), PLAIN, map[]);
            st.Some? && st.value.Structured() && st.value.Rank() == 2 && Denote(st.value, w, [3, 0]) == 4
  {
    WrappedPlusOne(w);
    WrappedState();
    var l, r := Visit(WRAPPED, PLAIN, map[]).value, ConstSplatState(1, [4, 1]);
    assert Visit(ConstSplat(1, [4, 1]), PLAIN, map[]) == Some(r);
    assert !r.HasModulo() by { assert !r.DimHasModulo(0) && !r.DimHasModulo(1); }
    var st := SwappedColumn(l, r);
    SwappedColumnValue(st, w);
  }

  lemma SwappedColumnValue(st: PState, w: World)
    requires st.Valid() && st.source.None? && st.offsets == [V(ConstV(1)), Attr(0)] && st.strides == [Attr(1), Attr(0)]
    requires st.shape == [Attr(0), V(ConstV(2))]
    ensures Denote(st, w, [3, 0]) == 4
  {
    SumOfTwo(Terms(st, w, [3, 0]));
    assert Eval(ConstV(1), w) == 1;
  }

  lemma WrappedPlusOne(w: World)
    ensures WellTyped(Add(WRAPPED, ConstSplat(1, [4, 1]))) && EvalX(Add(WRAPPED, ConstSplat(1, [4, 1])), w, [3, 0]) == 2
  {
    var wrapped := Rem(Range(0, 4), ConstSplat(2, [4]));
    assert Remove([3, 0], 1) == [3];
    assert EvalX(wrapped, w, [3]) == TruncRem(3, 2) == 1;
    assert EvalX(WRAPPED, w, [3, 0]) == EvalX(wrapped, w, Remove([3, 0], 1));
    assert WellTyped(wrapped) && ShapeOf(wrapped) == [4];
    assert ShapeOf(WRAPPED) == Insert([4], 1, 1) == [4, 1];
  }

  lemma SwappedColumn(l: PState, r: PState) returns (st: PState)
    requires IsColumn(l, V(ConstV(2))) && r == ConstSplatState(1, [4, 1]) && !r.HasModulo()
    ensures AddOperands(WRAPPED, ConstSplat(1, [4, 1]), l, r, PLAIN) == Some(st)
    ensures st.Valid() && st.source.None? && st.offsets == [V(ConstV(1)), Attr(0)] && st.strides == [Attr(1), Attr(0)]
    ensures st.shape == [Attr(0), V(ConstV(2))]
  {
    assert AddShapes(l, r, 0) == Some([Attr(0), V(ConstV(2))]) by { assert l.DimHasModulo(0); }
    st := AddOperands(WRAPPED, ConstSplat(1, [4, 1]), l, r, PLAIN).value;
  }
}
