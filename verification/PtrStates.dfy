/**
 Pointer states as values, and what visitOperand computes for each operation
 (lib/AnalysisStructured/PtrAnalysis.cpp). The class in PtrAnalysis.dfy builds the same states by
 pushing onto its fields; the theorems in PtrSoundness.dfy are about the functions here.
 */
module PtrStates {
  import opened Wrappers
  import opened Ir
  import opened Folding

  datatype PState = PState(
    source: Option<nat>,        // base pointer
    scalar: Option<Val>,
    offsets: seq<OFR>,
    sizes: seq<nat>,
    strides: seq<OFR>,
    shape: seq<OFR>,            // wrap-around bound of each dimension, Attr(0) for none
    origiOffsets: seq<OFR>)
  {
    function Rank(): nat { |offsets| }

    predicate Valid() {
      |offsets| == |sizes| == |strides| == |shape|
    }

    predicate DimHasModulo(i: nat)
      requires Valid() && i < Rank()
    {
      shape[i] != Attr(0)
    }

    predicate HasModulo()
      requires Valid()
    {
      exists i :: 0 <= i < Rank() && DimHasModulo(i)
    }

    predicate Structured() {
      forall i :: 0 <= i < Rank() ==> !offsets[i].T?
    }

    /** The first gathered dimension (there is never more than one). */
    function NonStructuredDim(): (d: nat)
      requires !Structured()
      ensures d < Rank() && offsets[d].T?
      ensures forall i :: 0 <= i < d ==> !offsets[i].T?
    {
      FirstGathered(offsets)
    }
  }

  function FirstGathered(offsets: seq<OFR>): (d: nat)
    requires exists i :: 0 <= i < |offsets| && offsets[i].T?
    ensures d < |offsets| && offsets[d].T?
    ensures forall i :: 0 <= i < d ==> !offsets[i].T?
  {
    if offsets[0].T? then 0
    else
      var i :| 0 <= i < |offsets| && offsets[i].T?;
      assert offsets[1..][i - 1].T?;
      1 + FirstGathered(offsets[1..])
  }

  const EMPTY := PState(None, None, [], [], [], [], [])

  /** enableMakeGatherScatterTensorPtr and isAnalysisingUnstructured. */
  datatype Config = Config(gather: bool, unstructured: bool)

  type Known = map<Expr, PState>

  // ------------------------------------------------------------------
  // Gathered dimensions
  // ------------------------------------------------------------------

  predicate SingleDim(shape: seq<nat>, d: nat) {
    d < |shape| && shape[d] > 1 && forall j :: 0 <= j < |shape| && j != d ==> shape[j] <= 1
  }

  predicate IsNotSingleDim(shape: seq<nat>) {
    !exists d :: 0 <= d < |shape| && SingleDim(shape, d)
  }

  function Repeat(o: OFR, n: nat): (s: seq<OFR>)
    ensures |s| == n && forall i :: 0 <= i < n ==> s[i] == o
  {
    seq(n, i => o)
  }

  function RebuildAsUnsupportedOp(e: Expr): (res: Option<PState>)
    ensures res.Some? ==> res.value.Valid()
  {
    var dims := ShapeOf(e);
    if IsNotSingleDim(dims) || IsPtr(e) then None
    else Some(PState(None, None,
                     seq(|dims|, i requires 0 <= i < |dims| => if dims[i] == 1 then Attr(0) else T(Orig(e))),
                     dims,
                     seq(|dims|, i requires 0 <= i < |dims| => if dims[i] == 1 then Attr(0) else Attr(1)),
                     Repeat(Attr(0), |dims|), []))
  }

  function RebuildAsGatherScatter(st: PState, e: Expr, d: nat): (res: Option<PState>)
    requires st.Valid()
    ensures res.Some? ==> res.value.Valid()
  {
    var dims := ShapeOf(e);
    if IsNotSingleDim(dims) || d >= st.Rank() || d >= |dims| || dims[d] <= 1 then None
    else Some(st.(offsets := st.offsets[d := T(Orig(e))],
                  strides := st.strides[d := Attr(1)],
                  shape := st.shape[d := Attr(0)]))
  }

  // ------------------------------------------------------------------
  // addState
  // ------------------------------------------------------------------

  function MergeSameStride(lo: OFR, ro: OFR, leftGathered: bool, stride: OFR): (OFR, OFR) {
    var l := if leftGathered then lo else ExpandTo(lo, ro);
    var r := if leftGathered then ExpandTo(ro, lo) else ro;
    (AddOFRs(l, r), stride)
  }

  /** The three ways to merge two scaled offsets; the flags are the code's tests for the same value. */
  function MergeScaled(lo: OFR, ls: OFR, ro: OFR, rs: OFR, sameOffset: bool, sameStride: bool): (OFR, OFR) {
    if !sameOffset && !sameStride then
      MergeSameStride(MulOFRs(lo, ExpandTo(ls, lo)), MulOFRs(ro, ExpandTo(rs, ro)), lo.T?, Attr(1))
    else if sameStride then
      MergeSameStride(lo, ro, lo.T?, ls)
    else
      (lo, AddOFRs(ls, rs))
  }

  /** A zero stride is replaced by one before offsets are scaled. */
  function UnitIfZero(stride: OFR): OFR {
    if HasConstZero(stride) then Attr(1) else stride
  }

  function MergeDim(lo: OFR, ls: OFR, ro: OFR, rs: OFR): (OFR, OFR) {
    if HasConstZero(ls) && HasConstZero(lo) then (ro, rs)
    else if HasConstZero(rs) && HasConstZero(ro) then (lo, ls)
    else
      var l, r := UnitIfZero(ls), UnitIfZero(rs);
      MergeScaled(lo, l, ro, r, lo == ro, l == r)
  }

  /** Offset and stride of one dimension of a sum. */
  function AddDim(lo: OFR, ls: OFR, ro: OFR, rs: OFR, unstructured: bool): (OFR, OFR) {
    if !lo.T? && !ro.T? then (AddOFRs(lo, ro), AddOFRs(ls, rs))
    else if unstructured then MergeDim(lo, ls, ro, rs)
    else (if lo.T? then lo else ro, Attr(1))
  }

  /** The wrap-around bounds of a sum from dimension i on; `a` is the operand that may have some. */
  function AddShapes(a: PState, b: PState, i: nat): (r: Option<seq<OFR>>)
    requires a.Valid() && b.Valid() && a.Rank() == b.Rank() && i <= a.Rank()
    ensures r.Some? ==> |r.value| == a.Rank() - i
    decreases a.Rank() - i
  {
    if i == a.Rank() then Some([])
    else if a.offsets[i].T? || b.offsets[i].T? then Prepend(Attr(0), AddShapes(a, b, i + 1))
    else if !a.DimHasModulo(i) || HasConstZero(b.offsets[i]) then Prepend(a.shape[i], AddShapes(a, b, i + 1))
    else if i == 0 && a.Rank() == 2 && b.scalar.Some? then Some([a.shape[1], a.shape[0]])
    else None
  }

  function Prepend(o: OFR, rest: Option<seq<OFR>>): Option<seq<OFR>> {
    if rest.Some? then Some([o] + rest.value) else None
  }

  function AddScalar(l: PState, r: PState): Option<Val> {
    if l.scalar.Some? && r.scalar.Some? then Some(AddI(l.scalar.value, r.scalar.value))
    else if l.Rank() == 0 then (if l.scalar.Some? then l.scalar else r.scalar)
    else None
  }

  predicate Addable(l: PState, r: PState)
    requires l.Valid() && r.Valid()
  {
    && l.Rank() == r.Rank()
    && !(l.source.Some? && r.source.Some?)
    && (!l.Structured() && !r.Structured() ==> l.NonStructuredDim() == r.NonStructuredDim())
    && !(l.HasModulo() && r.HasModulo())
  }

  function AddState(l: PState, r: PState, unstructured: bool): (st: Option<PState>)
    requires l.Valid() && r.Valid()
    ensures st.Some? ==> st.value.Valid()
  {
    if !Addable(l, r) then None
    else
      var n := l.Rank();
      var shapes := if r.HasModulo() then AddShapes(r, l, 0) else AddShapes(l, r, 0);
      if shapes.None? then None
      else Some(PState(
        if l.source.Some? then l.source else r.source,
        AddScalar(l, r),
        seq(n, i requires 0 <= i < n => AddDim(l.offsets[i], l.strides[i], r.offsets[i], r.strides[i], unstructured).0),
        l.sizes,
        seq(n, i requires 0 <= i < n => AddDim(l.offsets[i], l.strides[i], r.offsets[i], r.strides[i], unstructured).1),
        shapes.value, []))
  }

  // ------------------------------------------------------------------
  // mulState, subtraction, remainder
  // ------------------------------------------------------------------

  /** Offset, stride and bound of one dimension of a product with a scalar. */
  function MulDim(o: OFR, s: OFR, sh: OFR, factor: Val, unstructured: bool): (OFR, OFR, OFR) {
    if !o.T? then (MulOFRs(o, V(factor)), MulOFRs(s, V(factor)), MulOFRs(sh, V(factor)))
    else (o, if unstructured then MulOFRs(s, V(factor)) else s, Attr(0))
  }

  function MulState(l: PState, r: PState, unstructured: bool): (res: Option<PState>)
    requires l.Valid() && r.Valid()
    ensures res.Some? ==> res.value.Valid()
  {
    if l.Rank() != r.Rank() || (l.source.Some? && r.source.Some?) || (l.scalar.None? && r.scalar.None?) then None
    else
      var (a, b) := if r.scalar.None? then (r, l) else (l, r);
      if b.HasModulo() then None
      else
        var n := a.Rank();
        Some(PState(
          None,
          if l.scalar.Some? && r.scalar.Some? then Some(MulI(l.scalar.value, r.scalar.value)) else None,
          seq(n, i requires 0 <= i < n =>
                MulDim(a.offsets[i], a.strides[i], a.shape[i], b.scalar.value, unstructured).0),
          a.sizes,
          seq(n, i requires 0 <= i < n =>
                MulDim(a.offsets[i], a.strides[i], a.shape[i], b.scalar.value, unstructured).1),
          seq(n, i requires 0 <= i < n =>
                MulDim(a.offsets[i], a.strides[i], a.shape[i], b.scalar.value, unstructured).2),
          []))
  }

  /** The state of -r that visitOperandSub adds; the source is not copied. */
  function NegState(r: PState): (res: PState)
    requires r.Valid()
    ensures res.Valid()
  {
    var n := r.Rank();
    PState(None,
           if r.scalar.Some? then Some(SubI(ConstV(0), r.scalar.value)) else None,
           seq(n, i requires 0 <= i < n => SubOFRs(Attr(0), r.offsets[i])),
           r.sizes,
           seq(n, i requires 0 <= i < n => SubOFRs(Attr(0), r.strides[i])),
           r.shape, [])
  }

  /** A modulo kept as the bound of dimension d, or gathered when that is enabled and possible. */
  function RemDim(st: PState, m: Val, e: Expr, d: nat, c: Config): (res: PState)
    requires st.Valid() && d < st.Rank()
    ensures res.Valid()
  {
    var g := if c.gather then RebuildAsGatherScatter(st, e, d) else None;
    if g.Some? then g.value.(origiOffsets := g.value.offsets)
    else st.(shape := st.shape[d := V(m)], origiOffsets := st.offsets)
  }

  function RemState(st: PState, m: Val, e: Expr, c: Config): (res: Option<PState>)
    requires st.Valid()
    ensures res.Some? ==> res.value.Valid()
  {
    var dims := ShapeOf(e);
    if !st.Structured() then RebuildAsGatherScatter(st, e, st.NonStructuredDim())
    else if st.HasModulo() then
      if st.Rank() == 1 && c.gather then RebuildAsGatherScatter(st, e, 0) else None
    else if st.Rank() == 1 then Some(RemDim(st, m, e, 0, c))
    else if st.Rank() == 2 && |dims| == 2 && dims[0] == 1 then Some(RemDim(st, m, e, 1, c))
    else if st.Rank() == 2 && |dims| == 2 && dims[1] == 1 then Some(RemDim(st, m, e, 0, c))
    else None
  }

  /** Before a sum or product with a gathered operand, a modulo on the other side is gathered too. */
  function GatherModulo(own: PState, e: Expr, other: PState, c: Config): (res: Option<PState>)
    requires own.Valid() && other.Valid()
    ensures res.Some? ==> res.value.Valid()
  {
    if other.Structured() || !own.HasModulo() then Some(own)
    else if !c.gather then None
    else RebuildAsGatherScatter(own, e, other.NonStructuredDim())
  }

  /** Both operands of a sum or product, the one that wraps around gathered if the other is. */
  function GatherBoth(l: Expr, r: Expr, ls: PState, rs: PState, c: Config): (res: Option<(PState, PState)>)
    requires ls.Valid() && rs.Valid()
    ensures res.Some? ==> res.value.0.Valid() && res.value.1.Valid()
  {
    var rs' := GatherModulo(rs, r, ls, c);
    var ls' := if !ls.Structured() && rs.HasModulo() then Some(ls) else GatherModulo(ls, l, rs, c);
    if ls'.None? || rs'.None? then None else Some((ls'.value, rs'.value))
  }

  // ------------------------------------------------------------------
  // Shape operations
  // ------------------------------------------------------------------

  function SplatState(st: PState, dims: seq<nat>): (res: Option<PState>)
    requires st.Valid()
    ensures res.Some? ==> res.value.Valid()
  {
    var offs := st.offsets + Repeat(Attr(0), |dims|);
    var offsets := if st.scalar.Some? && |offs| > 0 then offs[0 := V(st.scalar.value)] else offs;
    var r := PState(st.source, st.scalar, offsets, st.sizes + dims, st.strides + Repeat(Attr(0), |dims|),
                    st.shape + Repeat(Attr(0), |dims|), offsets);
    if r.HasModulo() && r.Rank() > 2 then None else Some(r)
  }

  function ConstSplatState(c: int, dims: seq<nat>): (res: PState)
    ensures res.Valid()
  {
    var offs := seq(|dims|, i => if i == 0 then V(ConstV(c)) else Attr(0));
    PState(None, Some(ConstV(c)), offs, dims, Repeat(Attr(0), |dims|), Repeat(Attr(0), |dims|), offs)
  }

  function RangeState(start: int, end: int): (res: PState)
    ensures res.Valid()
  {
    PState(None, None, [Attr(start)], ShapeOf(Range(start, end)), [Attr(1)], [Attr(0)], [Attr(start)])
  }

  function ExpandState(st: PState, axis: nat): (res: Option<PState>)
    requires st.Valid()
    ensures res.Some? ==> res.value.Valid()
  {
    var r := st.(offsets := Insert(st.offsets, axis, Attr(0)),
                 origiOffsets := Insert(st.offsets, axis, Attr(0)),
                 sizes := Insert(st.sizes, axis, 1),
                 strides := Insert(st.strides, axis, Attr(0)),
                 shape := Insert(st.shape, axis, Attr(0)));
    if r.HasModulo() && r.Rank() > 2 then None else Some(r)
  }

  function BroadcastState(st: PState, src: seq<nat>, dst: seq<nat>): (res: PState)
    requires st.Valid()
    ensures res.Valid()
  {
    var n := |st.sizes|;
    st.(sizes := seq(n, i requires 0 <= i < n =>
                   if i < |src| && i < |dst| && src[i] < dst[i] then dst[i] else st.sizes[i]),
        origiOffsets := st.offsets)
  }

  // ------------------------------------------------------------------
  // visitOperand
  // ------------------------------------------------------------------

  predicate KnownValid(known: Known) {
    forall e :: e in known ==> known[e].Valid()
  }

  /**
   While offsets are gathered the record is not used, except for tensors of indices that a loop carries. A
   carried tensor of pointers is then taken for a scalar source, which no tensor offset can be added to.
   */
  function Visit(e: Expr, c: Config, known: Known): (r: Option<PState>)
    requires KnownValid(known)
    ensures r.Some? ==> r.value.Valid()
  {
    if !c.unstructured && e in known then Some(known[e])
    else
      match e
      case IntScalar(v) => Some(EMPTY.(scalar := Some(IndexCast(v))))
      case PtrArg(id) => Some(EMPTY.(source := Some(id)))
      case Range(s, t) => Some(RangeState(s, t))
      case Splat(src, d) =>
        var st := Visit(src, c, known);
        if st.None? then None else SplatState(st.value, d)
      case ConstSplat(n, d) => Some(ConstSplatState(n, d))
      case ExpandDims(src, axis) =>
        var st := Visit(src, c, known);
        if st.None? then None else ExpandState(st.value, axis)
      case Broadcast(src, d) =>
        var st := Visit(src, c, known);
        if st.None? then None else Some(BroadcastState(st.value, ShapeOf(src), d))
      case Add(l, r) =>
        var ls, rs := Visit(l, c, known), Visit(r, c, known);
        if ls.None? || rs.None? then None else AddOperands(l, r, ls.value, rs.value, c)
      case Sub(l, r) =>
        var ls, rs := Visit(l, c, known), Visit(r, c, known);
        if ls.None? || rs.None? then None
        else WithOffsets(AddState(ls.value, NegState(rs.value), c.unstructured))
      case Mul(l, r) =>
        var ls, rs := Visit(l, c, known), Visit(r, c, known);
        if ls.None? || rs.None? then None else MulOperands(l, r, ls.value, rs.value, c)
      case Rem(l, r) =>
        if c.unstructured then RebuildAsUnsupportedOp(e)
        else
          var rs := Visit(r, c, known);
          if rs.None? || rs.value.scalar.None? then None
          else
            var ls := Visit(l, c, known);
            if ls.None? then None else RemState(ls.value, rs.value.scalar.value, e, c)
      case ExtSI(src) => Visit(src, c, known)
      case AddPtr(p, off) =>
        var ps, os := Visit(p, c, known), Visit(off, c, known);
        if ps.None? || os.None? then None else AddPtrOperands(ps.value, os.value, c)
      case IterArg(_, _, p) => if e in known && !(c.unstructured && p) then Some(known[e]) else None
      case Other(_, _) => if c.gather then RebuildAsUnsupportedOp(e) else None
  }

  function WithOffsets(st: Option<PState>): (r: Option<PState>)
    ensures st.Some? && st.value.Valid() ==> r.Some? && r.value.Valid()
  {
    if st.Some? then Some(st.value.(origiOffsets := st.value.offsets)) else None
  }

  /** A pointer keeps the offsets of its base as the original ones. */
  function AddPtrOperands(ps: PState, os: PState, c: Config): (res: Option<PState>)
    requires ps.Valid() && os.Valid()
    ensures res.Some? ==> res.value.Valid()
  {
    var st := AddState(ps, os, c.unstructured);
    if st.None? then None else Some(st.value.(origiOffsets := ps.offsets))
  }

  function AddOperands(l: Expr, r: Expr, ls: PState, rs: PState, c: Config): (res: Option<PState>)
    requires ls.Valid() && rs.Valid()
    ensures res.Some? ==> res.value.Valid()
  {
    if (ls.Rank() == 1 && ls.HasModulo()) || (rs.Rank() == 1 && rs.HasModulo()) then None
    else SumOperands(l, r, ls, rs, c)
  }

  function SumOperands(l: Expr, r: Expr, ls: PState, rs: PState, c: Config): (res: Option<PState>)
    requires ls.Valid() && rs.Valid()
    ensures res.Some? ==> res.value.Valid()
  {
    var both := GatherBoth(l, r, ls, rs, c);
    if both.None? then None else WithOffsets(AddState(both.value.0, both.value.1, c.unstructured))
  }

  function MulOperands(l: Expr, r: Expr, ls: PState, rs: PState, c: Config): (res: Option<PState>)
    requires ls.Valid() && rs.Valid()
    ensures res.Some? ==> res.value.Valid()
  {
    var both := GatherBoth(l, r, ls, rs, c);
    if both.None? then None else WithOffsets(MulState(both.value.0, both.value.1, c.unstructured))
  }
}
