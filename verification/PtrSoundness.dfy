/**
 Pointer analysis is sound: the state that visitOperand returns denotes, at every multi-index, the
 address or index the original expression computes (lib/AnalysisStructured/PtrAnalysis.cpp).
 */
module PtrSoundness {
  import opened Wrappers
  import opened Ir
  import opened Folding
  import opened PtrStates
  import Arith

  // ------------------------------------------------------------------
  // One step of the walk, from the states of the operands
  // ------------------------------------------------------------------

  lemma SumVisit(le: Expr, re: Expr, l: PState, r: PState, c: Config, known: Known)
    requires KnownValid(known) && Add(le, re) !in known && l.Valid() && r.Valid()
    requires Visit(le, c, known) == Some(l) && Visit(re, c, known) == Some(r)
    ensures Visit(Add(le, re), c, known) == AddOperands(le, re, l, r, c)
  {
  }

  lemma AddressVisit(pe: Expr, oe: Expr, p: PState, off: PState, c: Config, known: Known)
    requires KnownValid(known) && AddPtr(pe, oe) !in known && p.Valid() && off.Valid()
    requires Visit(pe, c, known) == Some(p) && Visit(oe, c, known) == Some(off)
    ensures Visit(AddPtr(pe, oe), c, known) == AddPtrOperands(p, off, c)
  {
  }

  lemma DifferenceVisit(le: Expr, re: Expr, l: PState, r: PState, c: Config, known: Known)
    requires KnownValid(known) && Sub(le, re) !in known && l.Valid() && r.Valid()
    requires Visit(le, c, known) == Some(l) && Visit(re, c, known) == Some(r)
    ensures Visit(Sub(le, re), c, known) == WithOffsets(AddState(l, NegState(r), c.unstructured))
  {
  }

  lemma ExpandVisit(e: Expr, axis: nat, st: PState, c: Config, known: Known)
    requires KnownValid(known) && ExpandDims(e, axis) !in known && st.Valid() && Visit(e, c, known) == Some(st)
    ensures Visit(ExpandDims(e, axis), c, known) == ExpandState(st, axis)
  {
  }

  lemma BroadcastVisit(e: Expr, dims: seq<nat>, st: PState, c: Config, known: Known)
    requires KnownValid(known) && Broadcast(e, dims) !in known && st.Valid() && Visit(e, c, known) == Some(st)
    ensures Visit(Broadcast(e, dims), c, known) == Some(BroadcastState(st, ShapeOf(e), dims))
  {
  }

  // ------------------------------------------------------------------
  // What a state means
  // ------------------------------------------------------------------

  function Sum(s: seq<int>): int {
    if s == [] then 0 else s[0] + Sum(s[1..])
  }

  /** One dimension: a gathered offset is scaled, a structured one is affine and may wrap around. */
  function DimVal(o: OFR, s: OFR, bound: OFR, w: World, k: nat): int {
    if o.T? then EvalAt(o, w, k) * EvalO(s, w) else Bound(bound, EvalO(o, w) + k * EvalO(s, w), w)
  }

  function Bound(bound: OFR, linear: int, w: World): int {
    if bound == Attr(0) then linear else TruncRem(linear, EvalO(bound, w))
  }

  function TermAt(st: PState, i: nat, w: World, k: nat): int
    requires st.Valid() && i < st.Rank()
  {
    DimVal(st.offsets[i], st.strides[i], st.shape[i], w, k)
  }

  function Terms(st: PState, w: World, x: seq<nat>): (t: seq<int>)
    requires st.Valid() && |x| == st.Rank()
    ensures |t| == st.Rank()
    ensures forall i :: 0 <= i < |t| ==> t[i] == TermAt(st, i, w, x[i])
  {
    seq(|x|, i requires 0 <= i < |x| => TermAt(st, i, w, x[i]))
  }

  function BaseVal(st: PState, w: World): int {
    if st.source.Some? then w.ptr(st.source.value) else 0
  }

  function Denote(st: PState, w: World, x: seq<nat>): int
    requires st.Valid() && |x| == st.Rank()
  {
    BaseVal(st, w) +
    if st.Rank() == 0 then (if st.scalar.Some? then Eval(st.scalar.value, w) else 0) else Sum(Terms(st, w, x))
  }

  /** A unit dimension is structured and does not move; no stride is a tensor. */
  ghost predicate UnitStride(st: PState, w: World)
    requires st.Valid()
  {
    forall i :: 0 <= i < st.Rank() ==>
      !st.strides[i].T? && (st.sizes[i] == 1 ==> !st.offsets[i].T? && EvalO(st.strides[i], w) == 0)
  }

  ghost predicate Shaped(e: Expr, st: PState, w: World) {
    st.Valid() && st.sizes == ShapeOf(e) && UnitStride(st, w) && (st.source.Some? ==> IsPtr(e))
  }

  ghost predicate Denotes(e: Expr, st: PState, w: World)
    requires Shaped(e, st, w)
  {
    forall x :: InBounds(x, ShapeOf(e)) ==> EvalX(e, w, x) == Denote(st, w, x)
  }

  /** A state that carries a scalar stands for a constant tensor. */
  ghost predicate ScalarSound(e: Expr, st: PState, w: World) {
    st.scalar.Some? ==>
      forall x :: InBounds(x, ShapeOf(e)) ==> EvalX(e, w, x) == BaseVal(st, w) + Eval(st.scalar.value, w)
  }

  // ------------------------------------------------------------------
  // Sums of terms
  // ------------------------------------------------------------------

  lemma {:induction false} SumAdd(a: seq<int>, b: seq<int>, c: seq<int>)
    requires |a| == |b| == |c| && forall i :: 0 <= i < |c| ==> c[i] == a[i] + b[i]
    ensures Sum(c) == Sum(a) + Sum(b)
  {
    if c != [] { SumAdd(a[1..], b[1..], c[1..]); }
  }

  lemma {:induction false} SumScale(a: seq<int>, c: seq<int>, f: int)
    requires |a| == |c| && forall i :: 0 <= i < |c| ==> c[i] == a[i] * f
    ensures Sum(c) == Sum(a) * f
  {
    if c != [] {
      SumScale(a[1..], c[1..], f);
      assert Sum(c) == a[0] * f + Sum(a[1..]) * f;
    }
  }

  lemma {:induction false} SumOne(a: seq<int>, d: nat)
    requires d < |a| && forall i :: 0 <= i < |a| && i != d ==> a[i] == 0
    ensures Sum(a) == a[d]
  {
    if d > 0 {
      SumOne(a[1..], d - 1);
    } else {
      SumZero(a[1..]);
    }
  }

  lemma {:induction false} SumZero(a: seq<int>)
    requires forall i :: 0 <= i < |a| ==> a[i] == 0
    ensures Sum(a) == 0
  {
    if a != [] { SumZero(a[1..]); }
  }

  lemma {:induction false} SumInsertZero(a: seq<int>, axis: nat)
    requires axis <= |a|
    ensures Sum(Insert(a, axis, 0)) == Sum(a)
  {
    if axis == 0 {
      assert Insert(a, 0, 0)[1..] == a;
    } else {
      SumInsertZero(a[1..], axis - 1);
      assert Insert(a, axis, 0)[1..] == Insert(a[1..], axis - 1, 0);
    }
  }

  // ------------------------------------------------------------------
  // Sums of states
  // ------------------------------------------------------------------

  /** An operand of a gathered dimension: a tensor with a live stride, or an offset that does not move. */
  predicate GatherSide(o: OFR, s: OFR, bound: OFR) {
    !s.T? && if o.T? then !HasConstZero(s) else HasConstZero(s) && bound == Attr(0)
  }

  /**
   When the sum of two dimensions is exact. Where one operand wraps around the other must not move it:
   a constant zero offset and a zero stride. Where one is gathered the other must not have a stride.
   */
  ghost predicate DimAddable(lo: OFR, ls: OFR, lb: OFR, ro: OFR, rs: OFR, rb: OFR, unstructured: bool, w: World) {
    if !lo.T? && !ro.T? then
      && (lb != Attr(0) ==> HasConstZero(ro) && EvalO(rs, w) == 0)
      && (rb != Attr(0) ==> HasConstZero(lo) && EvalO(ls, w) == 0)
    else unstructured ==> GatherSide(lo, ls, lb) && GatherSide(ro, rs, rb)
  }

  ghost predicate AddGuard(l: PState, r: PState, unstructured: bool, w: World)
    requires l.Valid() && r.Valid()
  {
    l.Rank() == r.Rank() ==>
      forall i :: 0 <= i < l.Rank() ==>
        DimAddable(l.offsets[i], l.strides[i], l.shape[i], r.offsets[i], r.strides[i], r.shape[i], unstructured, w)
  }

  lemma ConstZeroValue(o: OFR, w: World, k: nat)
    requires HasConstZero(o)
    ensures EvalAt(o, w, k) == 0
  {
  }

  /** Whichever branch the two tests choose, the merged dimension is the sum of the scaled offsets. */
  lemma MergeScaledValue(lo: OFR, ls: OFR, ro: OFR, rs: OFR, sameOffset: bool, sameStride: bool, w: World, k: nat)
    requires lo.T? || ro.T?
    requires !ls.T? && !rs.T?
    requires sameOffset ==> lo == ro
    requires sameStride ==> ls == rs
    ensures var (o, s) := MergeScaled(lo, ls, ro, rs, sameOffset, sameStride);
            o.T? && !s.T? && EvalAt(o, w, k) * EvalO(s, w)
                          == EvalAt(lo, w, k) * EvalO(ls, w) + EvalAt(ro, w, k) * EvalO(rs, w)
  {
    if !sameOffset && !sameStride {
      var l, r := MulOFRs(lo, ExpandTo(ls, lo)), MulOFRs(ro, ExpandTo(rs, ro));
      MulValue(lo, ExpandTo(ls, lo), w, k);
      MulValue(ro, ExpandTo(rs, ro), w, k);
      OperandValue(ls, w, k);
      OperandValue(rs, w, k);
      assert lo.T? ==> l.T?;
      assert ro.T? ==> r.T?;
      SameStrideValue(l, r, lo.T?, Attr(1), w, k);
    } else if sameStride {
      SameStrideValue(lo, ro, lo.T?, ls, w, k);
    } else {
      AddValue(ls, rs, w, 0);
    }
  }

  lemma SameStrideValue(lo: OFR, ro: OFR, leftGathered: bool, s: OFR, w: World, k: nat)
    requires lo.T? || ro.T?
    requires leftGathered == lo.T?
    ensures var m := MergeSameStride(lo, ro, leftGathered, s);
            m.0.T? && m.1 == s &&
            EvalAt(m.0, w, k) * EvalO(s, w) == EvalAt(lo, w, k) * EvalO(s, w) + EvalAt(ro, w, k) * EvalO(s, w)
  {
    var l := if leftGathered then lo else ExpandTo(lo, ro);
    var r := if leftGathered then ExpandTo(ro, lo) else ro;
    OperandValue(lo, w, k);
    OperandValue(ro, w, k);
    AddValue(l, r, w, k);
  }

  /** An operand of a gathered sum is its scaled offset; a constant zero offset adds nothing. */
  lemma GatherSideValue(o: OFR, s: OFR, w: World, k: nat)
    requires GatherSide(o, s, Attr(0))
    ensures DimVal(o, s, Attr(0), w, k) == EvalAt(o, w, k) * EvalO(UnitIfZero(s), w)
    ensures HasConstZero(o) ==> DimVal(o, s, Attr(0), w, k) == 0
    ensures !UnitIfZero(s).T?
  {
    if !o.T? {
      ConstZeroValue(s, w, 0);
      OperandValue(o, w, k);
    }
  }

  /** The gathered sum: a zero operand, equal strides, equal offsets, or neither. */
  lemma MergeDimValue(lo: OFR, ls: OFR, ro: OFR, rs: OFR, w: World, k: nat)
    requires lo.T? || ro.T?
    requires GatherSide(lo, ls, Attr(0)) && GatherSide(ro, rs, Attr(0))
    ensures var (o, s) := MergeDim(lo, ls, ro, rs);
            o.T? && !s.T? &&
            DimVal(o, s, Attr(0), w, k) == DimVal(lo, ls, Attr(0), w, k) + DimVal(ro, rs, Attr(0), w, k)
  {
    GatherSideValue(lo, ls, w, k);
    GatherSideValue(ro, rs, w, k);
    if (!HasConstZero(ls) || !HasConstZero(lo)) && (!HasConstZero(rs) || !HasConstZero(ro)) {
      var l, r := UnitIfZero(ls), UnitIfZero(rs);
      MergeScaledValue(lo, l, ro, r, lo == ro, l == r, w, k);
    }
  }

  /** One dimension of a sum, wrapped or not. */
  lemma AddDimValue(lo: OFR, ls: OFR, lb: OFR, ro: OFR, rs: OFR, rb: OFR, bound: OFR, u: bool, w: World, k: nat)
    requires !ls.T? && !rs.T?
    requires lb == Attr(0) || rb == Attr(0)
    requires DimAddable(lo, ls, lb, ro, rs, rb, u, w)
    requires lo.T? || ro.T? ==> u
    requires !lo.T? && !ro.T? ==> bound == if rb == Attr(0) then lb else rb
    ensures var (o, s) := AddDim(lo, ls, ro, rs, u);
            DimVal(o, s, bound, w, k) == DimVal(lo, ls, lb, w, k) + DimVal(ro, rs, rb, w, k)
  {
    if lo.T? || ro.T? {
      MergeDimValue(lo, ls, ro, rs, w, k);
    } else {
      AddValue(lo, ro, w, 0);
      AddValue(ls, rs, w, 0);
      if lb != Attr(0) { ConstZeroValue(ro, w, 0); }
      if rb != Attr(0) { ConstZeroValue(lo, w, 0); }
      assert k * (EvalO(ls, w) + EvalO(rs, w)) == k * EvalO(ls, w) + k * EvalO(rs, w);
    }
  }

  /** The bounds of a sum are those of the wrapping operand, unless the code swaps them. */
  lemma {:induction false} AddShapesAt(a: PState, b: PState, i: nat, j: nat)
    requires a.Valid() && b.Valid() && a.Rank() == b.Rank()
    requires i <= j < a.Rank()
    requires AddShapes(a, b, i).Some?
    requires forall d :: 0 <= d < a.Rank() && a.DimHasModulo(d) && !a.offsets[d].T? && !b.offsets[d].T? ==>
               HasConstZero(b.offsets[d])
    ensures AddShapes(a, b, i).value[j - i]
         == if a.offsets[j].T? || b.offsets[j].T? then Attr(0) else a.shape[j]
    decreases j - i
  {
    if i < j { AddShapesAt(a, b, i + 1, j); }
  }

  lemma AddStateTerms(l: PState, r: PState, u: bool, w: World, i: nat, k: nat)
    requires l.Valid() && r.Valid() && UnitStride(l, w) && UnitStride(r, w)
    requires AddState(l, r, u).Some? && AddGuard(l, r, u, w)
    requires u || AddState(l, r, u).value.Structured()
    requires i < l.Rank()
    ensures TermAt(AddState(l, r, u).value, i, w, k) == TermAt(l, i, w, k) + TermAt(r, i, w, k)
  {
    var st := AddState(l, r, u).value;
    var (a, b) := if r.HasModulo() then (r, l) else (l, r);
    assert DimAddable(l.offsets[i], l.strides[i], l.shape[i], r.offsets[i], r.strides[i], r.shape[i], u, w);
    forall d | 0 <= d < a.Rank() && a.DimHasModulo(d) && !a.offsets[d].T? && !b.offsets[d].T?
      ensures HasConstZero(b.offsets[d])
    {
      assert DimAddable(l.offsets[d], l.strides[d], l.shape[d], r.offsets[d], r.strides[d], r.shape[d], u, w);
    }
    AddShapesAt(a, b, 0, i);
    assert !b.HasModulo();
    assert !b.DimHasModulo(i);
    assert st.offsets[i] == AddDim(l.offsets[i], l.strides[i], r.offsets[i], r.strides[i], u).0;
    AddDimValue(l.offsets[i], l.strides[i], l.shape[i], r.offsets[i], r.strides[i], r.shape[i],
                st.shape[i], u, w, k);
  }

  /** A successful addState denotes the sum of its operands at every index. */
  lemma AddStateDenotes(l: PState, r: PState, u: bool, w: World, x: seq<nat>)
    requires l.Valid() && r.Valid() && UnitStride(l, w) && UnitStride(r, w)
    requires AddState(l, r, u).Some? && AddGuard(l, r, u, w)
    requires u || AddState(l, r, u).value.Structured()
    requires |x| == l.Rank()
    ensures Denote(AddState(l, r, u).value, w, x) == Denote(l, w, x) + Denote(r, w, x)
  {
    var st := AddState(l, r, u).value;
    if l.Rank() > 0 {
      forall i | 0 <= i < l.Rank()
        ensures Terms(st, w, x)[i] == Terms(l, w, x)[i] + Terms(r, w, x)[i]
      {
        AddStateTerms(l, r, u, w, i, x[i]);
      }
      SumAdd(Terms(l, w, x), Terms(r, w, x), Terms(st, w, x));
    }
  }

  lemma AddStateUnitStride(l: PState, r: PState, u: bool, w: World)
    requires l.Valid() && r.Valid() && UnitStride(l, w) && UnitStride(r, w) && l.sizes == r.sizes
    requires AddState(l, r, u).Some?
    ensures UnitStride(AddState(l, r, u).value, w)
  {
    var st := AddState(l, r, u).value;
    forall i | 0 <= i < st.Rank()
      ensures !st.strides[i].T? && (st.sizes[i] == 1 ==> !st.offsets[i].T? && EvalO(st.strides[i], w) == 0)
    {
      AddDimStride(l.offsets[i], l.strides[i], r.offsets[i], r.strides[i], u, w);
    }
  }

  lemma AddDimStride(lo: OFR, ls: OFR, ro: OFR, rs: OFR, u: bool, w: World)
    requires !ls.T? && !rs.T?
    ensures !AddDim(lo, ls, ro, rs, u).1.T?
    ensures !lo.T? && !ro.T? ==>
              !AddDim(lo, ls, ro, rs, u).0.T? && EvalO(AddDim(lo, ls, ro, rs, u).1, w) == EvalO(ls, w) + EvalO(rs, w)
  {
    AddValue(lo, ro, w, 0);
    AddValue(ls, rs, w, 0);
  }

  // ------------------------------------------------------------------
  // Products, negation, remainder
  // ------------------------------------------------------------------

  /** The dimension-carrying operand and the scalar operand of a product. */
  function MulSides(l: PState, r: PState): (PState, PState) {
    if r.scalar.None? then (r, l) else (l, r)
  }

  /** A factor of zero makes the bound zero, but also what it bounds. */
  lemma MulDimValue(o: OFR, s: OFR, sh: OFR, v: Val, u: bool, w: World, k: nat)
    requires !s.T? && (o.T? ==> u)
    ensures var (o', s', sh') := MulDim(o, s, sh, v, u);
            DimVal(o', s', sh', w, k) == DimVal(o, s, sh, w, k) * Eval(v, w)
  {
    if o.T? {
      MulGatheredValue(o, s, v, w, k);
    } else {
      MulStructuredValue(o, s, sh, v, w, k);
    }
  }

  lemma MulStructuredValue(o: OFR, s: OFR, sh: OFR, v: Val, w: World, k: nat)
    requires !s.T? && !o.T?
    ensures DimVal(MulOFRs(o, V(v)), MulOFRs(s, V(v)), MulOFRs(sh, V(v)), w, k) == DimVal(o, s, sh, w, k) * Eval(v, w)
  {
    MulLinearValue(o, s, v, w, k);
    ScaledDim(o, s, sh, MulOFRs(o, V(v)), MulOFRs(s, V(v)), MulOFRs(sh, V(v)), v, w, k);
  }

  lemma ScaledDim(o: OFR, s: OFR, sh: OFR, o': OFR, s': OFR, sh': OFR, v: Val, w: World, k: nat)
    requires !o.T? && !o'.T? && sh' == MulOFRs(sh, V(v))
    requires EvalO(o', w) + k * EvalO(s', w) == (EvalO(o, w) + k * EvalO(s, w)) * Eval(v, w)
    ensures DimVal(o', s', sh', w, k) == DimVal(o, s, sh, w, k) * Eval(v, w)
  {
    ScaledBound(sh, v, EvalO(o, w) + k * EvalO(s, w), EvalO(o', w) + k * EvalO(s', w), w);
  }

  lemma ScaledBound(sh: OFR, v: Val, linear: int, scaled: int, w: World)
    requires scaled == linear * Eval(v, w)
    ensures Bound(MulOFRs(sh, V(v)), scaled, w) == Bound(sh, linear, w) * Eval(v, w)
  {
    MulBoundValue(sh, v, linear, w);
  }

  lemma MulGatheredValue(o: OFR, s: OFR, v: Val, w: World, k: nat)
    requires !s.T?
    ensures EvalAt(o, w, k) * EvalO(MulOFRs(s, V(v)), w) == (EvalAt(o, w, k) * EvalO(s, w)) * Eval(v, w)
  {
    MulValue(s, V(v), w, 0);
    ScaleProduct(EvalAt(o, w, k), EvalO(s, w), Eval(v, w));
  }

  /** A number under its bound, once both are multiplied. */
  lemma MulBoundValue(sh: OFR, v: Val, linear: int, w: World)
    ensures Bound(MulOFRs(sh, V(v)), linear * Eval(v, w), w) == Bound(sh, linear, w) * Eval(v, w)
  {
    if Eval(v, w) == 0 {
      assert TruncRem(0, EvalO(MulOFRs(sh, V(v)), w)) == 0;
    } else if sh != Attr(0) {
      MulValue(sh, V(v), w, 0);
      Arith.RemScales(linear, EvalO(sh, w), Eval(v, w));
      MulBoundKept(sh, v, w);
    }
  }

  lemma MulLinearValue(o: OFR, s: OFR, v: Val, w: World, k: nat)
    requires !s.T? && !o.T?
    ensures var (o', s') := (MulOFRs(o, V(v)), MulOFRs(s, V(v)));
            !o'.T? && EvalO(o', w) + k * EvalO(s', w) == (EvalO(o, w) + k * EvalO(s, w)) * Eval(v, w)
  {
    MulValue(o, V(v), w, 0);
    MulValue(s, V(v), w, 0);
    ScaleProduct(k, EvalO(s, w), Eval(v, w));
    ScaleSum(EvalO(o, w), k * EvalO(s, w), Eval(v, w));
  }

  lemma ScaleProduct(a: int, b: int, f: int)
    ensures a * (b * f) == (a * b) * f
  {
  }

  lemma ScaleSum(a: int, b: int, f: int)
    ensures (a + b) * f == a * f + b * f
  {
  }

  /** Scaling a bound by a non-zero factor leaves a bound: it is never the attribute that means none. */
  lemma MulBoundKept(sh: OFR, v: Val, w: World)
    requires sh != Attr(0) && Eval(v, w) != 0
    ensures MulOFRs(sh, V(v)) != Attr(0)
  {
    if sh.Attr? && MulConst(V(v)).Some? {
      OperandValue(V(v), w, 0);
    }
    if sh.V? && sh.v.ConstV? && v.ConstV? && sh.v.n != 0 {
      assert sh.v.n * v.n != 0;
    }
  }

  lemma MulStateDenotes(l: PState, r: PState, u: bool, w: World, x: seq<nat>)
    requires l.Valid() && r.Valid() && UnitStride(l, w) && UnitStride(r, w)
    requires MulState(l, r, u).Some?
    requires u || MulState(l, r, u).value.Structured()
    requires |x| == l.Rank() > 0
    ensures var (a, b) := MulSides(l, r);
            a.Rank() == |x| && (a.source.None? ==>
              Denote(MulState(l, r, u).value, w, x) == Denote(a, w, x) * Eval(b.scalar.value, w))
  {
    var st := MulState(l, r, u).value;
    var (a, b) := MulSides(l, r);
    var v := b.scalar.value;
    forall i | 0 <= i < a.Rank()
      ensures Terms(st, w, x)[i] == Terms(a, w, x)[i] * Eval(v, w)
    {
      assert st.offsets[i] == MulDim(a.offsets[i], a.strides[i], a.shape[i], v, u).0;
      MulDimValue(a.offsets[i], a.strides[i], a.shape[i], v, u, w, x[i]);
    }
    SumScale(Terms(a, w, x), Terms(st, w, x), Eval(v, w));
  }

  lemma MulStateUnitStride(l: PState, r: PState, u: bool, w: World)
    requires l.Valid() && r.Valid() && UnitStride(l, w) && UnitStride(r, w)
    requires MulState(l, r, u).Some?
    ensures UnitStride(MulState(l, r, u).value, w)
  {
    var st := MulState(l, r, u).value;
    var (a, b) := MulSides(l, r);
    forall i | 0 <= i < st.Rank()
      ensures !st.strides[i].T? && (st.sizes[i] == 1 ==> !st.offsets[i].T? && EvalO(st.strides[i], w) == 0)
    {
      MulDimStride(a.offsets[i], a.strides[i], a.shape[i], b.scalar.value, u, w);
      assert st.offsets[i] == MulDim(a.offsets[i], a.strides[i], a.shape[i], b.scalar.value, u).0;
      assert st.strides[i] == MulDim(a.offsets[i], a.strides[i], a.shape[i], b.scalar.value, u).1;
    }
  }

  lemma MulDimStride(o: OFR, s: OFR, sh: OFR, v: Val, u: bool, w: World)
    requires !s.T?
    ensures !MulDim(o, s, sh, v, u).1.T? && (MulDim(o, s, sh, v, u).0.T? <==> o.T?)
    ensures !o.T? && EvalO(s, w) == 0 ==> EvalO(MulDim(o, s, sh, v, u).1, w) == 0
  {
    MulValue(s, V(v), w, 0);
    MulValue(o, V(v), w, 0);
    if EvalO(s, w) == 0 { assert EvalO(s, w) * Eval(v, w) == 0; }
  }

  /** Negating a structured dimension negates its value, wrapped or not. */
  lemma NegDimValue(o: OFR, s: OFR, bound: OFR, w: World, k: nat)
    requires !o.T? && !s.T?
    ensures DimVal(SubOFRs(Attr(0), o), SubOFRs(Attr(0), s), bound, w, k) == -DimVal(o, s, bound, w, k)
  {
    SubValue(Attr(0), o, w, 0);
    SubValue(Attr(0), s, w, 0);
    var linear := EvalO(o, w) + k * EvalO(s, w);
    assert k * (-EvalO(s, w)) == -(k * EvalO(s, w));
    Arith.RemNegates(linear, EvalO(bound, w));
  }

  lemma NegStateDenotes(r: PState, w: World, x: seq<nat>)
    requires r.Valid() && UnitStride(r, w) && r.Structured() && r.source.None? && |x| == r.Rank()
    ensures Denote(NegState(r), w, x) == -Denote(r, w, x)
  {
    var st := NegState(r);
    forall i | 0 <= i < r.Rank()
      ensures Terms(st, w, x)[i] == Terms(r, w, x)[i] * -1
    {
      NegDimValue(r.offsets[i], r.strides[i], r.shape[i], w, x[i]);
    }
    SumScale(Terms(r, w, x), Terms(st, w, x), -1);
    if r.scalar.Some? { assert Eval(ConstV(0), w) == 0; }
  }

  lemma NegStateUnitStride(r: PState, w: World)
    requires r.Valid() && UnitStride(r, w)
    ensures UnitStride(NegState(r), w) && (r.Structured() <==> NegState(r).Structured())
  {
    var st := NegState(r);
    forall i | 0 <= i < r.Rank()
      ensures !st.strides[i].T? && (st.offsets[i].T? <==> r.offsets[i].T?)
      ensures EvalO(st.strides[i], w) == -EvalO(r.strides[i], w)
    {
      SubValue(Attr(0), r.offsets[i], w, 0);
      SubValue(Attr(0), r.strides[i], w, 0);
    }
  }

  /** The dimension that receives a modulo. */
  function RemDimension(st: PState, e: Expr): nat {
    if st.Rank() == 2 && |ShapeOf(e)| == 2 && ShapeOf(e)[0] == 1 then 1 else 0
  }

  /** The dimension a remainder replaces or bounds. */
  function RemTarget(st: PState, e: Expr): nat {
    if st.Structured() then RemDimension(st, e) else st.NonStructuredDim()
  }

  /** A remainder may be taken of a state whose other unit dimensions contribute nothing. */
  ghost predicate RestVanishes(st: PState, e: Expr, w: World)
    requires st.Valid()
  {
    forall i :: 0 <= i < st.Rank() && i < |ShapeOf(e)| && ShapeOf(e)[i] == 1 && i != RemTarget(st, e) ==>
      EvalO(st.offsets[i], w) == 0
  }

  /** It keeps the scalar of that state, so there must be none. */
  ghost predicate RemGuard(st: PState, e: Expr, w: World)
    requires st.Valid()
  {
    st.scalar.None? && RestVanishes(st, e, w)
  }

  lemma RemStateDenotes(st: PState, r: PState, m: Val, e: Expr, c: Config, w: World, x: seq<nat>)
    requires st.Valid() && UnitStride(st, w) && st.sizes == ShapeOf(e) && st.source.None?
    requires RemState(st, m, e, c) == Some(r) && r.Structured()
    requires RestVanishes(st, e, w)
    requires InBounds(x, ShapeOf(e))
    ensures r.Rank() == |x| && Denote(r, w, x) == TruncRem(Denote(st, w, x), Eval(m, w))
  {
    RemStateForm(st, r, m, e, c);
    OtherDimVanishes(st, e, w, x);
    BoundedDenotes(st, RemDimension(st, e), m, w, x);
  }

  lemma OtherDimVanishes(st: PState, e: Expr, w: World, x: seq<nat>)
    requires st.Valid() && UnitStride(st, w) && st.sizes == ShapeOf(e) && st.Structured()
    requires RemDimension(st, e) < st.Rank()
    requires st.Rank() == 1 || (st.Rank() == 2 && st.sizes[1 - RemDimension(st, e)] == 1)
    requires forall i :: 0 <= i < st.Rank() ==> st.shape[i] == Attr(0)
    requires RestVanishes(st, e, w) && InBounds(x, ShapeOf(e))
    ensures forall i :: 0 <= i < st.Rank() && i != RemDimension(st, e) ==> TermAt(st, i, w, x[i]) == 0
  {
    if st.Rank() == 2 {
      var j := 1 - RemDimension(st, e);
      assert st.sizes[j] == 1 && x[j] == 0;
      assert TermAt(st, j, w, x[j]) == EvalO(st.offsets[j], w);
    }
  }

  /** Bounding the one dimension that contributes wraps the whole value. */
  lemma BoundedDenotes(st: PState, d: nat, m: Val, w: World, x: seq<nat>)
    requires st.Valid() && st.source.None? && d < st.Rank() == |x| && st.Rank() <= 2 && !st.offsets[d].T?
    requires forall i :: 0 <= i < st.Rank() ==> st.shape[i] == Attr(0)
    requires forall i :: 0 <= i < st.Rank() && i != d ==> TermAt(st, i, w, x[i]) == 0
    ensures var r := st.(shape := st.shape[d := V(m)], origiOffsets := st.offsets);
            Denote(r, w, x) == TruncRem(Denote(st, w, x), Eval(m, w))
  {
    var r := st.(shape := st.shape[d := V(m)], origiOffsets := st.offsets);
    SumOne(Terms(st, w, x), d);
    SumOne(Terms(r, w, x), d);
  }

  /** A remainder that stays structured only sets the bound of its dimension, and there was none before. */
  lemma RemStateForm(st: PState, r: PState, m: Val, e: Expr, c: Config)
    requires st.Valid() && st.sizes == ShapeOf(e)
    requires RemState(st, m, e, c) == Some(r) && r.Structured()
    ensures var d := RemDimension(st, e);
            st.Structured() && d < st.Rank() && (st.Rank() == 1 || (st.Rank() == 2 && st.sizes[1 - d] == 1)) &&
            r == st.(shape := st.shape[d := V(m)], origiOffsets := st.offsets)
    ensures forall i :: 0 <= i < st.Rank() ==> st.shape[i] == Attr(0)
  {
    if !st.Structured() {
      GatherNotStructured(st, e, st.NonStructuredDim());
    } else if st.HasModulo() {
      GatherNotStructured(st, e, 0);
    } else {
      RemDimStructured(st, m, e, RemDimension(st, e), c);
      forall i | 0 <= i < st.Rank() ensures st.shape[i] == Attr(0) {
        assert !st.DimHasModulo(i);
      }
    }
  }

  lemma RemDimStructured(st: PState, m: Val, e: Expr, d: nat, c: Config)
    requires st.Valid() && d < st.Rank() && RemDim(st, m, e, d, c).Structured()
    ensures RemDim(st, m, e, d, c) == st.(shape := st.shape[d := V(m)], origiOffsets := st.offsets)
  {
    GatherNotStructured(st, e, d);
  }

  lemma GatherNotStructured(st: PState, e: Expr, d: nat)
    requires st.Valid()
    ensures RebuildAsGatherScatter(st, e, d).Some? ==>
              d < st.Rank() && RebuildAsGatherScatter(st, e, d).value.offsets[d].T?
              && !RebuildAsGatherScatter(st, e, d).value.Structured()
  {
    var r := RebuildAsGatherScatter(st, e, d);
    if r.Some? {
      assert r.value.offsets[d].T?;
    }
  }

  lemma GatherUnitStride(st: PState, e: Expr, d: nat, w: World)
    requires st.Valid() && UnitStride(st, w) && st.sizes == ShapeOf(e)
    requires RebuildAsGatherScatter(st, e, d).Some?
    ensures UnitStride(RebuildAsGatherScatter(st, e, d).value, w)
    ensures RebuildAsGatherScatter(st, e, d).value.sizes == st.sizes
  {
  }

  lemma RemStateShaped(st: PState, m: Val, e: Expr, c: Config, w: World)
    requires st.Valid() && UnitStride(st, w) && st.sizes == ShapeOf(e)
    requires RemState(st, m, e, c).Some?
    ensures var r := RemState(st, m, e, c).value;
            UnitStride(r, w) && r.sizes == st.sizes && r.source == st.source && r.scalar == st.scalar
  {
    if !st.Structured() {
      GatherUnitStride(st, e, st.NonStructuredDim(), w);
    } else if st.HasModulo() {
      GatherUnitStride(st, e, 0, w);
    } else {
      var d := RemDimension(st, e);
      assert RemState(st, m, e, c) == Some(RemDim(st, m, e, d, c));
      if RebuildAsGatherScatter(st, e, d).Some? { GatherUnitStride(st, e, d, w); }
    }
  }

  // ------------------------------------------------------------------
  // Shape operations
  // ------------------------------------------------------------------

  lemma SplatDenotes(st: PState, dims: seq<nat>, w: World, x: seq<nat>)
    requires st.Valid() && st.Rank() == 0 && |dims| > 0 && |x| == |dims|
    requires SplatState(st, dims).Some?
    ensures SplatState(st, dims).value.Rank() == |x|
    ensures Denote(SplatState(st, dims).value, w, x) == Denote(st, w, [])
  {
    var r := SplatState(st, dims).value;
    SumOne(Terms(r, w, x), 0);
  }

  lemma ConstSplatDenotes(c: int, dims: seq<nat>, w: World, x: seq<nat>)
    requires |dims| > 0 && |x| == |dims|
    ensures Denote(ConstSplatState(c, dims), w, x) == c
  {
    SumOne(Terms(ConstSplatState(c, dims), w, x), 0);
  }

  lemma InsertAt<S>(s: seq<S>, axis: nat, v: S, i: nat)
    requires axis <= |s| && i <= |s|
    ensures Insert(s, axis, v)[i] == if i < axis then s[i] else if i == axis then v else s[i - 1]
  {
  }

  lemma ExpandDenotes(st: PState, axis: nat, w: World, x: seq<nat>)
    requires st.Valid() && axis <= st.Rank() && st.Rank() > 0 && |x| == st.Rank() + 1
    requires ExpandState(st, axis).Some?
    ensures |Remove(x, axis)| == st.Rank()
    ensures Denote(ExpandState(st, axis).value, w, x) == Denote(st, w, Remove(x, axis))
  {
    var r := ExpandState(st, axis).value;
    var y := Remove(x, axis);
    forall i | 0 <= i < |x|
      ensures Terms(r, w, x)[i] == Insert(Terms(st, w, y), axis, 0)[i]
    {
      InsertAt(st.offsets, axis, Attr(0), i);
      InsertAt(st.strides, axis, Attr(0), i);
      InsertAt(st.shape, axis, Attr(0), i);
      InsertAt(Terms(st, w, y), axis, 0, i);
    }
    assert Terms(r, w, x) == Insert(Terms(st, w, y), axis, 0);
    SumInsertZero(Terms(st, w, y), axis);
  }

  lemma ExpandUnitStride(st: PState, axis: nat, w: World)
    requires st.Valid() && axis <= st.Rank() && UnitStride(st, w)
    requires ExpandState(st, axis).Some?
    ensures UnitStride(ExpandState(st, axis).value, w)
    ensures ExpandState(st, axis).value.Structured() ==> st.Structured()
  {
    var r := ExpandState(st, axis).value;
    forall i | 0 <= i < r.Rank()
      ensures !r.strides[i].T? && (r.sizes[i] == 1 ==> !r.offsets[i].T? && EvalO(r.strides[i], w) == 0)
    {
      InsertAt(st.offsets, axis, Attr(0), i);
      InsertAt(st.strides, axis, Attr(0), i);
      InsertAt(st.sizes, axis, 1, i);
    }
    forall i | 0 <= i < st.Rank() && r.Structured()
      ensures !st.offsets[i].T?
    {
      InsertAt(st.offsets, axis, Attr(0), if i < axis then i else i + 1);
    }
  }

  lemma BroadcastDenotes(st: PState, src: seq<nat>, dst: seq<nat>, w: World, x: seq<nat>)
    requires st.Valid() && st.sizes == src && UnitStride(st, w)
    requires BroadcastsTo(src, dst) && |dst| > 0 && InBounds(x, dst)
    ensures Denote(BroadcastState(st, src, dst), w, x) == Denote(st, w, Clamp(x, src))
  {
    var r := BroadcastState(st, src, dst);
    forall i | 0 <= i < |x|
      ensures Terms(r, w, x)[i] == Terms(st, w, Clamp(x, src))[i]
    {
    }
    assert Terms(r, w, x) == Terms(st, w, Clamp(x, src));
  }

  lemma SpreadSingle(dims: seq<nat>, d: nat, x: seq<nat>)
    requires SingleDim(dims, d) && PositiveDims(dims) && InBounds(x, dims)
    ensures Spread(dims, x[d]) == x
  {
  }

  lemma UnsupportedDenotes(e: Expr, w: World, x: seq<nat>)
    requires RebuildAsUnsupportedOp(e).Some? && InBounds(x, ShapeOf(e))
    requires PositiveDims(ShapeOf(e))
    ensures Denote(RebuildAsUnsupportedOp(e).value, w, x) == EvalX(e, w, x)
  {
    var st := RebuildAsUnsupportedOp(e).value;
    var dims := ShapeOf(e);
    var d :| 0 <= d < |dims| && SingleDim(dims, d);
    forall i | 0 <= i < |x| && i != d ensures Terms(st, w, x)[i] == 0 {
      assert dims[i] == 1 && x[i] == 0;
    }
    SumOne(Terms(st, w, x), d);
    assert Terms(st, w, x)[d] == EvalT(Orig(e), w, x[d]) * 1;
    SpreadSingle(dims, d, x);
  }

  // ------------------------------------------------------------------
  // Soundness of visitOperand
  // ------------------------------------------------------------------

  /** `exact` says that the state's own dimensions carry the whole value. The scalar of a pointer is not read. */
  ghost predicate StateSound(e: Expr, st: PState, w: World, exact: bool) {
    Shaped(e, st, w) && (!IsPtr(e) ==> ScalarSound(e, st, w)) && (exact ==> Denotes(e, st, w))
  }

  ghost predicate KnownSound(known: Known, w: World) {
    KnownValid(known) &&
    forall e :: e in known ==>
      StateSound(e, known[e], w, known[e].Structured()) && (e.IterArg? ==> known[e].Structured())
  }

  /** While gathered offsets are computed no operand wraps around beside a gathered one. */
  predicate NoMixedModulo(l: PState, r: PState)
    requires l.Valid() && r.Valid()
  {
    (l.HasModulo() ==> r.Structured()) && (r.HasModulo() ==> l.Structured())
  }

  /** A computed state is valid. */
  predicate ValidState(st: Option<PState>) { st.Some? ==> st.value.Valid() }

  ghost predicate SumGuard(l: Option<PState>, r: Option<PState>, c: Config, w: World)
    requires ValidState(l) && ValidState(r)
  {
    l.Some? && r.Some? ==>
      AddGuard(l.value, r.value, c.unstructured, w) && (c.unstructured ==> NoMixedModulo(l.value, r.value))
  }

  ghost predicate DifferenceGuard(l: Option<PState>, r: Option<PState>, c: Config, w: World)
    requires ValidState(l) && ValidState(r)
  {
    l.Some? && r.Some? ==>
      AddGuard(l.value, NegState(r.value), c.unstructured, w) && (c.unstructured ==> r.value.Structured())
  }

  predicate ProductGuard(l: Option<PState>, r: Option<PState>, c: Config)
    requires ValidState(l) && ValidState(r)
  {
    l.Some? && r.Some? && c.unstructured ==> NoMixedModulo(l.value, r.value)
  }

  ghost predicate RemainderGuard(l: Option<PState>, e: Expr, w: World)
    requires ValidState(l)
  {
    l.Some? ==> RemGuard(l.value, e, w)
  }

  /**
   The limits of the analysis, operation by operation, on the states it has just computed. PtrLimits.dfy
   shows what goes wrong beyond them.
   */
  ghost predicate Guard(e: Expr, c: Config, known: Known, w: World)
    requires KnownValid(known)
  {
    (!c.unstructured && e in known) ||
    match e
    case Range(s, t) => t - s >= 2
    case Splat(src, _) => Guard(src, c, known, w)
    case ExpandDims(src, _) => Guard(src, c, known, w)
    case Broadcast(src, _) => Guard(src, c, known, w)
    case ExtSI(src) => Guard(src, c, known, w)
    case Add(l, r) =>
      Guard(l, c, known, w) && Guard(r, c, known, w) && SumGuard(Visit(l, c, known), Visit(r, c, known), c, w)
    case AddPtr(l, r) =>
      Guard(l, c, known, w) && Guard(r, c, known, w) && SumGuard(Visit(l, c, known), Visit(r, c, known), c, w)
    case Sub(l, r) =>
      Guard(l, c, known, w) && Guard(r, c, known, w) && DifferenceGuard(Visit(l, c, known), Visit(r, c, known), c, w)
    case Mul(l, r) =>
      Guard(l, c, known, w) && Guard(r, c, known, w) && ProductGuard(Visit(l, c, known), Visit(r, c, known), c)
    case Rem(l, r) =>
      c.unstructured ||
      (Guard(l, c, known, w) && Guard(r, c, known, w) && RemainderGuard(Visit(l, c, known), e, w))
    case _ => true
  }

  lemma AddStructured(l: PState, r: PState)
    requires l.Valid() && r.Valid()
    requires AddState(l, r, false).Some? && AddState(l, r, false).value.Structured()
    ensures l.Structured() && r.Structured()
  {
    var st := AddState(l, r, false).value;
    forall i | 0 <= i < l.Rank() ensures !l.offsets[i].T? && !r.offsets[i].T? {
      assert !st.offsets[i].T?;
    }
  }

  lemma MulStructured(l: PState, r: PState)
    requires l.Valid() && r.Valid()
    requires MulState(l, r, false).Some? && MulState(l, r, false).value.Structured()
    ensures MulSides(l, r).0.Structured()
  {
    var st := MulState(l, r, false).value;
    var (a, b) := MulSides(l, r);
    forall i | 0 <= i < a.Rank() ensures !a.offsets[i].T? {
      assert st.offsets[i] == MulDim(a.offsets[i], a.strides[i], a.shape[i], b.scalar.value, false).0;
    }
  }

  /** Gathering a modulo keeps a state well shaped; if the result is structured nothing was gathered. */
  lemma GatherModuloSound(e: Expr, own: PState, other: PState, c: Config, w: World)
    requires StateSound(e, own, w, c.unstructured || own.Structured()) && other.Valid()
    requires GatherModulo(own, e, other, c).Some?
    ensures var own' := GatherModulo(own, e, other, c).value;
            StateSound(e, own', w, false) &&
            (other.Structured() || !own.HasModulo() || own'.Structured() ==> own' == own)
  {
    if !other.Structured() && own.HasModulo() {
      GatherUnitStride(own, e, other.NonStructuredDim(), w);
      GatherNotStructured(own, e, other.NonStructuredDim());
    }
  }

  /** Both tt.addptr and arith.addi on tensors add their operands, index by index. */
  ghost predicate IsSumOf(e: Expr, l: Expr, r: Expr, w: World) {
    && ShapeOf(e) == ShapeOf(l) == ShapeOf(r) && (IsPtr(l) || IsPtr(r) ==> IsPtr(e))
    && forall x :: EvalX(e, w, x) == EvalX(l, w, x) + EvalX(r, w, x)
  }

  lemma SumSound(e: Expr, l: Expr, r: Expr, ls: PState, rs: PState, st: PState, u: bool, w: World)
    requires IsSumOf(e, l, r, w)
    requires StateSound(l, ls, w, u || ls.Structured()) && StateSound(r, rs, w, u || rs.Structured())
    requires AddState(ls, rs, u) == Some(st)
    requires u || st.Structured() ==> AddGuard(ls, rs, u, w)
    ensures StateSound(e, st, w, u || st.Structured())
  {
    SumShaped(e, l, r, ls, rs, st, u, w);
    if !IsPtr(e) { SumScalarSound(e, l, r, ls, rs, st, u, w); }
    if u || st.Structured() {
      if !u { AddStructured(ls, rs); }
      forall x | InBounds(x, ShapeOf(e)) ensures EvalX(e, w, x) == Denote(st, w, x) {
        assert InBounds(x, ShapeOf(l)) && InBounds(x, ShapeOf(r));
        AddStateDenotes(ls, rs, u, w, x);
      }
    }
  }

  lemma SumShaped(e: Expr, l: Expr, r: Expr, ls: PState, rs: PState, st: PState, u: bool, w: World)
    requires IsSumOf(e, l, r, w)
    requires Shaped(l, ls, w) && Shaped(r, rs, w)
    requires AddState(ls, rs, u) == Some(st)
    ensures Shaped(e, st, w)
  {
    AddStateUnitStride(ls, rs, u, w);
  }

  lemma SumScalarSound(e: Expr, l: Expr, r: Expr, ls: PState, rs: PState, st: PState, u: bool, w: World)
    requires IsSumOf(e, l, r, w)
    requires StateSound(l, ls, w, u || ls.Structured()) && StateSound(r, rs, w, u || rs.Structured())
    requires ScalarSound(l, ls, w) && ScalarSound(r, rs, w)
    requires AddState(ls, rs, u) == Some(st)
    ensures ScalarSound(e, st, w)
  {
    if st.scalar.Some? {
      forall x | InBounds(x, ShapeOf(e)) ensures EvalX(e, w, x) == BaseVal(st, w) + Eval(st.scalar.value, w) {
        assert InBounds(x, ShapeOf(l)) && InBounds(x, ShapeOf(r));
        if ls.Rank() == 0 { assert ls.Structured() && rs.Structured() && x == []; }
        SumScalar(EvalX(l, w, x), EvalX(r, w, x), ls, rs, st, u, w);
      }
    }
  }

  lemma SumScalar(lv: int, rv: int, ls: PState, rs: PState, st: PState, u: bool, w: World)
    requires ls.Valid() && rs.Valid() && AddState(ls, rs, u) == Some(st) && st.scalar.Some?
    requires ls.scalar.Some? ==> lv == BaseVal(ls, w) + Eval(ls.scalar.value, w)
    requires rs.scalar.Some? ==> rv == BaseVal(rs, w) + Eval(rs.scalar.value, w)
    requires ls.Rank() == 0 ==> lv == Denote(ls, w, []) && rv == Denote(rs, w, [])
    ensures lv + rv == BaseVal(st, w) + Eval(st.scalar.value, w)
  {
    AddScalarValue(ls, rs, w);
    assert BaseVal(st, w) == BaseVal(ls, w) + BaseVal(rs, w);
  }

  /** A scalar on one side alone survives only at rank 0, where the other side is a bare base pointer. */
  lemma AddScalarValue(l: PState, r: PState, w: World)
    requires AddScalar(l, r).Some?
    ensures l.scalar.Some? && r.scalar.Some? ==>
              Eval(AddScalar(l, r).value, w) == Eval(l.scalar.value, w) + Eval(r.scalar.value, w)
    ensures l.scalar.None? || r.scalar.None? ==>
              l.Rank() == 0 && AddScalar(l, r) == if l.scalar.Some? then l.scalar else r.scalar
  {
  }

  lemma AddSound(l: Expr, r: Expr, ls: PState, rs: PState, st: PState, c: Config, w: World)
    requires WellTyped(Add(l, r))
    requires StateSound(l, ls, w, c.unstructured || ls.Structured())
    requires StateSound(r, rs, w, c.unstructured || rs.Structured())
    requires SumGuard(Some(ls), Some(rs), c, w)
    requires AddOperands(l, r, ls, rs, c) == Some(st)
    ensures StateSound(Add(l, r), st, w, c.unstructured || st.Structured())
  {
    var rs' := GatherModulo(rs, r, ls, c).value;
    var ls' := if !ls.Structured() && rs.HasModulo() then ls else GatherModulo(ls, l, rs, c).value;
    GatherModuloSound(r, rs, ls, c, w);
    if GatherModulo(ls, l, rs, c).Some? { GatherModuloSound(l, ls, rs, c, w); }
    var sum := AddState(ls', rs', c.unstructured).value;
    if !c.unstructured && sum.Structured() { AddStructured(ls', rs'); }
    if c.unstructured || ls'.Structured() { assert ls' == ls; }
    if c.unstructured || rs'.Structured() { assert rs' == rs; }
    SumSound(Add(l, r), l, r, ls', rs', sum, c.unstructured, w);
    OrigiIrrelevant(Add(l, r), sum, st, w, c.unstructured || st.Structured());
  }

  /** The recorded original offsets play no part in what a state means. */
  lemma OrigiIrrelevant(e: Expr, a: PState, b: PState, w: World, exact: bool)
    requires StateSound(e, a, w, exact) && b == a.(origiOffsets := b.origiOffsets)
    ensures StateSound(e, b, w, exact)
  {
    if exact {
      forall x | InBounds(x, ShapeOf(e)) ensures EvalX(e, w, x) == Denote(b, w, x) {
        assert Terms(a, w, x) == Terms(b, w, x);
      }
    }
  }

  lemma SubSound(l: Expr, r: Expr, ls: PState, rs: PState, st: PState, c: Config, w: World)
    requires WellTyped(Sub(l, r))
    requires StateSound(l, ls, w, c.unstructured || ls.Structured())
    requires StateSound(r, rs, w, c.unstructured || rs.Structured())
    requires c.unstructured ==> rs.Structured()
    requires AddGuard(ls, NegState(rs), c.unstructured, w)
    requires AddState(ls, NegState(rs), c.unstructured) == Some(st)
    ensures StateSound(Sub(l, r), st, w, c.unstructured || st.Structured())
  {
    var e, u, neg := Sub(l, r), c.unstructured, NegState(rs);
    NegStateUnitStride(rs, w);
    AddStateUnitStride(ls, neg, u, w);
    if st.scalar.Some? { SubScalarSound(l, r, ls, rs, st, w); }
    if u || st.Structured() {
      if !u { AddStructured(ls, neg); }
      forall x | InBounds(x, ShapeOf(e)) ensures EvalX(e, w, x) == Denote(st, w, x) {
        SubElement(l, r, ls, rs, st, c, w, x);
      }
    }
  }

  lemma SubScalarSound(l: Expr, r: Expr, ls: PState, rs: PState, st: PState, w: World)
    requires WellTyped(Sub(l, r)) && Shaped(l, ls, w) && Shaped(r, rs, w)
    requires ScalarSound(l, ls, w) && ScalarSound(r, rs, w)
    requires ls.scalar.Some? && rs.scalar.Some? && st.source == ls.source && ls.source.None? && rs.source.None?
    requires st.scalar == Some(AddI(ls.scalar.value, SubI(ConstV(0), rs.scalar.value)))
    ensures ScalarSound(Sub(l, r), st, w)
  {
    forall x | InBounds(x, ShapeOf(Sub(l, r)))
      ensures EvalX(Sub(l, r), w, x) == BaseVal(st, w) + Eval(st.scalar.value, w)
    {
      assert InBounds(x, ShapeOf(l)) && InBounds(x, ShapeOf(r));
      assert Eval(ConstV(0), w) == 0;
    }
  }

  lemma SubElement(l: Expr, r: Expr, ls: PState, rs: PState, st: PState, c: Config, w: World, x: seq<nat>)
    requires WellTyped(Sub(l, r)) && InBounds(x, ShapeOf(Sub(l, r)))
    requires StateSound(l, ls, w, true) && StateSound(r, rs, w, true)
    requires UnitStride(NegState(rs), w) && AddGuard(ls, NegState(rs), c.unstructured, w)
    requires AddState(ls, NegState(rs), c.unstructured) == Some(st) && (c.unstructured || st.Structured())
    requires c.unstructured ==> rs.Structured()
    ensures EvalX(Sub(l, r), w, x) == Denote(st, w, x)
  {
    assert InBounds(x, ShapeOf(l)) && InBounds(x, ShapeOf(r));
    AddStateDenotes(ls, NegState(rs), c.unstructured, w, x);
    NegStateDenotes(rs, w, x);
  }

  lemma MulSound(l: Expr, r: Expr, ls: PState, rs: PState, st: PState, c: Config, w: World)
    requires WellTyped(Mul(l, r))
    requires StateSound(l, ls, w, c.unstructured || ls.Structured())
    requires StateSound(r, rs, w, c.unstructured || rs.Structured())
    requires MulState(ls, rs, c.unstructured) == Some(st)
    ensures StateSound(Mul(l, r), st, w, c.unstructured || st.Structured())
  {
    MulStateUnitStride(ls, rs, c.unstructured, w);
    if st.scalar.Some? { MulScalarSound(l, r, ls, rs, st, w); }
    if c.unstructured || st.Structured() {
      if !c.unstructured { MulStructured(ls, rs); }
      MulDenotes(l, r, ls, rs, st, c, w);
    }
  }

  lemma MulDenotes(l: Expr, r: Expr, ls: PState, rs: PState, st: PState, c: Config, w: World)
    requires WellTyped(Mul(l, r))
    requires StateSound(l, ls, w, c.unstructured || ls.Structured())
    requires StateSound(r, rs, w, c.unstructured || rs.Structured())
    requires MulState(ls, rs, c.unstructured) == Some(st)
    requires Shaped(Mul(l, r), st, w)
    requires c.unstructured || (st.Structured() && MulSides(ls, rs).0.Structured())
    ensures Denotes(Mul(l, r), st, w)
  {
    forall x | InBounds(x, ShapeOf(Mul(l, r))) ensures EvalX(Mul(l, r), w, x) == Denote(st, w, x) {
      MulElement(l, r, ls, rs, st, c, w, x);
    }
  }

  lemma MulScalarSound(l: Expr, r: Expr, ls: PState, rs: PState, st: PState, w: World)
    requires WellTyped(Mul(l, r)) && Shaped(l, ls, w) && Shaped(r, rs, w)
    requires ScalarSound(l, ls, w) && ScalarSound(r, rs, w)
    requires ls.scalar.Some? && rs.scalar.Some? && st.source.None?
    requires st.scalar == Some(MulI(ls.scalar.value, rs.scalar.value))
    ensures ScalarSound(Mul(l, r), st, w)
  {
    forall x | InBounds(x, ShapeOf(Mul(l, r)))
      ensures EvalX(Mul(l, r), w, x) == BaseVal(st, w) + Eval(st.scalar.value, w)
    {
      assert InBounds(x, ShapeOf(l)) && InBounds(x, ShapeOf(r));
      SameProduct(EvalX(l, w, x), Eval(ls.scalar.value, w), EvalX(r, w, x), Eval(rs.scalar.value, w));
    }
  }

  lemma MulElement(l: Expr, r: Expr, ls: PState, rs: PState, st: PState, c: Config, w: World, x: seq<nat>)
    requires WellTyped(Mul(l, r)) && InBounds(x, ShapeOf(Mul(l, r)))
    requires StateSound(l, ls, w, c.unstructured || ls.Structured())
    requires StateSound(r, rs, w, c.unstructured || rs.Structured())
    requires MulState(ls, rs, c.unstructured) == Some(st)
    requires c.unstructured || (st.Structured() && MulSides(ls, rs).0.Structured())
    ensures EvalX(Mul(l, r), w, x) == Denote(st, w, x)
  {
    MulStateDenotes(ls, rs, c.unstructured, w, x);
    var p, q := EvalX(l, w, x), EvalX(r, w, x);
    assert EvalX(Mul(l, r), w, x) == p * q;
    if rs.scalar.None? {
      SideValues(r, l, rs, ls, w, x);
      SameProduct(q, Denote(rs, w, x), p, Eval(ls.scalar.value, w));
    } else {
      SideValues(l, r, ls, rs, w, x);
      SameProduct(p, Denote(ls, w, x), q, Eval(rs.scalar.value, w));
    }
  }

  lemma SameProduct(a: int, a': int, b: int, b': int)
    requires a == a' && b == b'
    ensures a * b == a' * b' && b * a == a' * b'
  {
  }

  lemma SideValues(e: Expr, f: Expr, es: PState, fs: PState, w: World, x: seq<nat>)
    requires StateSound(e, es, w, true) && InBounds(x, ShapeOf(e)) && !IsPtr(e)
    requires Shaped(f, fs, w) && ScalarSound(f, fs, w) && fs.scalar.Some? && InBounds(x, ShapeOf(f)) && !IsPtr(f)
    ensures EvalX(e, w, x) == Denote(es, w, x) && EvalX(f, w, x) == Eval(fs.scalar.value, w)
  {
  }

  lemma MulOperandsSound(l: Expr, r: Expr, ls: PState, rs: PState, st: PState, c: Config, w: World)
    requires WellTyped(Mul(l, r))
    requires StateSound(l, ls, w, c.unstructured || ls.Structured())
    requires StateSound(r, rs, w, c.unstructured || rs.Structured())
    requires c.unstructured ==> NoMixedModulo(ls, rs)
    requires MulOperands(l, r, ls, rs, c) == Some(st)
    ensures StateSound(Mul(l, r), st, w, c.unstructured || st.Structured())
  {
    var rs' := GatherModulo(rs, r, ls, c).value;
    var ls' := if !ls.Structured() && rs.HasModulo() then ls else GatherModulo(ls, l, rs, c).value;
    GatherModuloSound(r, rs, ls, c, w);
    if GatherModulo(ls, l, rs, c).Some? { GatherModuloSound(l, ls, rs, c, w); }
    var prod := MulState(ls', rs', c.unstructured).value;
    if !c.unstructured && prod.Structured() { MulStructured(ls', rs'); }
    if c.unstructured || ls'.Structured() { assert ls' == ls; }
    if c.unstructured || rs'.Structured() { assert rs' == rs; }
    MulSound(l, r, ls', rs', prod, c, w);
    OrigiIrrelevant(Mul(l, r), prod, st, w, c.unstructured || st.Structured());
  }

  lemma RemSound(l: Expr, r: Expr, ls: PState, rs: PState, st: PState, c: Config, w: World)
    requires WellTyped(Rem(l, r)) && !c.unstructured
    requires StateSound(l, ls, w, ls.Structured()) && StateSound(r, rs, w, rs.Structured())
    requires rs.scalar.Some? && RemGuard(ls, Rem(l, r), w)
    requires RemState(ls, rs.scalar.value, Rem(l, r), c) == Some(st)
    ensures StateSound(Rem(l, r), st, w, st.Structured())
  {
    var e, m := Rem(l, r), rs.scalar.value;
    RemStateShaped(ls, m, e, c, w);
    if st.Structured() {
      RemStateForm(ls, st, m, e, c);
      forall x | InBounds(x, ShapeOf(e)) ensures EvalX(e, w, x) == Denote(st, w, x) {
        assert InBounds(x, ShapeOf(l)) && InBounds(x, ShapeOf(r));
        RemStateDenotes(ls, st, m, e, c, w, x);
      }
    }
  }

  lemma SplatSound(src: Expr, dims: seq<nat>, ss: PState, st: PState, w: World)
    requires WellTyped(Splat(src, dims)) && StateSound(src, ss, w, true)
    requires SplatState(ss, dims) == Some(st)
    ensures StateSound(Splat(src, dims), st, w, true)
  {
    var e := Splat(src, dims);
    assert st.sizes == dims;
    assert InBounds([], ShapeOf(src));
    forall x | InBounds(x, ShapeOf(e)) ensures EvalX(e, w, x) == Denote(st, w, x) {
      SplatDenotes(ss, dims, w, x);
    }
  }

  lemma ExpandSound(src: Expr, axis: nat, ss: PState, st: PState, u: bool, w: World)
    requires WellTyped(ExpandDims(src, axis)) && StateSound(src, ss, w, u || ss.Structured())
    requires ExpandState(ss, axis) == Some(st)
    ensures StateSound(ExpandDims(src, axis), st, w, u || st.Structured())
  {
    var e := ExpandDims(src, axis);
    ExpandUnitStride(ss, axis, w);
    forall x | InBounds(x, ShapeOf(e))
      ensures InBounds(Remove(x, axis), ShapeOf(src))
      ensures u || st.Structured() ==> EvalX(e, w, x) == Denote(st, w, x)
    {
      RemoveInBounds(x, ShapeOf(src), axis);
      ExpandDenotes(ss, axis, w, x);
    }
  }

  lemma RemoveInBounds(x: seq<nat>, shape: seq<nat>, axis: nat)
    requires axis <= |shape| && InBounds(x, Insert(shape, axis, 1))
    ensures InBounds(Remove(x, axis), shape)
  {
    forall i | 0 <= i < |shape| ensures Remove(x, axis)[i] < shape[i] {
      InsertAt(shape, axis, 1, if i < axis then i else i + 1);
    }
  }

  lemma BroadcastSound(src: Expr, dims: seq<nat>, ss: PState, st: PState, u: bool, w: World)
    requires WellTyped(Broadcast(src, dims)) && StateSound(src, ss, w, u || ss.Structured())
    requires BroadcastState(ss, ShapeOf(src), dims) == st
    ensures StateSound(Broadcast(src, dims), st, w, u || st.Structured())
  {
    var e := Broadcast(src, dims);
    assert st.sizes == dims;
    forall x | InBounds(x, ShapeOf(e))
      ensures InBounds(Clamp(x, ShapeOf(src)), ShapeOf(src))
      ensures u || st.Structured() ==> EvalX(e, w, x) == Denote(st, w, x)
    {
      BroadcastDenotes(ss, ShapeOf(src), dims, w, x);
    }
  }

  lemma LeafSound(e: Expr, st: PState, c: Config, known: Known, w: World)
    requires WellTyped(e) && KnownSound(known, w) && Guard(e, c, known, w)
    requires Visit(e, c, known) == Some(st)
    requires e.IntScalar? || e.PtrArg? || e.Range? || e.ConstSplat? || e.IterArg? || e.Other?
             || (e.Rem? && c.unstructured)
    ensures StateSound(e, st, w, c.unstructured || st.Structured())
  {
    if e in known && (!c.unstructured || e.IterArg?) {
    } else if e.ConstSplat? {
      forall x | InBounds(x, ShapeOf(e)) ensures EvalX(e, w, x) == Denote(st, w, x) {
        ConstSplatDenotes(e.c, e.dims, w, x);
      }
    } else if e.Range? {
      forall x | InBounds(x, ShapeOf(e)) ensures EvalX(e, w, x) == Denote(st, w, x) {
        SumOne(Terms(st, w, x), 0);
      }
    } else if e.Other? || e.Rem? {
      ShapePositive(e);
      forall x | InBounds(x, ShapeOf(e)) ensures EvalX(e, w, x) == Denote(st, w, x) {
        UnsupportedDenotes(e, w, x);
      }
    }
  }

  lemma {:induction false} ShapePositive(e: Expr)
    requires WellTyped(e)
    ensures PositiveDims(ShapeOf(e))
  {
    match e
    case ExpandDims(src, axis) =>
      ShapePositive(src);
      forall i | 0 <= i < |ShapeOf(e)| ensures ShapeOf(e)[i] >= 1 { InsertAt(ShapeOf(src), axis, 1, i); }
    case Add(l, _) => ShapePositive(l);
    case Sub(l, _) => ShapePositive(l);
    case Mul(l, _) => ShapePositive(l);
    case Rem(l, _) => ShapePositive(l);
    case ExtSI(src) => ShapePositive(src);
    case AddPtr(p, _) => ShapePositive(p);
    case _ =>
  }

  /** What VisitSound proves of one operand. */
  ghost predicate VisitIsSound(e: Expr, c: Config, known: Known, w: World)
    requires KnownValid(known)
  {
    Visit(e, c, known).Some? ==>
      StateSound(e, Visit(e, c, known).value, w, c.unstructured || Visit(e, c, known).value.Structured())
  }

  ghost predicate CaseOf(e: Expr, c: Config, known: Known, w: World) {
    WellTyped(e) && KnownSound(known, w) && Guard(e, c, known, w) && (c.unstructured || e !in known)
  }

  lemma {:induction false} SplatCase(src: Expr, dims: seq<nat>, c: Config, known: Known, w: World)
    requires CaseOf(Splat(src, dims), c, known, w)
    ensures VisitIsSound(Splat(src, dims), c, known, w)
    decreases Splat(src, dims), 0
  {
    VisitSound(src, c, known, w);
    if Visit(Splat(src, dims), c, known).Some? {
      var ss := Visit(src, c, known).value;
      assert ss.Rank() == 0;
      SplatSound(src, dims, ss, Visit(Splat(src, dims), c, known).value, w);
    }
  }

  lemma {:induction false} AddCase(l: Expr, r: Expr, c: Config, known: Known, w: World)
    requires CaseOf(Add(l, r), c, known, w)
    ensures VisitIsSound(Add(l, r), c, known, w)
    decreases Add(l, r), 0
  {
    VisitSound(l, c, known, w);
    VisitSound(r, c, known, w);
    if Visit(Add(l, r), c, known).Some? {
      AddSound(l, r, Visit(l, c, known).value, Visit(r, c, known).value, Visit(Add(l, r), c, known).value, c, w);
    }
  }

  lemma {:induction false} SubCase(l: Expr, r: Expr, c: Config, known: Known, w: World)
    requires CaseOf(Sub(l, r), c, known, w)
    ensures VisitIsSound(Sub(l, r), c, known, w)
    decreases Sub(l, r), 0
  {
    VisitSound(l, c, known, w);
    VisitSound(r, c, known, w);
    if Visit(Sub(l, r), c, known).Some? {
      var ls, rs, st := Visit(l, c, known).value, Visit(r, c, known).value, Visit(Sub(l, r), c, known).value;
      var sum := AddState(ls, NegState(rs), c.unstructured).value;
      SubSound(l, r, ls, rs, sum, c, w);
      OrigiIrrelevant(Sub(l, r), sum, st, w, c.unstructured || st.Structured());
    }
  }

  lemma {:induction false} MulCase(l: Expr, r: Expr, c: Config, known: Known, w: World)
    requires CaseOf(Mul(l, r), c, known, w)
    ensures VisitIsSound(Mul(l, r), c, known, w)
    decreases Mul(l, r), 0
  {
    VisitSound(l, c, known, w);
    VisitSound(r, c, known, w);
    if Visit(Mul(l, r), c, known).Some? {
      MulOperandsSound(l, r, Visit(l, c, known).value, Visit(r, c, known).value,
                       Visit(Mul(l, r), c, known).value, c, w);
    }
  }

  lemma {:induction false} RemCase(l: Expr, r: Expr, c: Config, known: Known, w: World)
    requires CaseOf(Rem(l, r), c, known, w)
    ensures VisitIsSound(Rem(l, r), c, known, w)
    decreases Rem(l, r), 0
  {
    if Visit(Rem(l, r), c, known).Some? {
      var st := Visit(Rem(l, r), c, known).value;
      if c.unstructured {
        LeafSound(Rem(l, r), st, c, known, w);
      } else {
        VisitSound(l, c, known, w);
        VisitSound(r, c, known, w);
        RemSound(l, r, Visit(l, c, known).value, Visit(r, c, known).value, st, c, w);
      }
    }
  }

  lemma {:induction false} AddPtrCase(p: Expr, off: Expr, c: Config, known: Known, w: World)
    requires CaseOf(AddPtr(p, off), c, known, w)
    ensures VisitIsSound(AddPtr(p, off), c, known, w)
    decreases AddPtr(p, off), 0
  {
    VisitSound(p, c, known, w);
    VisitSound(off, c, known, w);
    if Visit(AddPtr(p, off), c, known).Some? {
      var ps, os, st := Visit(p, c, known).value, Visit(off, c, known).value, Visit(AddPtr(p, off), c, known).value;
      var sum := AddState(ps, os, c.unstructured).value;
      SumSound(AddPtr(p, off), p, off, ps, os, sum, c.unstructured, w);
      OrigiIrrelevant(AddPtr(p, off), sum, st, w, c.unstructured || st.Structured());
    }
  }

  lemma {:induction false} ShapeCase(e: Expr, src: Expr, c: Config, known: Known, w: World)
    requires CaseOf(e, c, known, w)
    requires (e.ExpandDims? || e.Broadcast? || e.ExtSI?) && src == e.src
    ensures VisitIsSound(e, c, known, w)
    decreases e, 0
  {
    VisitSound(src, c, known, w);
    if Visit(e, c, known).Some? {
      var ss, st := Visit(src, c, known).value, Visit(e, c, known).value;
      match e
      case ExpandDims(_, axis) => ExpandSound(src, axis, ss, st, c.unstructured, w);
      case Broadcast(_, d) => BroadcastSound(src, d, ss, st, c.unstructured, w);
      case ExtSI(_) => ExtSISound(src, st, w, c.unstructured || st.Structured());
    }
  }

  lemma ExtSISound(src: Expr, st: PState, w: World, exact: bool)
    requires WellTyped(ExtSI(src)) && StateSound(src, st, w, exact)
    ensures StateSound(ExtSI(src), st, w, exact)
  {
    forall x | InBounds(x, ShapeOf(ExtSI(src)))
      ensures InBounds(x, ShapeOf(src)) && EvalX(ExtSI(src), w, x) == EvalX(src, w, x)
    {
    }
  }

  lemma LeafCase(e: Expr, c: Config, known: Known, w: World)
    requires CaseOf(e, c, known, w)
    requires e.IntScalar? || e.PtrArg? || e.Range? || e.ConstSplat? || e.IterArg? || e.Other?
    ensures VisitIsSound(e, c, known, w)
  {
    if Visit(e, c, known).Some? { LeafSound(e, Visit(e, c, known).value, c, known, w); }
  }

  /**
   Soundness: whatever expression visitOperand accepts, a structured result denotes it at every index of
   its shape; while offsets are being gathered, every result does.
   */
  lemma {:induction false} VisitSound(e: Expr, c: Config, known: Known, w: World)
    requires WellTyped(e) && KnownSound(known, w) && Guard(e, c, known, w)
    ensures VisitIsSound(e, c, known, w)
    decreases e, 1
  {
    if c.unstructured || e !in known {
      match e
      case Splat(src, d) => SplatCase(src, d, c, known, w);
      case ExpandDims(src, _) => ShapeCase(e, src, c, known, w);
      case Broadcast(src, _) => ShapeCase(e, src, c, known, w);
      case ExtSI(src) => ShapeCase(e, src, c, known, w);
      case Add(l, r) => AddCase(l, r, c, known, w);
      case Sub(l, r) => SubCase(l, r, c, known, w);
      case Mul(l, r) => MulCase(l, r, c, known, w);
      case Rem(l, r) => RemCase(l, r, c, known, w);
      case AddPtr(p, off) => AddPtrCase(p, off, c, known, w);
      case _ => LeafCase(e, c, known, w);
    }
  }

  // ------------------------------------------------------------------
  // Scalars of pointers
  // ------------------------------------------------------------------

  ghost predicate KnownScalars(known: Known, w: World) {
    forall e :: e in known && IsPtr(e) ==> ScalarSound(e, known[e], w)
  }

  /** Shape operations hand the scalar of their source on. */
  lemma ShapeScalar(e: Expr, src: Expr, ss: PState, st: PState, w: World)
    requires WellTyped(e) && (e.ExpandDims? || e.Broadcast?) && src == e.src
    requires ScalarSound(src, ss, w) && st.scalar == ss.scalar && st.source == ss.source
    ensures ScalarSound(e, st, w)
  {
    forall x | InBounds(x, ShapeOf(e)) && st.scalar.Some?
      ensures EvalX(e, w, x) == BaseVal(st, w) + Eval(st.scalar.value, w)
    {
      if e.ExpandDims? {
        RemoveInBounds(x, ShapeOf(src), e.axis);
      } else {
        assert InBounds(Clamp(x, ShapeOf(src)), ShapeOf(src));
      }
    }
  }

  lemma SplatScalar(src: Expr, dims: seq<nat>, ss: PState, st: PState, w: World)
    requires WellTyped(Splat(src, dims)) && StateSound(src, ss, w, true) && SplatState(ss, dims) == Some(st)
    ensures ScalarSound(Splat(src, dims), st, w)
  {
    assert InBounds([], ShapeOf(src));
  }

  lemma AddPtrScalar(p: Expr, off: Expr, ps: PState, os: PState, st: PState, c: Config, w: World)
    requires WellTyped(AddPtr(p, off)) && ScalarSound(p, ps, w)
    requires StateSound(p, ps, w, c.unstructured || ps.Structured())
    requires StateSound(off, os, w, c.unstructured || os.Structured())
    requires AddPtrOperands(ps, os, c) == Some(st)
    ensures ScalarSound(AddPtr(p, off), st, w)
  {
    SumScalarSound(AddPtr(p, off), p, off, ps, os, AddState(ps, os, c.unstructured).value, c.unstructured, w);
  }

  /** A pointer with a scalar is that constant pointer, as long as this is so of the recorded ones. */
  lemma {:induction false} PointerScalars(e: Expr, c: Config, known: Known, w: World)
    requires WellTyped(e) && IsPtr(e) && KnownSound(known, w) && Guard(e, c, known, w) && KnownScalars(known, w)
    ensures Visit(e, c, known).Some? ==> ScalarSound(e, Visit(e, c, known).value, w)
  {
    if (c.unstructured || e !in known) && Visit(e, c, known).Some? {
      var st := Visit(e, c, known).value;
      match e
      case Splat(src, d) =>
        VisitSound(src, c, known, w);
        assert Visit(src, c, known).value.Rank() == 0;
        SplatScalar(src, d, Visit(src, c, known).value, st, w);
      case ExpandDims(src, _) =>
        PointerScalars(src, c, known, w);
        ShapeScalar(e, src, Visit(src, c, known).value, st, w);
      case Broadcast(src, _) =>
        PointerScalars(src, c, known, w);
        ShapeScalar(e, src, Visit(src, c, known).value, st, w);
      case AddPtr(p, off) =>
        PointerScalars(p, c, known, w);
        VisitSound(p, c, known, w);
        VisitSound(off, c, known, w);
        AddPtrScalar(p, off, Visit(p, c, known).value, Visit(off, c, known).value, st, c, w);
      case _ =>
    }
  }
}
