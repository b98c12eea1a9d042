/**
 Gather and scatter pointers: rewriteAddptrOp analyses the pointer twice, once to find the structured
 dimensions and once to compute the gathered one, and merges the two states
 (lib/AnalysisStructured/PtrAnalysis.cpp). The two analyses agree, and the merged state denotes the
 original address.
 */
module Gather {
  import opened Wrappers
  import opened Ir
  import opened Folding
  import opened PtrStates
  import opened PtrSoundness

  const STRUCTURED := Config(true, false)
  const UNSTRUCTURED := Config(true, true)

  /** mergeUnstructuredState */
  function MergeUnstructuredState(st: PState, other: PState): (res: Option<PState>)
    requires st.Valid() && other.Valid()
    ensures res.Some? ==> res.value.Valid()
  {
    if st.Structured() || other.Structured() then None
    else if other.NonStructuredDim() != st.NonStructuredDim() then None
    else if st.Rank() != other.Rank() then None
    else
      var g := other.NonStructuredDim();
      Some(st.(offsets := st.offsets[g := other.offsets[g]],
               strides := st.strides[g := other.strides[g]],
               shape := st.shape[g := other.shape[g]]))
  }

  /** The two analyses see the same dimensions, with equal values in every structured one. */
  ghost predicate Agree(s: PState, u: PState, w: World) {
    && s.Valid() && u.Valid()
    && s.sizes == u.sizes && s.source == u.source
    && (s.scalar.Some? <==> u.scalar.Some?)
    && (s.scalar.Some? ==> Eval(s.scalar.value, w) == Eval(u.scalar.value, w))
    && forall i :: 0 <= i < s.Rank() ==> DimsAgree(s, u, i, w)
  }

  ghost predicate DimsAgree(s: PState, u: PState, i: nat, w: World)
    requires s.Valid() && u.Valid() && i < s.Rank() && i < u.Rank()
  {
    && s.shape[i] == Attr(0) && u.shape[i] == Attr(0)
    && (s.offsets[i].T? <==> u.offsets[i].T?)
    && (!s.offsets[i].T? ==>
          EvalO(s.offsets[i], w) == EvalO(u.offsets[i], w) && EvalO(s.strides[i], w) == EvalO(u.strides[i], w))
  }

  /** A state recorded earlier is one the gathering analysis, which ignores the record, agrees with. */
  ghost predicate KnownAgrees(known: Known, w: World)
    requires KnownValid(known)
  {
    forall e :: e in known ==> EntryAgrees(e, known, w)
  }

  ghost predicate EntryAgrees(e: Expr, known: Known, w: World)
    requires KnownValid(known) && e in known
  {
    Visit(e, UNSTRUCTURED, known).Some? ==> Agree(known[e], Visit(e, UNSTRUCTURED, known).value, w)
  }

  /** Both analyses stay within their limits. */
  ghost predicate BothGuards(e: Expr, known: Known, w: World)
    requires KnownValid(known)
  {
    Guard(e, STRUCTURED, known, w) && Guard(e, UNSTRUCTURED, known, w)
  }

  ghost predicate ModesAgreeOn(e: Expr, known: Known, w: World)
    requires KnownValid(known)
  {
    Visit(e, STRUCTURED, known).Some? && Visit(e, UNSTRUCTURED, known).Some? ==>
      Agree(Visit(e, STRUCTURED, known).value, Visit(e, UNSTRUCTURED, known).value, w)
  }

  lemma NoModulo(s: PState, u: PState, w: World)
    requires Agree(s, u, w)
    ensures !s.HasModulo() && !u.HasModulo()
  {
    forall i | 0 <= i < s.Rank() ensures !s.DimHasModulo(i) && !u.DimHasModulo(i) {
      assert DimsAgree(s, u, i, w);
    }
  }

  lemma AddAgrees(ls: PState, rs: PState, lu: PState, ru: PState, s: PState, u: PState, w: World)
    requires Agree(ls, lu, w) && Agree(rs, ru, w)
    requires UnitStride(lu, w) && UnitStride(ru, w)
    requires AddState(ls, rs, false) == Some(s) && AddState(lu, ru, true) == Some(u)
    requires AddGuard(lu, ru, true, w)
    ensures Agree(s, u, w)
  {
    NoModulo(ls, lu, w);
    NoModulo(rs, ru, w);
    AddScalarsAgree(ls, rs, lu, ru, w);
    forall i | 0 <= i < s.Rank() ensures DimsAgree(s, u, i, w) {
      assert DimsAgree(ls, lu, i, w) && DimsAgree(rs, ru, i, w);
      assert DimAddable(lu.offsets[i], lu.strides[i], lu.shape[i], ru.offsets[i], ru.strides[i], ru.shape[i], true, w);
      AddShapesAt(ls, rs, 0, i);
      AddShapesAt(lu, ru, 0, i);
      AddDimAgrees(ls, rs, lu, ru, i, w);
      assert s.offsets[i] == AddDim(ls.offsets[i], ls.strides[i], rs.offsets[i], rs.strides[i], false).0;
      assert u.offsets[i] == AddDim(lu.offsets[i], lu.strides[i], ru.offsets[i], ru.strides[i], true).0;
    }
  }

  lemma AddScalarsAgree(ls: PState, rs: PState, lu: PState, ru: PState, w: World)
    requires Agree(ls, lu, w) && Agree(rs, ru, w)
    ensures AddScalar(ls, rs).Some? <==> AddScalar(lu, ru).Some?
    ensures AddScalar(ls, rs).Some? ==> Eval(AddScalar(ls, rs).value, w) == Eval(AddScalar(lu, ru).value, w)
  {
    assert ls.Rank() == |ls.sizes| == lu.Rank();
  }

  lemma AddDimAgrees(ls: PState, rs: PState, lu: PState, ru: PState, i: nat, w: World)
    requires Agree(ls, lu, w) && Agree(rs, ru, w) && i < ls.Rank() && i < rs.Rank()
    requires DimAddable(lu.offsets[i], lu.strides[i], lu.shape[i], ru.offsets[i], ru.strides[i], ru.shape[i], true, w)
    ensures var (so, ss) := AddDim(ls.offsets[i], ls.strides[i], rs.offsets[i], rs.strides[i], false);
            var (uo, us) := AddDim(lu.offsets[i], lu.strides[i], ru.offsets[i], ru.strides[i], true);
            (so.T? <==> uo.T?) && (!so.T? ==> EvalO(so, w) == EvalO(uo, w) && EvalO(ss, w) == EvalO(us, w))
  {
    assert DimsAgree(ls, lu, i, w) && DimsAgree(rs, ru, i, w);
    if ls.offsets[i].T? || rs.offsets[i].T? {
      MergeDimValue(lu.offsets[i], lu.strides[i], ru.offsets[i], ru.strides[i], w, 0);
    } else {
      AddValue(ls.offsets[i], rs.offsets[i], w, 0);
      AddValue(ls.strides[i], rs.strides[i], w, 0);
      AddValue(lu.offsets[i], ru.offsets[i], w, 0);
      AddValue(lu.strides[i], ru.strides[i], w, 0);
    }
  }

  lemma MulAgrees(ls: PState, rs: PState, lu: PState, ru: PState, s: PState, u: PState, w: World)
    requires Agree(ls, lu, w) && Agree(rs, ru, w)
    requires MulState(ls, rs, false) == Some(s) && MulState(lu, ru, true) == Some(u)
    ensures Agree(s, u, w)
  {
    var (sa, sb) := MulSides(ls, rs);
    var (ua, ub) := MulSides(lu, ru);
    assert Agree(sa, ua, w) && Agree(sb, ub, w);
    forall i | 0 <= i < s.Rank() ensures DimsAgree(s, u, i, w) {
      assert DimsAgree(sa, ua, i, w);
      var sv, uv := sb.scalar.value, ub.scalar.value;
      assert s.offsets[i] == MulDim(sa.offsets[i], sa.strides[i], sa.shape[i], sv, false).0;
      assert u.offsets[i] == MulDim(ua.offsets[i], ua.strides[i], ua.shape[i], uv, true).0;
      MulValue(sa.offsets[i], V(sv), w, 0);
      MulValue(ua.offsets[i], V(uv), w, 0);
      MulValue(sa.strides[i], V(sv), w, 0);
      MulValue(ua.strides[i], V(uv), w, 0);
    }
  }

  lemma NegAgrees(s: PState, u: PState, w: World)
    requires Agree(s, u, w)
    ensures Agree(NegState(s), NegState(u), w) || s.source.Some?
  {
    forall i | 0 <= i < s.Rank() ensures DimsAgree(NegState(s), NegState(u), i, w) {
      assert DimsAgree(s, u, i, w);
      SubValue(Attr(0), s.offsets[i], w, 0);
      SubValue(Attr(0), u.offsets[i], w, 0);
      SubValue(Attr(0), s.strides[i], w, 0);
      SubValue(Attr(0), u.strides[i], w, 0);
    }
  }

  lemma ExpandAgrees(ss: PState, uu: PState, axis: nat, s: PState, u: PState, w: World)
    requires Agree(ss, uu, w) && axis <= ss.Rank()
    requires ExpandState(ss, axis) == Some(s) && ExpandState(uu, axis) == Some(u)
    ensures Agree(s, u, w)
  {
    forall i | 0 <= i < s.Rank() ensures DimsAgree(s, u, i, w) {
      if i != axis { assert DimsAgree(ss, uu, if i < axis then i else i - 1, w); }
      InsertAt(ss.offsets, axis, Attr(0), i);
      InsertAt(uu.offsets, axis, Attr(0), i);
      InsertAt(ss.strides, axis, Attr(0), i);
      InsertAt(uu.strides, axis, Attr(0), i);
      InsertAt(ss.shape, axis, Attr(0), i);
      InsertAt(uu.shape, axis, Attr(0), i);
    }
  }

  /** A gathered remainder replaces the only dimension that moves; what is left over contributes nothing. */
  lemma RemAgrees(st: PState, m: Val, e: Expr, s: PState, u: PState, w: World)
    requires st.Valid() && UnitStride(st, w) && st.sizes == ShapeOf(e) && st.source.None?
    requires (st.HasModulo() ==> st.Structured()) && RemGuard(st, e, w) && PositiveDims(ShapeOf(e))
    requires RemState(st, m, e, STRUCTURED) == Some(s) && RebuildAsUnsupportedOp(e) == Some(u)
    ensures Agree(s, u, w)
  {
    var dims := ShapeOf(e);
    var d :| 0 <= d < |dims| && SingleDim(dims, d);
    var t := RemTarget(st, e);
    assert t == d;
    assert RebuildAsGatherScatter(st, e, d).Some?;
    forall i | 0 <= i < s.Rank() ensures DimsAgree(s, u, i, w) {
      assert i != d ==> dims[i] == 1;
      assert !st.HasModulo() ==> !st.DimHasModulo(i);
    }
  }

  // ------------------------------------------------------------------
  // The two analyses agree
  // ------------------------------------------------------------------

  ghost predicate Analysed(e: Expr, known: Known, w: World) {
    WellTyped(e) && KnownSound(known, w) && KnownAgrees(known, w) && BothGuards(e, known, w)
  }

  /** Operands that do not wrap around are combined as they are. */
  lemma OperandsAgree(l: Expr, r: Expr, ls: PState, rs: PState, lu: PState, ru: PState, w: World)
    requires Agree(ls, lu, w) && Agree(rs, ru, w)
    ensures !ls.HasModulo() && !rs.HasModulo() && !lu.HasModulo() && !ru.HasModulo()
    ensures GatherBoth(l, r, ls, rs, STRUCTURED) == Some((ls, rs))
    ensures GatherBoth(l, r, lu, ru, UNSTRUCTURED) == Some((lu, ru))
  {
    NoModulo(ls, lu, w);
    NoModulo(rs, ru, w);
  }

  lemma SumAgrees(ls: PState, rs: PState, lu: PState, ru: PState, s: PState, u: PState, w: World)
    requires Agree(ls, lu, w) && Agree(rs, ru, w)
    requires UnitStride(lu, w) && UnitStride(ru, w) && AddGuard(lu, ru, true, w)
    requires WithOffsets(AddState(ls, rs, false)) == Some(s) && WithOffsets(AddState(lu, ru, true)) == Some(u)
    ensures Agree(s, u, w)
  {
    var s', u' := AddState(ls, rs, false).value, AddState(lu, ru, true).value;
    AddAgrees(ls, rs, lu, ru, s', u', w);
    OrigiAgrees(s', u', s, u, w);
  }

  lemma OrigiAgrees(s: PState, u: PState, s': PState, u': PState, w: World)
    requires Agree(s, u, w) && s' == s.(origiOffsets := s'.origiOffsets) && u' == u.(origiOffsets := u'.origiOffsets)
    ensures Agree(s', u', w)
  {
    forall i | 0 <= i < s.Rank() ensures DimsAgree(s', u', i, w) { assert DimsAgree(s, u, i, w); }
  }

  lemma AddCaseAgrees(l: Expr, r: Expr, known: Known, w: World)
    requires Analysed(Add(l, r), known, w) && Add(l, r) !in known
    requires ModesAgreeOn(l, known, w) && ModesAgreeOn(r, known, w)
    ensures ModesAgreeOn(Add(l, r), known, w)
  {
    var e := Add(l, r);
    if Visit(e, STRUCTURED, known).Some? && Visit(e, UNSTRUCTURED, known).Some? {
      var ls, rs := Visit(l, STRUCTURED, known).value, Visit(r, STRUCTURED, known).value;
      var lu, ru := Visit(l, UNSTRUCTURED, known).value, Visit(r, UNSTRUCTURED, known).value;
      VisitSound(l, UNSTRUCTURED, known, w);
      VisitSound(r, UNSTRUCTURED, known, w);
      OperandsAgree(l, r, ls, rs, lu, ru, w);
      SumAgrees(ls, rs, lu, ru, Visit(e, STRUCTURED, known).value, Visit(e, UNSTRUCTURED, known).value, w);
    }
  }

  lemma AddPtrCaseAgrees(p: Expr, off: Expr, known: Known, w: World)
    requires Analysed(AddPtr(p, off), known, w) && AddPtr(p, off) !in known
    requires ModesAgreeOn(p, known, w) && ModesAgreeOn(off, known, w)
    ensures ModesAgreeOn(AddPtr(p, off), known, w)
  {
    var e := AddPtr(p, off);
    if Visit(e, STRUCTURED, known).Some? && Visit(e, UNSTRUCTURED, known).Some? {
      var ls, rs := Visit(p, STRUCTURED, known).value, Visit(off, STRUCTURED, known).value;
      var lu, ru := Visit(p, UNSTRUCTURED, known).value, Visit(off, UNSTRUCTURED, known).value;
      VisitSound(p, UNSTRUCTURED, known, w);
      VisitSound(off, UNSTRUCTURED, known, w);
      var s, u := AddState(ls, rs, false).value, AddState(lu, ru, true).value;
      AddAgrees(ls, rs, lu, ru, s, u, w);
      OrigiAgrees(s, u, Visit(e, STRUCTURED, known).value, Visit(e, UNSTRUCTURED, known).value, w);
    }
  }

  lemma SubCaseAgrees(l: Expr, r: Expr, known: Known, w: World)
    requires Analysed(Sub(l, r), known, w) && Sub(l, r) !in known
    requires ModesAgreeOn(l, known, w) && ModesAgreeOn(r, known, w)
    ensures ModesAgreeOn(Sub(l, r), known, w)
  {
    var e := Sub(l, r);
    if Visit(e, STRUCTURED, known).Some? && Visit(e, UNSTRUCTURED, known).Some? {
      var rs, ru := Visit(r, STRUCTURED, known).value, Visit(r, UNSTRUCTURED, known).value;
      VisitSound(l, UNSTRUCTURED, known, w);
      VisitSound(r, UNSTRUCTURED, known, w);
      VisitSound(r, STRUCTURED, known, w);
      NegStateUnitStride(ru, w);
      NegAgrees(rs, ru, w);
      SumAgrees(Visit(l, STRUCTURED, known).value, NegState(rs), Visit(l, UNSTRUCTURED, known).value, NegState(ru),
                Visit(e, STRUCTURED, known).value, Visit(e, UNSTRUCTURED, known).value, w);
    }
  }

  lemma MulCaseAgrees(l: Expr, r: Expr, known: Known, w: World)
    requires Analysed(Mul(l, r), known, w) && Mul(l, r) !in known
    requires ModesAgreeOn(l, known, w) && ModesAgreeOn(r, known, w)
    ensures ModesAgreeOn(Mul(l, r), known, w)
  {
    var e := Mul(l, r);
    if Visit(e, STRUCTURED, known).Some? && Visit(e, UNSTRUCTURED, known).Some? {
      var ls, rs := Visit(l, STRUCTURED, known).value, Visit(r, STRUCTURED, known).value;
      var lu, ru := Visit(l, UNSTRUCTURED, known).value, Visit(r, UNSTRUCTURED, known).value;
      OperandsAgree(l, r, ls, rs, lu, ru, w);
      var s, u := MulState(ls, rs, false).value, MulState(lu, ru, true).value;
      MulAgrees(ls, rs, lu, ru, s, u, w);
      OrigiAgrees(s, u, Visit(e, STRUCTURED, known).value, Visit(e, UNSTRUCTURED, known).value, w);
    }
  }

  lemma RemainderAgrees(l: Expr, r: Expr, known: Known, w: World)
    requires Analysed(Rem(l, r), known, w) && Rem(l, r) !in known
    requires PlainRemainders(Rem(l, r), known)
    ensures ModesAgreeOn(Rem(l, r), known, w)
  {
    var e := Rem(l, r);
    if Visit(e, STRUCTURED, known).Some? && Visit(e, UNSTRUCTURED, known).Some? {
      var rs := Visit(r, STRUCTURED, known).value;
      VisitSound(l, STRUCTURED, known, w);
      ShapePositive(e);
      RemAgrees(Visit(l, STRUCTURED, known).value, rs.scalar.value, e, Visit(e, STRUCTURED, known).value,
                Visit(e, UNSTRUCTURED, known).value, w);
    }
  }

  lemma ShapeOpAgrees(e: Expr, src: Expr, known: Known, w: World)
    requires Analysed(e, known, w) && e !in known && ModesAgreeOn(src, known, w)
    requires (e.ExpandDims? || e.Broadcast? || e.ExtSI? || e.Splat?) && src == e.src
    ensures ModesAgreeOn(e, known, w)
  {
    if Visit(e, STRUCTURED, known).Some? && Visit(e, UNSTRUCTURED, known).Some? {
      var ss, uu := Visit(src, STRUCTURED, known).value, Visit(src, UNSTRUCTURED, known).value;
      var s, u := Visit(e, STRUCTURED, known).value, Visit(e, UNSTRUCTURED, known).value;
      VisitSound(src, STRUCTURED, known, w);
      if e.ExpandDims? {
        ExpandAgrees(ss, uu, e.axis, s, u, w);
      } else if e.Splat? {
        SplatAgrees(ss, uu, e.dims, s, u, w);
      } else if e.Broadcast? {
        BroadcastAgrees(ss, uu, ShapeOf(src), e.dims, s, u, w);
      }
    }
  }

  lemma SplatAgrees(ss: PState, uu: PState, dims: seq<nat>, s: PState, u: PState, w: World)
    requires Agree(ss, uu, w) && ss.sizes == [] && SplatState(ss, dims) == Some(s) && SplatState(uu, dims) == Some(u)
    ensures Agree(s, u, w)
  {
    assert ss.Rank() == |ss.sizes| == uu.Rank();
  }

  lemma BroadcastAgrees(ss: PState, uu: PState, src: seq<nat>, dst: seq<nat>, s: PState, u: PState, w: World)
    requires Agree(ss, uu, w) && BroadcastState(ss, src, dst) == s && BroadcastState(uu, src, dst) == u
    ensures Agree(s, u, w)
  {
    forall i | 0 <= i < s.Rank() ensures DimsAgree(s, u, i, w) { assert DimsAgree(ss, uu, i, w); }
  }

  /** No remainder is taken of a gathered tensor that also wraps around in another dimension. */
  predicate PlainRemainders(e: Expr, known: Known)
    requires KnownValid(known)
  {
    e in known ||
    match e
    case Splat(src, _) => PlainRemainders(src, known)
    case ExpandDims(src, _) => PlainRemainders(src, known)
    case Broadcast(src, _) => PlainRemainders(src, known)
    case ExtSI(src) => PlainRemainders(src, known)
    case Add(l, r) => PlainRemainders(l, known) && PlainRemainders(r, known)
    case Sub(l, r) => PlainRemainders(l, known) && PlainRemainders(r, known)
    case Mul(l, r) => PlainRemainders(l, known) && PlainRemainders(r, known)
    case AddPtr(l, r) => PlainRemainders(l, known) && PlainRemainders(r, known)
    case Rem(l, _) =>
      var st := Visit(l, STRUCTURED, known);
      st.Some? && !st.value.Structured() ==> !st.value.HasModulo()
    case _ => true
  }

  lemma {:induction false} ModesAgree(e: Expr, known: Known, w: World)
    requires Analysed(e, known, w) && PlainRemainders(e, known)
    ensures ModesAgreeOn(e, known, w)
  {
    if e in known {
      assert EntryAgrees(e, known, w);
    } else {
      match e
      case Add(l, r) =>
        ModesAgree(l, known, w);
        ModesAgree(r, known, w);
        AddCaseAgrees(l, r, known, w);
      case AddPtr(l, r) =>
        ModesAgree(l, known, w);
        ModesAgree(r, known, w);
        AddPtrCaseAgrees(l, r, known, w);
      case Sub(l, r) =>
        ModesAgree(l, known, w);
        ModesAgree(r, known, w);
        SubCaseAgrees(l, r, known, w);
      case Mul(l, r) =>
        ModesAgree(l, known, w);
        ModesAgree(r, known, w);
        MulCaseAgrees(l, r, known, w);
      case Rem(l, r) => RemainderAgrees(l, r, known, w);
      case Splat(src, _) =>
        ModesAgree(src, known, w);
        ShapeOpAgrees(e, src, known, w);
      case ExpandDims(src, _) =>
        ModesAgree(src, known, w);
        ShapeOpAgrees(e, src, known, w);
      case Broadcast(src, _) =>
        ModesAgree(src, known, w);
        ShapeOpAgrees(e, src, known, w);
      case ExtSI(src) =>
        ModesAgree(src, known, w);
        ShapeOpAgrees(e, src, known, w);
      case _ =>
    }
  }

  /** A gather pointer has a single gathered dimension, as getNonStructuredDim asserts. */
  predicate OneGathered(st: PState) {
    forall i, j :: 0 <= i < st.Rank() && 0 <= j < st.Rank() && st.offsets[i].T? && st.offsets[j].T? ==> i == j
  }

  /** The merged state, gathered dimension from one analysis and the rest from the other, is the original address. */
  lemma MergedSound(e: Expr, known: Known, w: World)
    requires Analysed(e, known, w) && PlainRemainders(e, known)
    requires Visit(e, STRUCTURED, known).Some? && Visit(e, UNSTRUCTURED, known).Some?
    requires OneGathered(Visit(e, STRUCTURED, known).value)
    requires MergeUnstructuredState(Visit(e, STRUCTURED, known).value, Visit(e, UNSTRUCTURED, known).value).Some?
    ensures var m := MergeUnstructuredState(Visit(e, STRUCTURED, known).value,
                                            Visit(e, UNSTRUCTURED, known).value).value;
            StateSound(e, m, w, true)
  {
    var s, u := Visit(e, STRUCTURED, known).value, Visit(e, UNSTRUCTURED, known).value;
    ModesAgree(e, known, w);
    VisitSound(e, STRUCTURED, known, w);
    VisitSound(e, UNSTRUCTURED, known, w);
    MergeDenotes(e, s, u, MergeUnstructuredState(s, u).value, w);
  }

  lemma MergeDenotes(e: Expr, s: PState, u: PState, m: PState, w: World)
    requires Agree(s, u, w) && MergeUnstructuredState(s, u) == Some(m) && OneGathered(s)
    requires StateSound(e, s, w, false) && StateSound(e, u, w, true)
    ensures StateSound(e, m, w, true)
  {
    assert s.Rank() == |s.sizes| == u.Rank();
    forall x | InBounds(x, ShapeOf(e)) ensures EvalX(e, w, x) == Denote(m, w, x) {
      forall i | 0 <= i < m.Rank() ensures Terms(m, w, x)[i] == Terms(u, w, x)[i] {
        assert DimsAgree(s, u, i, w);
        assert s.offsets[i].T? ==> i == s.NonStructuredDim();
      }
      assert Terms(m, w, x) == Terms(u, w, x);
    }
  }
}
