/** Mask analysis is exact (lib/Analysis/MaskAnalysis.cpp). */
module MaskExact {
  import opened Wrappers
  import opened Ir
  import opened Folding
  import opened MaskStates

  lemma {:induction false} MShapePositive(e: MExpr)
    requires MWellTyped(e)
    ensures PositiveDims(MShape(e))
  {
    match e
    case MAdd(l, _) => MShapePositive(l);
    case MCmp(_, l, _) => MShapePositive(l);
    case MAnd(l, _) => MShapePositive(l);
    case MExpand(src, axis) =>
      MShapePositive(src);
      forall i | 0 <= i < |MShape(e)| ensures MShape(e)[i] >= 1 { InsertedAt(MShape(src), axis, 1, i); }
    case MExtSI(src) => MShapePositive(src);
    case _ =>
  }

  lemma RangeExact(s: int, t: int, w: World)
    requires MWellTyped(MRange(s, t)) && t - s >= 2
    ensures IsRangeState(MRange(s, t), Parse(MRange(s, t)).value, w)
  {
    assert IsRangeAlong(MRange(s, t), Parse(MRange(s, t)).value, w, 0);
  }

  lemma AddScalarExact(e: MExpr, l: MExpr, r: MExpr, ls: MState, rs: MState, st: MState, w: World, d: nat)
    requires MShape(e) == MShape(l) == MShape(r)
    requires forall x :: MEval(e, w, x) == MEval(l, w, x) + MEval(r, w, x)
    requires IsRangeAlong(l, ls, w, d) && IsScalarState(r, rs, w)
    requires AddStateScalar(ls, rs.scalar.value) == Some(st)
    ensures IsRangeState(e, st, w)
  {
    AddValue(ls.start.value, rs.scalar.value, w, 0);
    AddValue(ls.end.value, rs.scalar.value, w, 0);
    assert IsRangeAlong(e, st, w, d);
  }

  lemma AddExact(l: MExpr, r: MExpr, w: World)
    requires MWellTyped(MAdd(l, r)) && ParsedExactly(l, w) && ParsedExactly(r, w)
    ensures ParsedExactly(MAdd(l, r), w)
  {
    var e := MAdd(l, r);
    if Parse(e).Some? {
      var ls, rs := Parse(l).value, Parse(r).value;
      if ls.scalar.Some? {
        var d: nat :| IsRangeAlong(r, rs, w, d);
        AddScalarExact(e, r, l, rs, ls, Parse(e).value, w, d);
      } else {
        var d: nat :| IsRangeAlong(l, ls, w, d);
        AddScalarExact(e, l, r, ls, rs, Parse(e).value, w, d);
      }
    }
  }

  /** Only the non-unit dimension can be compared. */
  lemma {:induction false} CmpDimUnique(dims: seq<Idx>, i: nat, found: int, d: nat)
    requires i <= |dims| && -1 <= found && d < |dims| && dims[d] != Attr(1)
    requires CmpDim(dims, i, found).Some? && (i <= d || found == d)
    ensures CmpDim(dims, i, found).value == d
    ensures forall j :: i <= j < |dims| && j != d ==> dims[j] == Attr(1)
    decreases |dims| - i
  {
    if i < |dims| {
      if dims[i] == Attr(1) {
        CmpDimUnique(dims, i + 1, found, d);
      } else {
        CmpDimFound(dims, i + 1, i);
      }
    }
  }

  lemma {:induction false} CmpDimFound(dims: seq<Idx>, i: nat, found: int)
    requires i <= |dims| && 0 <= found
    ensures CmpDim(dims, i, found) == if forall j :: i <= j < |dims| ==> dims[j] == Attr(1) then Some(found) else None
    decreases |dims| - i
  {
    if i < |dims| { CmpDimFound(dims, i + 1, found); }
  }

  /** max(min(end, v), start) - start, for a range of n elements from start: how many of them are below v. */
  lemma ClampedCount(start: int, n: nat, v: int, k: nat)
    requires k < n
    ensures var c := MaxInt(MinInt(start + n, v), start) - start;
            0 <= c <= n && (start + k < v <==> k < c)
  {
  }

  lemma RangeCmpExact(p: Pred, l: MExpr, r: MExpr, ls: MState, rs: MState, st: MState, w: World, d: nat)
    requires IsRangeAlong(l, ls, w, d) && IsScalarState(r, rs, w) && MShape(l) == MShape(r)
    requires p == Slt || (p == Sge && EvalO(ls.start.value, w) >= 0) || (p == Ult && UnsignedGuard(ls, rs, w))
    requires PositiveDims(MShape(l))
    requires CmpStates(p, ls, rs) == Some(st)
    ensures IsExactMask(MCmp(p, l, r), st, w)
  {
    var e := MCmp(p, l, r);
    assert ls.dims[d] == Attr(MShape(l)[d]);
    CmpDimUnique(ls.dims, 0, -1, d);
    var size := CmpSize(p, ls, rs, d).value;
    assert st.dims == ls.dims[d := size];
    var start, n, v := EvalO(ls.start.value, w), MShape(l)[d], EvalO(rs.scalar.value, w);
    if p != Sge {
      CmpSizeValue(p, ls, rs, size, w);
    } else {
      assert v == 0;
    }
    forall i | 0 <= i < |st.dims| ensures 0 <= EvalO(st.dims[i], w) <= MShape(e)[i] {
      assert i != d ==> MShape(e)[i] == 1;
      if p != Sge { ClampedCount(start, n, v, 0); }
    }
    forall x | InBounds(x, MShape(e)) ensures MEval(e, w, x) != 0 <==> InPrefix(x, st.dims, w) {
      assert InBounds(x, MShape(l)) && InBounds(x, MShape(r));
      if p != Sge { ClampedCount(start, n, v, x[d]); }
      assert InPrefix(x, st.dims, w) <==> x[d] < EvalO(size, w) by {
        assert forall i :: 0 <= i < |x| && i != d ==> x[i] < 1 == EvalO(st.dims[i], w);
      }
    }
  }

  lemma CmpSizeValue(p: Pred, ls: MState, rs: MState, size: Idx, w: World)
    requires ls.scalar.None? && ls.start.Some? && ls.end.Some? && rs.scalar.Some? && (p == Slt || p == Ult)
    requires CmpSize(p, ls, rs, 0) == Some(size)
    ensures EvalO(size, w)
         == MaxInt(MinInt(EvalO(ls.end.value, w), EvalO(rs.scalar.value, w)), EvalO(ls.start.value, w))
            - EvalO(ls.start.value, w)
  {
    var newEnd := MinOFRs(ls.end.value, rs.scalar.value);
    FoldersPreserveValue(ls.end.value, rs.scalar.value, w, 0);
    FoldersPreserveValue(newEnd, ls.start.value, w, 0);
    FoldersPreserveValue(MaxOFRs(newEnd, ls.start.value), ls.start.value, w, 0);
  }

  lemma ScalarCmpExact(p: Pred, l: MExpr, r: MExpr, ls: MState, rs: MState, st: MState, w: World)
    requires IsScalarState(l, ls, w) && IsScalarState(r, rs, w) && MShape(l) == MShape(r) && MShape(l) != []
    requires PositiveDims(MShape(l)) && CmpStates(p, ls, rs) == Some(st)
    requires ComparesAsSigned(p, ls.scalar.value, rs.scalar.value)
    ensures IsExactMask(MCmp(p, l, r), st, w)
  {
    var e := MCmp(p, l, r);
    CmpDimFound(ls.dims, 0, 0);
    CompareValue(ls.scalar.value, rs.scalar.value, p, ls.dims[0], Attr(0), w);
    forall i | 0 <= i < |MShape(e)| ensures MShape(e)[i] == 1 {
      assert ls.dims[i] == Attr(1);
    }
    forall x | InBounds(x, MShape(e)) ensures MEval(e, w, x) != 0 <==> InPrefix(x, st.dims, w) {
      assert InBounds(x, MShape(l)) && InBounds(x, MShape(r));
      assert x[0] < 1;
    }
  }

  lemma CmpExact(p: Pred, l: MExpr, r: MExpr, w: World)
    requires MWellTyped(MCmp(p, l, r)) && MaskGuard(MCmp(p, l, r), w)
    requires ParsedExactly(l, w) && ParsedExactly(r, w)
    ensures ParsedExactly(MCmp(p, l, r), w)
  {
    var e := MCmp(p, l, r);
    if Parse(e).Some? {
      var ls, rs, st := Parse(l).value, Parse(r).value, Parse(e).value;
      MShapePositive(l);
      if ls.scalar.Some? {
        ScalarCmpExact(p, l, r, ls, rs, st, w);
      } else {
        var d: nat :| IsRangeAlong(l, ls, w, d);
        assert IsScalarState(r, rs, w);
        RangeCmpExact(p, l, r, ls, rs, st, w, d);
      }
    }
  }

  lemma AndExact(l: MExpr, r: MExpr, w: World)
    requires MWellTyped(MAnd(l, r)) && ParsedExactly(l, w) && ParsedExactly(r, w)
    ensures ParsedExactly(MAnd(l, r), w)
  {
    var e := MAnd(l, r);
    if Parse(e).Some? {
      var ls, rs, st := Parse(l).value, Parse(r).value, Parse(e).value;
      forall i | 0 <= i < |st.dims|
        ensures EvalO(st.dims[i], w) == MinInt(EvalO(ls.dims[i], w), EvalO(rs.dims[i], w))
      {
        FoldersPreserveValue(ls.dims[i], rs.dims[i], w, 0);
      }
      forall x | InBounds(x, MShape(e)) ensures MEval(e, w, x) != 0 <==> InPrefix(x, st.dims, w) {
        assert InBounds(x, MShape(l)) && InBounds(x, MShape(r));
        assert InPrefix(x, st.dims, w) <==> InPrefix(x, ls.dims, w) && InPrefix(x, rs.dims, w) by {
          if InPrefix(x, st.dims, w) {
            forall i | 0 <= i < |x| ensures x[i] < EvalO(ls.dims[i], w) && x[i] < EvalO(rs.dims[i], w) {
              assert x[i] < EvalO(st.dims[i], w);
            }
          }
        }
      }
    }
  }

  lemma BoolSplatExact(c: Val, d: seq<nat>, w: World)
    requires |d| > 0 && PositiveDims(d)
    ensures IsExactMask(MBoolSplat(c, d), Parse(MBoolSplat(c, d)).value, w)
  {
    var e := MBoolSplat(c, d);
    var st := Parse(e).value;
    forall i | 0 <= i < |d| ensures EvalO(st.dims[i], w) == if Eval(c, w) != 0 then d[i] else 0 {
      assert Eval(ConstV(d[i]), w) == d[i] && Eval(ConstV(0), w) == 0;
    }
    forall x | InBounds(x, d) ensures MEval(e, w, x) != 0 <==> InPrefix(x, st.dims, w) {
      assert x[0] < d[0];
    }
  }

  // ------------------------------------------------------------------
  // Shape operations
  // ------------------------------------------------------------------

  lemma InsertedAt<S>(s: seq<S>, axis: nat, v: S, i: nat)
    requires axis <= |s| && i <= |s|
    ensures Insert(s, axis, v)[i] == if i < axis then s[i] else if i == axis then v else s[i - 1]
  {
  }

  lemma RemovedInBounds(x: seq<nat>, shape: seq<nat>, axis: nat)
    requires axis <= |shape| && InBounds(x, Insert(shape, axis, 1))
    ensures InBounds(Remove(x, axis), shape) && x[axis] == 0
    ensures forall i :: 0 <= i < |shape| ==> Remove(x, axis)[i] == x[if i < axis then i else i + 1]
  {
    InsertedAt(shape, axis, 1, axis);
    forall i | 0 <= i < |shape| ensures Remove(x, axis)[i] < shape[i] {
      InsertedAt(shape, axis, 1, if i < axis then i else i + 1);
    }
  }

  lemma AttrsInsert(shape: seq<nat>, axis: nat)
    requires axis <= |shape|
    ensures Insert(Attrs(shape), axis, Attr(1)) == Attrs(Insert(shape, axis, 1))
  {
    forall i | 0 <= i <= |shape|
      ensures Insert(Attrs(shape), axis, Attr(1))[i] == Attrs(Insert(shape, axis, 1))[i]
    {
      InsertedAt(Attrs(shape), axis, Attr(1), i);
      InsertedAt(shape, axis, 1, i);
    }
  }

  lemma ExpandMaskExact(src: MExpr, axis: nat, ss: MState, w: World)
    requires MWellTyped(MExpand(src, axis)) && IsExactMask(src, ss, w)
    ensures IsExactMask(MExpand(src, axis), ss.(dims := Insert(ss.dims, axis, Attr(1))), w)
  {
    var e := MExpand(src, axis);
    var st := ss.(dims := Insert(ss.dims, axis, Attr(1)));
    forall i | 0 <= i < |st.dims| ensures 0 <= EvalO(st.dims[i], w) <= MShape(e)[i] {
      InsertedAt(ss.dims, axis, Attr(1), i);
      InsertedAt(MShape(src), axis, 1, i);
    }
    forall x | InBounds(x, MShape(e)) ensures MEval(e, w, x) != 0 <==> InPrefix(x, st.dims, w) {
      RemovedInBounds(x, MShape(src), axis);
      ExpandPrefix(x, ss.dims, axis, w);
    }
  }

  lemma ExpandPrefix(x: seq<nat>, dims: seq<Idx>, axis: nat, w: World)
    requires |x| == |dims| + 1 && axis <= |dims| && x[axis] == 0
    ensures |Remove(x, axis)| == |dims|
    ensures InPrefix(x, Insert(dims, axis, Attr(1)), w) <==> InPrefix(Remove(x, axis), dims, w)
  {
    var big, y := Insert(dims, axis, Attr(1)), Remove(x, axis);
    if InPrefix(x, big, w) {
      forall i | 0 <= i < |y| ensures y[i] < EvalO(dims[i], w) {
        InsertedAt(dims, axis, Attr(1), if i < axis then i else i + 1);
        assert x[if i < axis then i else i + 1] < EvalO(big[if i < axis then i else i + 1], w);
      }
    }
    if InPrefix(y, dims, w) {
      forall i | 0 <= i < |x| ensures x[i] < EvalO(big[i], w) {
        InsertedAt(dims, axis, Attr(1), i);
        if i != axis { assert y[if i < axis then i else i - 1] < EvalO(dims[if i < axis then i else i - 1], w); }
      }
    }
  }

  lemma ExpandIndexExact(src: MExpr, axis: nat, ss: MState, w: World)
    requires MWellTyped(MExpand(src, axis)) && (IsScalarState(src, ss, w) || IsRangeState(src, ss, w))
    ensures var st := ss.(dims := Insert(ss.dims, axis, Attr(1)));
            IsScalarState(MExpand(src, axis), st, w) || IsRangeState(MExpand(src, axis), st, w)
  {
    AttrsInsert(MShape(src), axis);
    if IsRangeState(src, ss, w) {
      var d: nat :| IsRangeAlong(src, ss, w, d);
      ExpandRangeExact(src, axis, ss, ss.(dims := Insert(ss.dims, axis, Attr(1))), w, d, if d < axis then d else d + 1);
    } else {
      forall x | InBounds(x, MShape(MExpand(src, axis))) ensures InBounds(Remove(x, axis), MShape(src)) {
        RemovedInBounds(x, MShape(src), axis);
      }
    }
  }

  lemma ExpandRangeExact(src: MExpr, axis: nat, ss: MState, st: MState, w: World, d: nat, d': nat)
    requires MWellTyped(MExpand(src, axis)) && IsRangeAlong(src, ss, w, d) && d' == if d < axis then d else d + 1
    requires st == ss.(dims := Attrs(MShape(MExpand(src, axis))))
    ensures IsRangeAlong(MExpand(src, axis), st, w, d')
  {
    InsertedAt(MShape(src), axis, 1, d');
    forall x | InBounds(x, MShape(MExpand(src, axis)))
      ensures MEval(MExpand(src, axis), w, x) == EvalO(st.start.value, w) + x[d']
    {
      ExpandedElement(src, axis, ss, w, d, d', x);
    }
  }

  lemma ExpandedElement(src: MExpr, axis: nat, ss: MState, w: World, d: nat, d': nat, x: seq<nat>)
    requires IsRangeAlong(src, ss, w, d) && d' == (if d < axis then d else d + 1) && axis <= |MShape(src)|
    requires InBounds(x, Insert(MShape(src), axis, 1))
    ensures MEval(MExpand(src, axis), w, x) == EvalO(ss.start.value, w) + x[d']
  {
    RemovedInBounds(x, MShape(src), axis);
  }

  lemma ExpandExact(src: MExpr, axis: nat, w: World)
    requires MWellTyped(MExpand(src, axis)) && ParsedExactly(src, w)
    ensures ParsedExactly(MExpand(src, axis), w)
  {
    if Parse(MExpand(src, axis)).Some? {
      if IsMaskExpr(src) {
        ExpandMaskExact(src, axis, Parse(src).value, w);
      } else {
        ExpandIndexExact(src, axis, Parse(src).value, w);
      }
    }
  }

  /** The broadcast mask enables x when the source enables its image; the prefix forgets the stretched dimensions. */
  lemma BroadcastPrefix(x: seq<nat>, dims: seq<Idx>, src: seq<nat>, dst: seq<nat>, w: World)
    requires |dims| == |src| == |dst| && BroadcastsTo(src, dst) && InBounds(x, dst)
    requires BroadcastKeepsMask(dims, src, dst, w)
    ensures InPrefix(x, BroadcastDims(dims, src, dst), w) <==> InPrefix(Clamp(x, src), dims, w)
  {
    var big, y := BroadcastDims(dims, src, dst), Clamp(x, src);
    if InPrefix(y, dims, w) {
      forall i | 0 <= i < |x| ensures x[i] < EvalO(big[i], w) {
        assert y[i] < EvalO(dims[i], w);
      }
    }
    if InPrefix(x, big, w) {
      forall i | 0 <= i < |x| ensures y[i] < EvalO(dims[i], w) {
        assert x[i] < EvalO(big[i], w);
        if j :| 0 <= j < |src| && !(src[j] < dst[j]) && EvalO(dims[j], w) <= 0 {
          assert x[j] < EvalO(big[j], w);
        }
      }
    }
  }

  lemma BroadcastMaskExact(src: MExpr, d: seq<nat>, ss: MState, w: World)
    requires MWellTyped(MBroadcast(src, d)) && IsExactMask(src, ss, w)
    requires BroadcastKeepsMask(ss.dims, MShape(src), d, w)
    ensures IsExactMask(MBroadcast(src, d), ss.(dims := BroadcastDims(ss.dims, MShape(src), d)), w)
  {
    var e := MBroadcast(src, d);
    var st := ss.(dims := BroadcastDims(ss.dims, MShape(src), d));
    forall x | InBounds(x, MShape(e)) ensures MEval(e, w, x) != 0 <==> InPrefix(x, st.dims, w) {
      assert InBounds(Clamp(x, MShape(src)), MShape(src));
      BroadcastPrefix(x, ss.dims, MShape(src), d, w);
    }
  }

  lemma BroadcastIndexExact(src: MExpr, d: seq<nat>, ss: MState, w: World)
    requires MWellTyped(MBroadcast(src, d)) && (IsScalarState(src, ss, w) || IsRangeState(src, ss, w))
    ensures |ss.dims| == |MShape(src)|
    ensures var st := ss.(dims := BroadcastDims(ss.dims, MShape(src), d));
            IsScalarState(MBroadcast(src, d), st, w) || IsRangeState(MBroadcast(src, d), st, w)
  {
    var e := MBroadcast(src, d);
    var st := ss.(dims := BroadcastDims(ss.dims, MShape(src), d));
    assert st.dims == Attrs(d);
    forall x | InBounds(x, MShape(e)) ensures InBounds(Clamp(x, MShape(src)), MShape(src)) {
    }
    if IsRangeState(src, ss, w) {
      var k: nat :| IsRangeAlong(src, ss, w, k);
      assert IsRangeAlong(e, st, w, k);
    }
  }

  lemma BroadcastExact(src: MExpr, d: seq<nat>, w: World)
    requires MWellTyped(MBroadcast(src, d)) && MaskGuard(MBroadcast(src, d), w) && ParsedExactly(src, w)
    ensures ParsedExactly(MBroadcast(src, d), w)
  {
    if Parse(MBroadcast(src, d)).Some? {
      if IsMaskExpr(src) {
        BroadcastMaskExact(src, d, Parse(src).value, w);
      } else {
        BroadcastIndexExact(src, d, Parse(src).value, w);
      }
    }
  }

  lemma SplatExact(src: MExpr, d: seq<nat>, w: World)
    requires MWellTyped(MSplat(src, d))
    ensures ParsedExactly(MSplat(src, d), w)
  {
    assert [] + Attrs(d) == Attrs(d);
    assert Parse(src) == Some(NO_STATE.(scalar := Some(V(IndexCast(src.v)))));
    assert Parse(MSplat(src, d)).value.scalar == Some(V(IndexCast(src.v)));
    assert MEval(src, w, []) == Eval(src.v, w) == EvalO(V(IndexCast(src.v)), w);
    assert IsScalarState(MSplat(src, d), Parse(MSplat(src, d)).value, w);
  }

  /**
   Exactness: whatever mask parse accepts, element x is enabled exactly when every x[i] is below the size
   computed for dimension i, and the sizes lie within the shape.
   */
  lemma {:induction false} ParseExact(e: MExpr, w: World)
    requires MWellTyped(e) && MaskGuard(e, w)
    ensures ParsedExactly(e, w)
  {
    match e
    case MRange(s, t) => RangeExact(s, t, w);
    case MSplat(src, d) => SplatExact(src, d, w);
    case MBoolSplat(c, d) => BoolSplatExact(c, d, w);
    case MAdd(l, r) =>
      ParseExact(l, w);
      ParseExact(r, w);
      AddExact(l, r, w);
    case MCmp(p, l, r) =>
      ParseExact(l, w);
      ParseExact(r, w);
      CmpExact(p, l, r, w);
    case MAnd(l, r) =>
      ParseExact(l, w);
      ParseExact(r, w);
      AndExact(l, r, w);
    case MExpand(src, axis) =>
      ParseExact(src, w);
      ExpandExact(src, axis, w);
    case MBroadcast(src, d) =>
      ParseExact(src, w);
      BroadcastExact(src, d, w);
    case MExtSI(src) =>
      ParseExact(src, w);
      ExtSIExact(src, w);
    case _ =>
  }

  lemma ExtSIExact(src: MExpr, w: World)
    requires MWellTyped(MExtSI(src)) && ParsedExactly(src, w)
    ensures ParsedExactly(MExtSI(src), w)
  {
    if Parse(src).Some? && IsRangeState(src, Parse(src).value, w) {
      var d: nat :| IsRangeAlong(src, Parse(src).value, w, d);
      assert IsRangeAlong(MExtSI(src), Parse(src).value, w, d);
    }
  }

  // ------------------------------------------------------------------
  // The limits are exact
  // ------------------------------------------------------------------

  /** A broadcast prefix is exact just when no stretched dimension was masked off, or everything is. */
  lemma BroadcastMaskLimit(dims: seq<Idx>, src: seq<nat>, dst: seq<nat>, w: World)
    requires |dims| == |src| == |dst| && BroadcastsTo(src, dst) && PositiveDims(dst)
    ensures (forall x :: InBounds(x, dst) ==>
               (InPrefix(x, BroadcastDims(dims, src, dst), w) <==> InPrefix(Clamp(x, src), dims, w)))
        <==> BroadcastKeepsMask(dims, src, dst, w)
  {
    if BroadcastKeepsMask(dims, src, dst, w) {
      forall x | InBounds(x, dst)
        ensures InPrefix(x, BroadcastDims(dims, src, dst), w) <==> InPrefix(Clamp(x, src), dims, w)
      {
        BroadcastPrefix(x, dims, src, dst, w);
      }
    } else {
      var i :| 0 <= i < |src| && src[i] < dst[i] && EvalO(dims[i], w) < 1;
      var zero: seq<nat> := seq(|dst|, j => 0);
      assert InBounds(zero, dst);
      assert InPrefix(zero, BroadcastDims(dims, src, dst), w);
      assert !(Clamp(zero, src)[i] < EvalO(dims[i], w));
    }
  }

  /** So the broadcast of a mask that is parsed exactly is parsed exactly just then. */
  lemma BroadcastParseLimit(src: MExpr, d: seq<nat>, ss: MState, w: World)
    requires MWellTyped(MBroadcast(src, d)) && Parse(src) == Some(ss) && IsExactMask(src, ss, w)
    ensures Parse(MBroadcast(src, d)).Some?
    ensures IsExactMask(MBroadcast(src, d), Parse(MBroadcast(src, d)).value, w)
        <==> BroadcastKeepsMask(ss.dims, MShape(src), d, w)
  {
    var e, dims := MBroadcast(src, d), BroadcastDims(ss.dims, MShape(src), d);
    if BroadcastKeepsMask(ss.dims, MShape(src), d, w) {
      BroadcastMaskExact(src, d, ss, w);
    } else if IsExactMask(e, Parse(e).value, w) {
      forall x | InBounds(x, d) ensures InPrefix(x, dims, w) <==> InPrefix(Clamp(x, MShape(src)), ss.dims, w) {
        assert InBounds(Clamp(x, MShape(src)), MShape(src)) && InBounds(x, MShape(e));
      }
      BroadcastMaskLimit(ss.dims, MShape(src), d, w);
    }
  }

  /** A constant mask is parsed to its whole shape, which is right just when the constant is true. */
  lemma ConstantMaskLimit(b: bool, d: seq<nat>, w: World)
    requires |d| > 0 && PositiveDims(d)
    ensures var st := Parse(MBoolConst(b, d)).value;
            |st.dims| == |d| &&
            ((forall x :: InBounds(x, d) ==> (MEval(MBoolConst(b, d), w, x) != 0 <==> InPrefix(x, st.dims, w))) <==> b)
  {
    var st := Parse(MBoolConst(b, d)).value;
    var zero: seq<nat> := seq(|d|, j => 0);
    assert InBounds(zero, d);
    forall x | InBounds(x, d) ensures InPrefix(x, st.dims, w) {
    }
  }

  /** A mask and a constant one: every bound is cut off at the size of dimension 0. */
  predicate CutOff(st: MState, dims: seq<Idx>, d: seq<nat>, w: World)
    requires |d| > 0
  {
    && st.IsMask() && |st.dims| == |dims|
    && forall i :: 0 <= i < |dims| ==> EvalO(st.dims[i], w) == MinInt(d[0], EvalO(dims[i], w))
  }

  /** The bounds were there before, or nothing is enabled. */
  predicate FitsFirst(b: bool, dims: seq<Idx>, d: seq<nat>, w: World)
    requires |d| > 0
  {
    (exists i :: 0 <= i < |dims| && EvalO(dims[i], w) <= 0) ||
    (b && forall i :: 0 <= i < |dims| ==> EvalO(dims[i], w) <= d[0])
  }

  lemma MinimumValue(a: Idx, b: Idx, w: World)
    ensures EvalO(MinOFRs(a, b), w) == MinInt(EvalO(a, w), EvalO(b, w))
  {
    OperandValue(a, w, 0);
    OperandValue(b, w, 0);
  }

  lemma ConstantConjunctionParsed(b: bool, d: seq<nat>, m: MExpr, ms: MState, w: World, left: bool)
    requires |d| > 0 && Parse(m) == Some(ms) && ms.IsMask()
    ensures var e := if left then MAnd(MBoolConst(b, d), m) else MAnd(m, MBoolConst(b, d));
            Parse(e).Some? && CutOff(Parse(e).value, ms.dims, d, w)
  {
    var e := if left then MAnd(MBoolConst(b, d), m) else MAnd(m, MBoolConst(b, d));
    var constant := NO_STATE.(scalar := Some(Attr(if b then -1 else 0)), dims := Attrs(d));
    assert Parse(MBoolConst(b, d)) == Some(constant) && |constant.dims| == |d|;
    assert Parse(e) == if left then MinStateScalar(constant, ms) else MinStateScalar(ms, constant);
    var st := Parse(e).value;
    forall i | 0 <= i < |ms.dims| ensures EvalO(st.dims[i], w) == MinInt(d[0], EvalO(ms.dims[i], w)) {
      MinimumValue(Attr(d[0]), ms.dims[i], w);
      MinimumValue(ms.dims[i], Attr(d[0]), w);
    }
  }

  lemma CutOffPrefix(b: bool, x: seq<nat>, dims: seq<Idx>, st: MState, d: seq<nat>, w: World)
    requires |d| > 0 && CutOff(st, dims, d, w) && |x| == |dims| && FitsFirst(b, dims, d, w)
    ensures InPrefix(x, st.dims, w) <==> b && InPrefix(x, dims, w)
  {
    if i :| 0 <= i < |dims| && EvalO(dims[i], w) <= 0 {
      assert !(x[i] < EvalO(dims[i], w)) && !(x[i] < EvalO(st.dims[i], w));
    }
  }

  /**
   So the conjunction of an exactly parsed mask with a constant one, on either side, is exact just when the mask is
   empty, or the constant is true and no bound exceeds the size of dimension 0.
   */
  lemma ConstantConjunctionLimit(b: bool, d: seq<nat>, m: MExpr, ms: MState, w: World, left: bool)
    requires MWellTyped(MAnd(MBoolConst(b, d), m)) && Parse(m) == Some(ms) && IsExactMask(m, ms, w)
    ensures var e := if left then MAnd(MBoolConst(b, d), m) else MAnd(m, MBoolConst(b, d));
            Parse(e).Some? && (IsExactMask(e, Parse(e).value, w) <==> FitsFirst(b, ms.dims, d, w))
  {
    var e := if left then MAnd(MBoolConst(b, d), m) else MAnd(m, MBoolConst(b, d));
    ConstantConjunctionParsed(b, d, m, ms, w, left);
    var st := Parse(e).value;
    if FitsFirst(b, ms.dims, d, w) {
      forall x | InBounds(x, d) ensures MEval(e, w, x) != 0 <==> InPrefix(x, st.dims, w) {
        CutOffPrefix(b, x, ms.dims, st, d, w);
      }
    } else {
      CutOffWrong(b, d, m, ms, st, e, w);
    }
  }

  lemma CutOffWrong(b: bool, d: seq<nat>, m: MExpr, ms: MState, st: MState, e: MExpr, w: World)
    requires |d| > 0 && PositiveDims(d) && MShape(m) == MShape(e) == d && IsExactMask(m, ms, w)
    requires CutOff(st, ms.dims, d, w) && !FitsFirst(b, ms.dims, d, w)
    requires forall x :: MEval(e, w, x) != 0 <==> b && MEval(m, w, x) != 0
    ensures !IsExactMask(e, st, w)
  {
    var zero: seq<nat> := seq(|d|, j => 0);
    assert InBounds(zero, d) && InPrefix(zero, ms.dims, w) && InPrefix(zero, st.dims, w);
    if b {
      var i :| 0 <= i < |d| && EvalO(ms.dims[i], w) > d[0];
      var x := zero[i := d[0]];
      assert InBounds(x, d) && InPrefix(x, ms.dims, w) && MEval(m, w, x) != 0;
      assert !(x[i] < EvalO(st.dims[i], w));
    }
  }

  /** A lower bound of zero is taken to hold, which is right just when the range starts there or above. */
  lemma LowerBoundLimit(l: MExpr, r: MExpr, ls: MState, rs: MState, st: MState, w: World, d: nat)
    requires IsRangeAlong(l, ls, w, d) && IsScalarState(r, rs, w) && MShape(l) == MShape(r)
    requires PositiveDims(MShape(l)) && CmpStates(Sge, ls, rs) == Some(st)
    ensures IsExactMask(MCmp(Sge, l, r), st, w) <==> EvalO(ls.start.value, w) >= 0
  {
    if EvalO(ls.start.value, w) >= 0 {
      RangeCmpExact(Sge, l, r, ls, rs, st, w, d);
    } else {
      CmpDimUnique(ls.dims, 0, -1, d);
      BelowZeroEnabled(l, r, ls, rs, st, w, d);
    }
  }

  lemma BelowZeroEnabled(l: MExpr, r: MExpr, ls: MState, rs: MState, st: MState, w: World, d: nat)
    requires IsRangeAlong(l, ls, w, d) && IsScalarState(r, rs, w) && MShape(l) == MShape(r) && PositiveDims(MShape(l))
    requires st.dims == ls.dims && EvalO(ls.start.value, w) < 0 && HasConstZero(rs.scalar.value)
    ensures !IsExactMask(MCmp(Sge, l, r), st, w)
  {
    var zero: seq<nat> := seq(|MShape(l)|, j => 0);
    assert InBounds(zero, MShape(l)) && InBounds(zero, MShape(r)) && InBounds(zero, MShape(MCmp(Sge, l, r)));
    assert InPrefix(zero, st.dims, w);
  }

  /** An unsigned upper bound is taken for a signed one, which is right just when what is compared has one sign. */
  lemma UnsignedBoundLimit(l: MExpr, r: MExpr, ls: MState, rs: MState, st: MState, w: World, d: nat)
    requires IsRangeAlong(l, ls, w, d) && IsScalarState(r, rs, w) && MShape(l) == MShape(r)
    requires PositiveDims(MShape(l)) && CmpStates(Ult, ls, rs) == Some(st)
    ensures IsExactMask(MCmp(Ult, l, r), st, w)
        <==> OneSign(EvalO(ls.start.value, w), EvalO(ls.end.value, w), EvalO(rs.scalar.value, w))
  {
    var e := MCmp(Ult, l, r);
    var start, n, v := EvalO(ls.start.value, w), MShape(l)[d], EvalO(rs.scalar.value, w);
    if OneSign(start, start + n, v) {
      RangeCmpExact(Ult, l, r, ls, rs, st, w, d);
    } else {
      // At the first element the signed reading says yes and the unsigned one no, or at the last the other way round.
      var k := if start < 0 <= v then 0 else n - 1;
      var x := seq(|MShape(e)|, i => if i == d then k else 0);
      CmpDimUnique(ls.dims, 0, -1, d);
      assert ls.dims[d] == Attr(n);
      var size := CmpSize(Ult, ls, rs, d).value;
      assert st.dims == ls.dims[d := size];
      CmpSizeValue(Ult, ls, rs, size, w);
      ClampedCount(start, n, v, k);
      assert InBounds(x, MShape(e)) && InBounds(x, MShape(l)) && InBounds(x, MShape(r));
      assert x[d] == k && st.dims[d] == size;
      assert InPrefix(x, st.dims, w) <==> k < EvalO(size, w) by {
        assert forall i :: 0 <= i < |x| && i != d ==> x[i] < EvalO(st.dims[i], w);
      }
    }
  }

  /** A range of one element is never compared, which is right just when the element is below the bound. */
  lemma UnitRangeLimit(s: int, v: int, w: World)
    ensures var e := MCmp(Slt, MRange(s, s + 1), MConst(v, [1]));
            MWellTyped(e) && Parse(e).Some? && (IsExactMask(e, Parse(e).value, w) <==> s < v)
  {
    var e := MCmp(Slt, MRange(s, s + 1), MConst(v, [1]));
    var ls, rs := Parse(MRange(s, s + 1)).value, Parse(MConst(v, [1])).value;
    assert CmpDim(ls.dims, 0, -1) == CmpDim(ls.dims, 1, -1);
    assert Parse(e) == CmpStates(Slt, ls, rs);
    var st := Parse(e).value;
    assert st.dims == ls.dims;
    forall x | InBounds(x, [1]) ensures x == [0] {
    }
    assert InBounds([0], [1]);
    assert InPrefix([0], st.dims, w);
    assert MEval(e, w, [0]) == if s < v then 1 else 0;
  }
}
