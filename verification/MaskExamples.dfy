/** Masks that are accepted and parsed to other elements than they enable (lib/Analysis/MaskAnalysis.cpp). */
module MaskExamples {
  import opened Wrappers
  import opened Ir
  import opened Folding
  import opened MaskStates
  import opened MaskExact

  // offs = range(0, 4) - 1
  const SHIFTED := MAdd(MRange(0, 4), MConst(-1, [4]))

  lemma ShiftedState(w: World) returns (st: MState)
    ensures Parse(SHIFTED) == Some(st) && IsRangeAlong(SHIFTED, st, w, 0)
    ensures EvalO(st.start.value, w) == -1 && EvalO(st.end.value, w) == 3
  {
    st := Parse(SHIFTED).value;
    AddValue(Attr(0), Attr(-1), w, 0);
    AddValue(Attr(4), Attr(-1), w, 0);
  }

  lemma ConstState(n: int, w: World)
    ensures Parse(MConst(n, [4])).Some? && IsScalarState(MConst(n, [4]), Parse(MConst(n, [4])).value, w)
  {
  }

  /** offs >= 0 is taken to enable every element, the one at -1 included. */
  lemma LowerBoundBreaks(w: World)
    ensures var e := MCmp(Sge, SHIFTED, MConst(0, [4]));
            MWellTyped(e) && Parse(e).Some? && !IsExactMask(e, Parse(e).value, w)
  {
    var ls := ShiftedState(w);
    var rs := Parse(MConst(0, [4])).value;
    ConstState(0, w);
    CmpDimUnique(ls.dims, 0, -1, 0);
    var st := CmpStates(Sge, ls, rs).value;
    LowerBoundLimit(SHIFTED, MConst(0, [4]), ls, rs, st, w, 0);
  }

  /** Unsigned, offs < 2 does not hold at -1; it is taken to. */
  lemma UnsignedBoundBreaks(w: World)
    ensures var e := MCmp(Ult, SHIFTED, MConst(2, [4]));
            MWellTyped(e) && Parse(e).Some? && !IsExactMask(e, Parse(e).value, w)
  {
    var ls := ShiftedState(w);
    var rs := Parse(MConst(2, [4])).value;
    ConstState(2, w);
    CmpDimUnique(ls.dims, 0, -1, 0);
    var st := CmpStates(Ult, ls, rs).value;
    UnsignedBoundLimit(SHIFTED, MConst(2, [4]), ls, rs, st, w, 0);
  }

  /** A splatted condition of one element loses the condition when it is broadcast: right only if that holds. */
  lemma BroadcastMaskBreaks(c: Val, n: nat, w: World)
    requires n >= 2
    ensures var e := MBroadcast(MBoolSplat(c, [1]), [n]);
            MWellTyped(e) && Parse(e).Some? && (IsExactMask(e, Parse(e).value, w) <==> Eval(c, w) != 0)
  {
    ConditionLost(c, [1], [n], w);
  }

  lemma ConditionLost(c: Val, src: seq<nat>, dst: seq<nat>, w: World)
    requires |src| == |dst| == 1 && src[0] == 1 && dst[0] >= 2
    ensures var e := MBroadcast(MBoolSplat(c, src), dst);
            MWellTyped(e) && Parse(e).Some? && (IsExactMask(e, Parse(e).value, w) <==> Eval(c, w) != 0)
  {
    var ss := NO_STATE.(dims := BoolSplatDims(c, src));
    BoolSplatExact(c, src, w);
    BroadcastParseLimit(MBoolSplat(c, src), dst, ss, w);
    SelectedSize(c, w);
    assert ss.dims[0] == V(Select(c, ConstV(1), ConstV(0)));
    OneDimension(ss.dims, src, dst, w);
  }

  lemma OneDimension(dims: seq<Idx>, src: seq<nat>, dst: seq<nat>, w: World)
    requires |dims| == |src| == |dst| == 1 && src[0] < dst[0]
    ensures BroadcastKeepsMask(dims, src, dst, w) <==> EvalO(dims[0], w) >= 1
  {
  }

  lemma SelectedSize(c: Val, w: World)
    ensures EvalO(V(Select(c, ConstV(1), ConstV(0))), w) == if Eval(c, w) != 0 then 1 else 0
  {
    assert Eval(ConstV(1), w) == 1 && Eval(ConstV(0), w) == 0;
  }

  /** true & splat(c) on two rows of four: the columns are cut off at two, so it is right only if c does not hold. */
  lemma ConstantConjunctionBreaks(c: Val, w: World)
    ensures var e := MAnd(MBoolConst(true, [2, 4]), MBoolSplat(c, [2, 4]));
            MWellTyped(e) && Parse(e).Some? && (IsExactMask(e, Parse(e).value, w) <==> Eval(c, w) == 0)
  {
    ColumnsCutOff(c, [2, 4], w);
  }

  lemma ColumnsCutOff(c: Val, d: seq<nat>, w: World)
    requires |d| == 2 && 0 < d[0] < d[1]
    ensures var e := MAnd(MBoolConst(true, d), MBoolSplat(c, d));
            MWellTyped(e) && Parse(e).Some? && (IsExactMask(e, Parse(e).value, w) <==> Eval(c, w) == 0)
  {
    var ms := NO_STATE.(dims := BoolSplatDims(c, d));
    BoolSplatExact(c, d, w);
    ConstantConjunctionLimit(true, d, MBoolSplat(c, d), ms, w, true);
    SelectedFits(c, d, w);
  }

  lemma SelectedFits(c: Val, d: seq<nat>, w: World)
    requires |d| == 2 && 0 < d[0] < d[1]
    ensures FitsFirst(true, BoolSplatDims(c, d), d, w) <==> Eval(c, w) == 0
  {
    var dims := BoolSplatDims(c, d);
    SelectedBound(c, d[0], w);
    SelectedBound(c, d[1], w);
    assert dims == [V(Select(c, ConstV(d[0]), ConstV(0))), V(Select(c, ConstV(d[1]), ConstV(0)))];
    if Eval(c, w) == 0 {
      assert EvalO(dims[0], w) <= 0;
    } else {
      assert EvalO(dims[1], w) > d[0] && EvalO(dims[0], w) > 0;
    }
  }

  lemma SelectedBound(c: Val, n: nat, w: World)
    ensures EvalO(V(Select(c, ConstV(n), ConstV(0))), w) == if Eval(c, w) != 0 then n else 0
  {
    assert Eval(ConstV(n), w) == n && Eval(ConstV(0), w) == 0;
  }
}
