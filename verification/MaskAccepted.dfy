/** Which masks are parsed (lib/Analysis/MaskAnalysis.cpp), read off the expression. */
module MaskAccepted {
  import opened Wrappers
  import opened Ir
  import opened Folding
  import opened MaskStates

  /** What an expression is taken for: one number, a shifted range, or a mask. */
  datatype Kind = Constant | Shifted | Mask

  /** The dimensions of more than one element. */
  function Moving(shape: seq<nat>): nat {
    if shape == [] then 0 else (if shape[0] == 1 then 0 else 1) + Moving(shape[1..])
  }

  /** A literal zero tensor. */
  predicate LiteralZero(e: MExpr) {
    match e
    case MConst(n, _) => n == 0
    case MExpand(src, _) => LiteralZero(src)
    case MBroadcast(src, _) => LiteralZero(src)
    case MExtSI(src) => LiteralZero(src)
    case _ => false
  }

  /** Constant masks are not looked at here: see MaskExact.ConstantMaskLimit. */
  predicate NoConstantMask(e: MExpr) {
    match e
    case MBoolConst(_, _) => false
    case MSplat(src, _) => NoConstantMask(src)
    case MAdd(l, r) => NoConstantMask(l) && NoConstantMask(r)
    case MCmp(_, l, r) => NoConstantMask(l) && NoConstantMask(r)
    case MAnd(l, r) => NoConstantMask(l) && NoConstantMask(r)
    case MExpand(src, _) => NoConstantMask(src)
    case MBroadcast(src, _) => NoConstantMask(src)
    case MExtSI(src) => NoConstantMask(src)
    case _ => true
  }

  /** How an expression is parsed, if it is. */
  function KindOf(e: MExpr): Option<Kind> {
    match e
    case MScalar(_) => Some(Constant)
    case MConst(_, _) => Some(Constant)
    case MBoolConst(_, _) => None
    case MRange(_, _) => Some(Shifted)
    case MSplat(_, _) => Some(Constant)
    case MBoolSplat(_, _) => Some(Mask)
    case MAdd(l, r) =>
      if (KindOf(l), KindOf(r)) in {(Some(Constant), Some(Shifted)), (Some(Shifted), Some(Constant))} then Some(Shifted)
      else None
    case MCmp(p, l, r) => if Compares(p, l, KindOf(l), r, KindOf(r)) then Some(Mask) else None
    case MAnd(l, r) => if KindOf(l) == KindOf(r) == Some(Mask) then Some(Mask) else None
    case MExpand(src, _) => KindOf(src)
    case MBroadcast(src, _) => KindOf(src)
    case MExtSI(src) => KindOf(src)
    case MOther(_) => None
  }

  /**
   The comparisons that are parsed: below, signed or unsigned, with at most one moving dimension; at or above a literal
   zero, with exactly one; and two constants of one element.
   */
  predicate Compares(p: Pred, l: MExpr, lk: Option<Kind>, r: MExpr, rk: Option<Kind>) {
    && p in {Slt, Ult, Sge} && rk == Some(Constant) && (p == Sge ==> LiteralZero(r))
    && ((lk == Some(Constant) && Moving(MShape(l)) == 0) ||
        (lk == Some(Shifted) && Moving(MShape(l)) <= 1 && (p == Sge ==> Moving(MShape(l)) == 1)))
  }

  predicate FormedAs(e: MExpr, k: Kind, st: MState) {
    match k
    case Constant =>
      && st.scalar.Some? && st.start.None? && st.end.None? && st.dims == Attrs(MShape(e))
      && (HasConstZero(st.scalar.value) <==> LiteralZero(e))
    case Shifted => st.scalar.None? && st.start.Some? && st.end.Some? && st.dims == Attrs(MShape(e))
    case Mask => st.IsMask() && |st.dims| == |MShape(e)|
  }

  predicate ParsedAs(e: MExpr) {
    && (Parse(e).Some? <==> KindOf(e).Some?)
    && (Parse(e).Some? ==> FormedAs(e, KindOf(e).value, Parse(e).value))
    && (KindOf(e) == Some(Mask) ==> IsMaskExpr(e)) && (KindOf(e).Some? && IsMaskExpr(e) ==> KindOf(e) == Some(Mask))
  }

  /** The dimension that is compared. */
  lemma {:induction false} CompareDimension(shape: seq<nat>, i: nat, found: int)
    requires i <= |shape| && -1 <= found
    ensures CmpDim(Attrs(shape), i, found).Some? <==> Moving(shape[i..]) <= if found == -1 then 1 else 0
    ensures CmpDim(Attrs(shape), i, found).Some? ==>
              var d := CmpDim(Attrs(shape), i, found).value;
              if Moving(shape[i..]) == 0 then d == found else i <= d < |shape|
    decreases |shape| - i
  {
    if i < |shape| {
      assert shape[i..][1..] == shape[i + 1..];
      CompareDimension(shape, i + 1, found);
      if shape[i] != 1 && found == -1 { CompareDimension(shape, i + 1, i); }
    }
  }

  lemma AddParsed(l: MExpr, r: MExpr)
    requires MWellTyped(MAdd(l, r)) && ParsedAs(l) && ParsedAs(r)
    ensures ParsedAs(MAdd(l, r))
  {
  }

  /** A comparison of two constants. */
  lemma ConstantsCompared(p: Pred, l: MExpr, r: MExpr, ls: MState, rs: MState)
    requires FormedAs(l, Constant, ls) && FormedAs(r, Constant, rs) && MShape(l) != []
    ensures CmpStates(p, ls, rs).Some? <==> (p == Sge ==> LiteralZero(r)) && Moving(MShape(l)) == 0
    ensures CmpStates(p, ls, rs).Some? ==> FormedAs(MCmp(p, l, r), Mask, CmpStates(p, ls, rs).value)
  {
    CompareDimension(MShape(l), 0, 0);
    assert MShape(l)[0..] == MShape(l);
  }

  /** A range compared with a constant. */
  lemma RangeCompared(p: Pred, l: MExpr, r: MExpr, ls: MState, rs: MState)
    requires FormedAs(l, Shifted, ls) && FormedAs(r, Constant, rs) && MShape(l) != [] && p in {Slt, Ult, Sge}
    ensures CmpStates(p, ls, rs).Some?
       <==> Moving(MShape(l)) <= 1 && (p == Sge ==> LiteralZero(r) && Moving(MShape(l)) == 1)
    ensures CmpStates(p, ls, rs).Some? ==> FormedAs(MCmp(p, l, r), Mask, CmpStates(p, ls, rs).value)
  {
    CompareDimension(MShape(l), 0, -1);
    assert MShape(l)[0..] == MShape(l);
  }

  /** Nothing is compared with a range. */
  lemma RangeRefused(p: Pred, r: MExpr, ls: MState, rs: MState)
    requires FormedAs(r, Shifted, rs) && p in {Slt, Ult, Sge}
    ensures CmpStates(p, ls, rs).None?
  {
  }

  lemma StatesCompared(p: Pred, l: MExpr, r: MExpr, lk: Kind, rk: Kind, ls: MState, rs: MState)
    requires p in {Slt, Ult, Sge} && MShape(l) != [] && lk != Mask && rk != Mask
    requires FormedAs(l, lk, ls) && FormedAs(r, rk, rs)
    ensures CmpStates(p, ls, rs).Some? <==> Compares(p, l, Some(lk), r, Some(rk))
    ensures CmpStates(p, ls, rs).Some? ==> FormedAs(MCmp(p, l, r), Mask, CmpStates(p, ls, rs).value)
  {
    if rk == Shifted {
      RangeRefused(p, r, ls, rs);
    } else if lk == Constant {
      ConstantsCompared(p, l, r, ls, rs);
    } else {
      RangeCompared(p, l, r, ls, rs);
    }
  }

  lemma CompareParsed(p: Pred, l: MExpr, r: MExpr)
    requires MWellTyped(MCmp(p, l, r)) && ParsedAs(l) && ParsedAs(r)
    ensures ParsedAs(MCmp(p, l, r))
  {
    if p in {Slt, Ult, Sge} && KindOf(l).Some? && KindOf(r).Some? {
      StatesCompared(p, l, r, KindOf(l).value, KindOf(r).value, Parse(l).value, Parse(r).value);
    }
  }

  lemma AndParsed(l: MExpr, r: MExpr)
    requires MWellTyped(MAnd(l, r)) && ParsedAs(l) && ParsedAs(r) && (KindOf(l).Some? && KindOf(r).Some?)
    ensures ParsedAs(MAnd(l, r))
  {
  }

  lemma ExpandParsed(src: MExpr, axis: nat)
    requires MWellTyped(MExpand(src, axis)) && ParsedAs(src)
    ensures ParsedAs(MExpand(src, axis))
  {
    var shape := MShape(src);
    var wide := Insert(Attrs(shape), axis, Attr(1));
    forall i | 0 <= i <= |shape| ensures wide[i] == Attrs(Insert(shape, axis, 1))[i] {
    }
    assert wide == Attrs(Insert(shape, axis, 1));
  }

  lemma BroadcastParsed(src: MExpr, d: seq<nat>)
    requires MWellTyped(MBroadcast(src, d)) && ParsedAs(src) && PositiveDims(MShape(src))
    ensures ParsedAs(MBroadcast(src, d))
  {
    assert BroadcastDims(Attrs(MShape(src)), MShape(src), d) == Attrs(d);
  }

  /** A mask expression is parsed exactly when it has a kind, and to a state of that kind. */
  lemma {:induction false} ParseAccepted(e: MExpr)
    requires MWellTyped(e) && NoConstantMask(e)
    ensures ParsedAs(e) && PositiveDims(MShape(e))
  {
    match e
    case MSplat(src, d) =>
      ParseAccepted(src);
      assert [] + Attrs(d) == Attrs(d);
    case MAdd(l, r) =>
      ParseAccepted(l);
      ParseAccepted(r);
      AddParsed(l, r);
    case MCmp(p, l, r) =>
      ParseAccepted(l);
      ParseAccepted(r);
      CompareParsed(p, l, r);
    case MAnd(l, r) =>
      ParseAccepted(l);
      ParseAccepted(r);
      if KindOf(l).Some? && KindOf(r).Some? { AndParsed(l, r); }
    case MExpand(src, axis) =>
      ParseAccepted(src);
      ExpandParsed(src, axis);
    case MBroadcast(src, d) =>
      ParseAccepted(src);
      BroadcastParsed(src, d);
    case MExtSI(src) => ParseAccepted(src);
    case _ =>
  }
}
