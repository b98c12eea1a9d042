/**
 Limits of pointer analysis that can be checked (lib/AnalysisStructured/PtrAnalysis.cpp). In general they are tests on
 the states found on the way; without remainders they come down to one that can be read off the expression: no
 make_range of a single element.
 */
module PtrPlain {
  import opened Wrappers
  import opened Ir
  import opened Folding
  import opened PtrStates
  import opened PtrSoundness

  const PLAIN := Config(false, false)

  /** Built without arith.remsi, from ranges of at least two elements. */
  predicate RemainderFree(e: Expr) {
    match e
    case Range(s, t) => t - s >= 2
    case Splat(src, _) => RemainderFree(src)
    case ExpandDims(src, _) => RemainderFree(src)
    case Broadcast(src, _) => RemainderFree(src)
    case ExtSI(src) => RemainderFree(src)
    case Add(l, r) => RemainderFree(l) && RemainderFree(r)
    case Sub(l, r) => RemainderFree(l) && RemainderFree(r)
    case Mul(l, r) => RemainderFree(l) && RemainderFree(r)
    case AddPtr(p, off) => RemainderFree(p) && RemainderFree(off)
    case Rem(_, _) => false
    case _ => true
  }

  predicate Unwrapped(st: PState)
    requires st.Valid()
  {
    forall i :: 0 <= i < st.Rank() ==> st.shape[i] == Attr(0)
  }

  predicate KnownUnwrapped(known: Known) {
    KnownValid(known) && forall e :: e in known ==> Unwrapped(known[e])
  }

  /** The carried tensors of indices, which the gathering walk looks up. */
  predicate CarriedUnwrapped(known: Known) {
    KnownValid(known) && forall e :: e in known && e.IterArg? && !IsPtr(e) ==> Unwrapped(known[e])
  }

  /** Where nothing wraps around: without remainders, or while offsets are gathered, as remainders are then tensors. */
  predicate NothingWraps(e: Expr, c: Config, known: Known) {
    if c.unstructured then CarriedUnwrapped(known) else RemainderFree(e) && KnownUnwrapped(known)
  }

  lemma {:induction false} AddShapesUnwrapped(a: PState, b: PState, i: nat)
    requires a.Valid() && b.Valid() && a.Rank() == b.Rank() && i <= a.Rank() && Unwrapped(a)
    ensures AddShapes(a, b, i).Some? && forall j :: 0 <= j < a.Rank() - i ==> AddShapes(a, b, i).value[j] == Attr(0)
    decreases a.Rank() - i
  {
    if i < a.Rank() { AddShapesUnwrapped(a, b, i + 1); }
  }

  lemma AddUnwrapped(l: PState, r: PState, u: bool)
    requires l.Valid() && r.Valid() && Unwrapped(l) && Unwrapped(r)
    ensures AddState(l, r, u).Some? ==> Unwrapped(AddState(l, r, u).value)
  {
    if l.Rank() == r.Rank() {
      AddShapesUnwrapped(l, r, 0);
      AddShapesUnwrapped(r, l, 0);
    }
  }

  lemma NothingGathered(l: Expr, r: Expr, ls: PState, rs: PState, c: Config)
    requires ls.Valid() && rs.Valid() && Unwrapped(ls) && Unwrapped(rs)
    ensures GatherBoth(l, r, ls, rs, c) == Some((ls, rs))
  {
    assert !ls.HasModulo() && !rs.HasModulo();
  }

  lemma MulUnwrapped(l: PState, r: PState, u: bool)
    requires l.Valid() && r.Valid() && Unwrapped(l) && Unwrapped(r)
    ensures MulState(l, r, u).Some? ==> Unwrapped(MulState(l, r, u).value)
  {
    if MulState(l, r, u).Some? {
      var st := MulState(l, r, u).value;
      var (a, b) := MulSides(l, r);
      forall i | 0 <= i < st.Rank() ensures st.shape[i] == Attr(0) {
        assert st.shape[i] == MulDim(a.offsets[i], a.strides[i], a.shape[i], b.scalar.value, u).2;
      }
    }
  }

  lemma SumUnwrapped(l: Expr, r: Expr, ls: PState, rs: PState, c: Config)
    requires ls.Valid() && rs.Valid() && Unwrapped(ls) && Unwrapped(rs)
    ensures AddOperands(l, r, ls, rs, c).Some? ==> Unwrapped(AddOperands(l, r, ls, rs, c).value)
  {
    NothingGathered(l, r, ls, rs, c);
    AddUnwrapped(ls, rs, c.unstructured);
  }

  lemma ProductUnwrapped(l: Expr, r: Expr, ls: PState, rs: PState, c: Config)
    requires ls.Valid() && rs.Valid() && Unwrapped(ls) && Unwrapped(rs)
    ensures MulOperands(l, r, ls, rs, c).Some? ==> Unwrapped(MulOperands(l, r, ls, rs, c).value)
  {
    NothingGathered(l, r, ls, rs, c);
    MulUnwrapped(ls, rs, c.unstructured);
  }

  /** Nothing visitOperand finds for the expression wraps around. */
  ghost predicate VisitUnwrapped(e: Expr, c: Config, known: Known)
    requires KnownValid(known)
  {
    Visit(e, c, known).Some? ==> Unwrapped(Visit(e, c, known).value)
  }

  predicate PlainCase(e: Expr, c: Config, known: Known) {
    NothingWraps(e, c, known) && (c.unstructured || e !in known)
  }

  lemma {:induction false} AddUnwrappedCase(l: Expr, r: Expr, c: Config, known: Known)
    requires PlainCase(Add(l, r), c, known)
    ensures VisitUnwrapped(Add(l, r), c, known)
    decreases Add(l, r), 0
  {
    StaysUnwrapped(l, c, known);
    StaysUnwrapped(r, c, known);
    if Visit(l, c, known).Some? && Visit(r, c, known).Some? {
      SumUnwrapped(l, r, Visit(l, c, known).value, Visit(r, c, known).value, c);
    }
  }

  lemma {:induction false} SubUnwrappedCase(l: Expr, r: Expr, c: Config, known: Known)
    requires PlainCase(Sub(l, r), c, known)
    ensures VisitUnwrapped(Sub(l, r), c, known)
    decreases Sub(l, r), 0
  {
    StaysUnwrapped(l, c, known);
    StaysUnwrapped(r, c, known);
    if Visit(l, c, known).Some? && Visit(r, c, known).Some? {
      AddUnwrapped(Visit(l, c, known).value, NegState(Visit(r, c, known).value), c.unstructured);
    }
  }

  lemma {:induction false} MulUnwrappedCase(l: Expr, r: Expr, c: Config, known: Known)
    requires PlainCase(Mul(l, r), c, known)
    ensures VisitUnwrapped(Mul(l, r), c, known)
    decreases Mul(l, r), 0
  {
    StaysUnwrapped(l, c, known);
    StaysUnwrapped(r, c, known);
    if Visit(l, c, known).Some? && Visit(r, c, known).Some? {
      ProductUnwrapped(l, r, Visit(l, c, known).value, Visit(r, c, known).value, c);
    }
  }

  lemma {:induction false} AddPtrUnwrappedCase(p: Expr, off: Expr, c: Config, known: Known)
    requires PlainCase(AddPtr(p, off), c, known)
    ensures VisitUnwrapped(AddPtr(p, off), c, known)
    decreases AddPtr(p, off), 0
  {
    StaysUnwrapped(p, c, known);
    StaysUnwrapped(off, c, known);
    if Visit(p, c, known).Some? && Visit(off, c, known).Some? {
      AddUnwrapped(Visit(p, c, known).value, Visit(off, c, known).value, c.unstructured);
    }
  }

  lemma {:induction false} ShapeUnwrappedCase(e: Expr, src: Expr, c: Config, known: Known)
    requires PlainCase(e, c, known) && (e.Splat? || e.ExpandDims? || e.Broadcast? || e.ExtSI?) && src == e.src
    ensures VisitUnwrapped(e, c, known)
    decreases e, 0
  {
    StaysUnwrapped(src, c, known);
    if Visit(src, c, known).Some? && e.ExpandDims? { ExpandUnwrapped(Visit(src, c, known).value, e.axis); }
  }

  lemma ExpandUnwrapped(st: PState, axis: nat)
    requires st.Valid() && Unwrapped(st)
    ensures ExpandState(st, axis).Some? ==> Unwrapped(ExpandState(st, axis).value)
  {
  }

  /** Without remainders, and in the gathering walk, no dimension ever wraps around. */
  lemma {:induction false} StaysUnwrapped(e: Expr, c: Config, known: Known)
    requires NothingWraps(e, c, known)
    ensures VisitUnwrapped(e, c, known)
    decreases e, 1
  {
    if c.unstructured || e !in known {
      match e
      case Splat(src, _) => ShapeUnwrappedCase(e, src, c, known);
      case ExpandDims(src, _) => ShapeUnwrappedCase(e, src, c, known);
      case Broadcast(src, _) => ShapeUnwrappedCase(e, src, c, known);
      case ExtSI(src) => ShapeUnwrappedCase(e, src, c, known);
      case Add(l, r) => AddUnwrappedCase(l, r, c, known);
      case Sub(l, r) => SubUnwrappedCase(l, r, c, known);
      case Mul(l, r) => MulUnwrappedCase(l, r, c, known);
      case AddPtr(p, off) => AddPtrUnwrappedCase(p, off, c, known);
      case _ =>
    }
  }

  /** So the gathering walk never meets an operand that wraps around beside a gathered one. */
  lemma NothingMixed(l: Expr, r: Expr, c: Config, known: Known)
    requires c.unstructured && CarriedUnwrapped(known)
    requires Visit(l, c, known).Some? && Visit(r, c, known).Some?
    ensures NoMixedModulo(Visit(l, c, known).value, Visit(r, c, known).value)
  {
    StaysUnwrapped(l, c, known);
    StaysUnwrapped(r, c, known);
  }

  // ------------------------------------------------------------------
  // Limits that look at states only
  // ------------------------------------------------------------------

  /** As PtrSoundness.DimAddable, with a stride that is a constant zero. */
  predicate DimChecked(lo: OFR, ls: OFR, lb: OFR, ro: OFR, rs: OFR, rb: OFR, unstructured: bool) {
    if !lo.T? && !ro.T? then
      && (lb != Attr(0) ==> HasConstZero(ro) && HasConstZero(rs))
      && (rb != Attr(0) ==> HasConstZero(lo) && HasConstZero(ls))
    else unstructured ==> GatherSide(lo, ls, lb) && GatherSide(ro, rs, rb)
  }

  predicate AddChecked(l: PState, r: PState, unstructured: bool)
    requires l.Valid() && r.Valid()
  {
    l.Rank() == r.Rank() ==>
      forall i :: 0 <= i < l.Rank() ==>
        DimChecked(l.offsets[i], l.strides[i], l.shape[i], r.offsets[i], r.strides[i], r.shape[i], unstructured)
  }

  predicate RemChecked(st: PState, e: Expr)
    requires st.Valid()
  {
    && st.scalar.None?
    && forall i :: 0 <= i < st.Rank() && i < |ShapeOf(e)| && ShapeOf(e)[i] == 1 && i != RemTarget(st, e) ==>
         HasConstZero(st.offsets[i])
  }

  predicate SumChecked(l: Option<PState>, r: Option<PState>, c: Config)
    requires ValidState(l) && ValidState(r)
  {
    l.Some? && r.Some? ==>
      AddChecked(l.value, r.value, c.unstructured) && (c.unstructured ==> NoMixedModulo(l.value, r.value))
  }

  predicate DifferenceChecked(l: Option<PState>, r: Option<PState>, c: Config)
    requires ValidState(l) && ValidState(r)
  {
    l.Some? && r.Some? ==>
      AddChecked(l.value, NegState(r.value), c.unstructured) && (c.unstructured ==> r.value.Structured())
  }

  /**
   PtrSoundness.Guard, remainders included, as something to look up in the states found on the way: beside a
   dimension that wraps around, and in the other dimension of a remainder, there is a constant zero.
   */
  predicate Checked(e: Expr, c: Config, known: Known)
    requires KnownValid(known)
  {
    (!c.unstructured && e in known) ||
    match e
    case Range(s, t) => t - s >= 2
    case Splat(src, _) => Checked(src, c, known)
    case ExpandDims(src, _) => Checked(src, c, known)
    case Broadcast(src, _) => Checked(src, c, known)
    case ExtSI(src) => Checked(src, c, known)
    case Add(l, r) =>
      Checked(l, c, known) && Checked(r, c, known) && SumChecked(Visit(l, c, known), Visit(r, c, known), c)
    case AddPtr(l, r) =>
      Checked(l, c, known) && Checked(r, c, known) && SumChecked(Visit(l, c, known), Visit(r, c, known), c)
    case Sub(l, r) =>
      Checked(l, c, known) && Checked(r, c, known) && DifferenceChecked(Visit(l, c, known), Visit(r, c, known), c)
    case Mul(l, r) =>
      Checked(l, c, known) && Checked(r, c, known) && ProductGuard(Visit(l, c, known), Visit(r, c, known), c)
    case Rem(l, r) =>
      c.unstructured ||
      (Checked(l, c, known) && Checked(r, c, known) &&
       (Visit(l, c, known).Some? ==> RemChecked(Visit(l, c, known).value, e)))
    case _ => true
  }

  lemma AddCheckedWithin(l: PState, r: PState, u: bool, w: World)
    requires l.Valid() && r.Valid() && AddChecked(l, r, u)
    ensures AddGuard(l, r, u, w)
  {
    if l.Rank() == r.Rank() {
      forall i | 0 <= i < l.Rank()
        ensures DimAddable(l.offsets[i], l.strides[i], l.shape[i], r.offsets[i], r.strides[i], r.shape[i], u, w)
      {
        assert DimChecked(l.offsets[i], l.strides[i], l.shape[i], r.offsets[i], r.strides[i], r.shape[i], u);
        if HasConstZero(l.strides[i]) { ConstZeroValue(l.strides[i], w, 0); }
        if HasConstZero(r.strides[i]) { ConstZeroValue(r.strides[i], w, 0); }
      }
    }
  }

  lemma RemCheckedWithin(st: PState, e: Expr, w: World)
    requires st.Valid() && RemChecked(st, e)
    ensures RemGuard(st, e, w)
  {
    forall i | 0 <= i < st.Rank() && i < |ShapeOf(e)| && ShapeOf(e)[i] == 1 && i != RemTarget(st, e)
      ensures EvalO(st.offsets[i], w) == 0
    {
      ConstZeroValue(st.offsets[i], w, 0);
    }
  }

  /** What has been looked up holds in every world. */
  lemma {:induction false} CheckedWithin(e: Expr, c: Config, known: Known, w: World)
    requires KnownValid(known) && Checked(e, c, known)
    ensures Guard(e, c, known, w)
    decreases e, 1
  {
    if c.unstructured || e !in known {
      match e
      case Splat(src, _) => CheckedWithin(src, c, known, w);
      case ExpandDims(src, _) => CheckedWithin(src, c, known, w);
      case Broadcast(src, _) => CheckedWithin(src, c, known, w);
      case ExtSI(src) => CheckedWithin(src, c, known, w);
      case Add(l, r) => OperandsChecked(e, l, r, c, known, w);
      case AddPtr(l, r) => OperandsChecked(e, l, r, c, known, w);
      case Sub(l, r) => OperandsChecked(e, l, r, c, known, w);
      case Mul(l, r) => OperandsChecked(e, l, r, c, known, w);
      case Rem(l, r) => if !c.unstructured { OperandsChecked(e, l, r, c, known, w); }
      case _ =>
    }
  }

  lemma {:induction false} OperandsChecked(e: Expr, l: Expr, r: Expr, c: Config, known: Known, w: World)
    requires KnownValid(known) && Checked(e, c, known) && (c.unstructured || e !in known)
    requires e == Add(l, r) || e == AddPtr(l, r) || e == Sub(l, r) || e == Mul(l, r) || e == Rem(l, r)
    requires e.Rem? ==> !c.unstructured
    ensures Guard(e, c, known, w)
    decreases e, 0
  {
    CheckedWithin(l, c, known, w);
    CheckedWithin(r, c, known, w);
    var ls, rs := Visit(l, c, known), Visit(r, c, known);
    if ls.Some? && e.Rem? { RemCheckedWithin(ls.value, e, w); }
    if ls.Some? && rs.Some? {
      if e.Sub? { AddCheckedWithin(ls.value, NegState(rs.value), c.unstructured, w); }
      if e.Add? || e.AddPtr? { AddCheckedWithin(ls.value, rs.value, c.unstructured, w); }
    }
  }

  /** So a structured state is right for every expression that passes these tests, wrapping dimensions included. */
  lemma CheckedExactly(e: Expr, gather: bool, w: World, x: seq<nat>)
    requires WellTyped(e) && Checked(e, Config(gather, false), map[]) && InBounds(x, ShapeOf(e))
    requires Visit(e, Config(gather, false), map[]).Some? && Visit(e, Config(gather, false), map[]).value.Structured()
    ensures Visit(e, Config(gather, false), map[]).value.Rank() == |x|
    ensures EvalX(e, w, x) == Denote(Visit(e, Config(gather, false), map[]).value, w, x)
  {
    CheckedWithin(e, Config(gather, false), map[], w);
    VisitSound(e, Config(gather, false), map[], w);
  }

  /** Without remainders and one-element ranges the tests always succeed. */
  lemma {:induction false} PlainChecked(e: Expr, c: Config, known: Known)
    requires RemainderFree(e) && !c.unstructured && KnownUnwrapped(known)
    ensures Checked(e, c, known)
    decreases e, 1
  {
    if e !in known {
      match e
      case Splat(src, _) => PlainChecked(src, c, known);
      case ExpandDims(src, _) => PlainChecked(src, c, known);
      case Broadcast(src, _) => PlainChecked(src, c, known);
      case ExtSI(src) => PlainChecked(src, c, known);
      case Add(l, r) => PlainOperands(e, l, r, c, known);
      case Sub(l, r) => PlainOperands(e, l, r, c, known);
      case Mul(l, r) => PlainOperands(e, l, r, c, known);
      case AddPtr(p, off) => PlainOperands(e, p, off, c, known);
      case _ =>
    }
  }

  lemma {:induction false} PlainOperands(e: Expr, l: Expr, r: Expr, c: Config, known: Known)
    requires RemainderFree(e) && !c.unstructured && KnownUnwrapped(known)
    requires e == Add(l, r) || e == AddPtr(l, r) || e == Sub(l, r) || e == Mul(l, r)
    ensures Checked(e, c, known)
    decreases e, 0
  {
    PlainChecked(l, c, known);
    PlainChecked(r, c, known);
    StaysUnwrapped(l, c, known);
    StaysUnwrapped(r, c, known);
  }

  /** So the analysis is within its limits. */
  lemma WithinLimits(e: Expr, c: Config, known: Known, w: World)
    requires RemainderFree(e) && !c.unstructured && KnownUnwrapped(known)
    ensures Guard(e, c, known, w)
  {
    PlainChecked(e, c, known);
    CheckedWithin(e, c, known, w);
  }

  /** The address a decoded pointer stands for: its base, and an affine function of the index. */
  function Affine(st: PState, w: World, x: seq<nat>, i: nat): int
    requires st.Valid() && |x| == st.Rank() && i <= st.Rank()
    decreases st.Rank() - i
  {
    if i == st.Rank() then 0
    else EvalO(st.offsets[i], w) + x[i] * EvalO(st.strides[i], w) + Affine(st, w, x, i + 1)
  }

  /**
   For every expression of make_range (two elements or more), splat, constants, expand_dims, broadcast, add,
   subtract, multiply by a scalar and addptr: if visitOperand finds a structured state, the expression is
   source + sum of offsets[i] + x[i] * strides[i] at every multi-index x.
   */
  lemma DecodedExactly(e: Expr, gather: bool, w: World, x: seq<nat>)
    requires WellTyped(e) && RemainderFree(e) && InBounds(x, ShapeOf(e)) && ShapeOf(e) != []
    requires Visit(e, Config(gather, false), map[]).Some? && Visit(e, Config(gather, false), map[]).value.Structured()
    ensures Visit(e, Config(gather, false), map[]).value.Rank() == |x|
    ensures EvalX(e, w, x) == BaseVal(Visit(e, Config(gather, false), map[]).value, w)
                            + Affine(Visit(e, Config(gather, false), map[]).value, w, x, 0)
  {
    var c := Config(gather, false);
    var st := Visit(e, c, map[]).value;
    WithinLimits(e, c, map[], w);
    VisitSound(e, c, map[], w);
    StaysUnwrapped(e, c, map[]);
    TermsAffine(st, w, x, 0);
    assert Terms(st, w, x)[0..] == Terms(st, w, x);
  }

  lemma {:induction false} TermsAffine(st: PState, w: World, x: seq<nat>, i: nat)
    requires st.Valid() && st.Structured() && Unwrapped(st) && |x| == st.Rank() && i <= st.Rank()
    ensures Sum(Terms(st, w, x)[i..]) == Affine(st, w, x, i)
    decreases st.Rank() - i
  {
    if i < st.Rank() {
      TermsAffine(st, w, x, i + 1);
      assert Terms(st, w, x)[i..][1..] == Terms(st, w, x)[i + 1..];
    }
  }
}
