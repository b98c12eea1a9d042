/**
 Where pointer analysis is not exact (lib/AnalysisStructured/PtrAnalysis.cpp). Each guard of PtrSoundness.Guard is
 met with the operation it protects and the exact condition under which that operation keeps its meaning.
 PtrExamples has an expression for each that the analysis accepts and decodes to a different address.
 */
module PtrLimits {
  import opened Wrappers
  import opened Ir
  import opened Folding
  import opened PtrStates
  import opened PtrSoundness

  /**
   addState lets an operand through beside a wrapping dimension when its offset is a constant zero. That
   is right for every wrapping dimension exactly when the operand does not move there either.
   */
  lemma ModuloSumExact(ro: OFR, rs: OFR, w: World)
    requires HasConstZero(ro) && !rs.T?
    ensures (forall lo: OFR, ls: OFR, lb: OFR, k: nat :: !lo.T? && !ls.T? && lb != Attr(0) ==>
               WrappedSum(lo, ls, ro, rs, lb, w, k) == DimVal(lo, ls, lb, w, k) + DimVal(ro, rs, Attr(0), w, k))
        <==> EvalO(rs, w) == 0
  {
    if EvalO(rs, w) == 0 {
      forall lo: OFR, ls: OFR, lb: OFR, k: nat | !lo.T? && !ls.T? && lb != Attr(0)
        ensures WrappedSum(lo, ls, ro, rs, lb, w, k) == DimVal(lo, ls, lb, w, k) + DimVal(ro, rs, Attr(0), w, k)
      {
        AddDimValue(lo, ls, lb, ro, rs, Attr(0), lb, false, w, k);
      }
    } else {
      MovingSumBreaks(ro, rs, w);
    }
  }

  /** A moving operand is folded into the remainder: modulo one it disappears. */
  lemma MovingSumBreaks(ro: OFR, rs: OFR, w: World)
    requires HasConstZero(ro) && !rs.T? && EvalO(rs, w) != 0
    ensures WrappedSum(Attr(0), Attr(0), ro, rs, Attr(1), w, 1) == 0
    ensures DimVal(Attr(0), Attr(0), Attr(1), w, 1) + DimVal(ro, rs, Attr(0), w, 1) == EvalO(rs, w)
  {
    var (o, s) := AddDim(Attr(0), Attr(0), ro, rs, false);
    assert !o.T?;
    WrappedByOne(o, s, w);
    WrappedByOne(Attr(0), Attr(0), w);
    ConstZeroValue(ro, w, 0);
  }

  lemma WrappedByOne(o: OFR, s: OFR, w: World)
    requires !o.T?
    ensures DimVal(o, s, Attr(1), w, 1) == 0
  {
    assert TruncRem(EvalO(o, w) + 1 * EvalO(s, w), 1) == 0;
  }

  function WrappedSum(lo: OFR, ls: OFR, ro: OFR, rs: OFR, bound: OFR, w: World, k: nat): int {
    DimVal(AddDim(lo, ls, ro, rs, false).0, AddDim(lo, ls, ro, rs, false).1, bound, w, k)
  }

  /**
   A sum with a scalar that moves a wrapping dimension 0 swaps the two bounds. At an index that is right for
   every bound exactly when dimension 0 contributes what dimension 1 does.
   */
  lemma ModuloSwapExact(a: PState, b: PState, w: World, x: seq<nat>)
    requires SwapOperands(a, b) && |x| == 2
    ensures (forall m: Val :: SwapIsRight(a, b, m, w, x))
        <==> TermAt(a, 0, w, x[0]) == TermAt(a, 1, w, x[1]) + TermAt(b, 1, w, x[1])
  {
    if TermAt(a, 0, w, x[0]) == TermAt(a, 1, w, x[1]) + TermAt(b, 1, w, x[1]) {
      forall m: Val ensures SwapIsRight(a, b, m, w, x) {
        SwappedValue(a, b, m, w, x);
      }
    } else {
      SwappedValue(a, b, ConstV(1), w, x);
      assert Eval(ConstV(1), w) == 1;
      assert !SwapIsRight(a, b, ConstV(1), w, x);
    }
  }

  /** The state with the bounds swapped denotes the sum. */
  ghost predicate SwapIsRight(a: PState, b: PState, m: Val, w: World, x: seq<nat>)
    requires SwapOperands(a, b) && |x| == 2
  {
    && Swapped(a, b, m).Rank() == 2
    && Denote(Swapped(a, b, m), w, x) == Denote(Bounded(a, 0, m), w, x) + Denote(b, w, x)
  }

  /** Two structured operands of rank 2, the right one a splatted scalar that is not the constant zero. */
  predicate SwapOperands(a: PState, b: PState) {
    && a.Valid() && b.Valid() && a.Rank() == b.Rank() == 2 && a.Structured() && b.Structured()
    && !(a.source.Some? && b.source.Some?) && b.scalar.Some? && !HasConstZero(b.offsets[0])
    && (forall i :: 0 <= i < 2 ==> a.shape[i] == b.shape[i] == Attr(0) && !a.strides[i].T? && !b.strides[i].T?)
  }

  /** The sum once dimension 0 of the left operand wraps around. */
  function Swapped(a: PState, b: PState, m: Val): (r: PState)
    requires SwapOperands(a, b)
    ensures AddState(Bounded(a, 0, m), b, false) == Some(r) && r.Valid()
    ensures r.shape == [Attr(0), V(m)]
  {
    SwapAccepted(a, b, m);
    AddState(Bounded(a, 0, m), b, false).value
  }

  lemma SwapAccepted(a: PState, b: PState, m: Val)
    requires SwapOperands(a, b)
    ensures AddState(Bounded(a, 0, m), b, false).Some?
    ensures AddState(Bounded(a, 0, m), b, false).value.shape == [Attr(0), V(m)]
  {
    var l := Bounded(a, 0, m);
    assert !b.HasModulo();
    assert l.DimHasModulo(0);
    assert AddShapes(l, b, 0) == Some([Attr(0), V(m)]);
  }

  lemma SwappedValue(a: PState, b: PState, m: Val, w: World, x: seq<nat>)
    requires SwapOperands(a, b) && |x| == 2
    ensures var st := Swapped(a, b, m);
            var first, rest := TermAt(a, 0, w, x[0]), TermAt(a, 1, w, x[1]) + TermAt(b, 1, w, x[1]);
            && st.Rank() == 2
            && Denote(st, w, x) == BaseVal(st, w) + first + TermAt(b, 0, w, x[0]) + TruncRem(rest, Eval(m, w))
            && Denote(Bounded(a, 0, m), w, x) + Denote(b, w, x)
            == BaseVal(st, w) + TruncRem(first, Eval(m, w)) + TermAt(b, 0, w, x[0]) + rest
  {
    var st := Swapped(a, b, m);
    SwappedTerms(a, b, st, m, w, x);
    SumOfTwo(Terms(st, w, x));
    UnswappedValue(a, b, m, w, x);
  }

  lemma SwappedTerms(a: PState, b: PState, st: PState, m: Val, w: World, x: seq<nat>)
    requires SwapOperands(a, b) && |x| == 2 && st == Swapped(a, b, m)
    ensures st.Rank() == 2 && Terms(st, w, x)[0] == TermAt(a, 0, w, x[0]) + TermAt(b, 0, w, x[0])
    ensures Terms(st, w, x)[1] == TruncRem(TermAt(a, 1, w, x[1]) + TermAt(b, 1, w, x[1]), Eval(m, w))
  {
    SumAt(Bounded(a, 0, m), b, false, st, 0);
    SumAt(Bounded(a, 0, m), b, false, st, 1);
    SwappedTerm(a, b, st, 0, w, x[0]);
    SwappedTerm(a, b, st, 1, w, x[1]);
  }

  lemma SwappedTerm(a: PState, b: PState, st: PState, i: nat, w: World, k: nat)
    requires a.Valid() && b.Valid() && st.Valid() && i < a.Rank() == b.Rank() == st.Rank()
    requires !a.offsets[i].T? && !b.offsets[i].T? && a.shape[i] == b.shape[i] == Attr(0)
    requires (st.offsets[i], st.strides[i]) == AddDim(a.offsets[i], a.strides[i], b.offsets[i], b.strides[i], false)
    ensures TermAt(st, i, w, k) == Bound(st.shape[i], TermAt(a, i, w, k) + TermAt(b, i, w, k), w)
  {
    SumLinear(a, b, st, i, w, k);
  }

  lemma SumAt(l: PState, r: PState, u: bool, st: PState, i: nat)
    requires l.Valid() && r.Valid() && AddState(l, r, u) == Some(st) && i < l.Rank()
    ensures st.Valid() && st.sizes == l.sizes && l.Rank() == r.Rank() == st.Rank() && st.scalar == AddScalar(l, r)
    ensures st.source == if l.source.Some? then l.source else r.source
    ensures (st.offsets[i], st.strides[i]) == AddDim(l.offsets[i], l.strides[i], r.offsets[i], r.strides[i], u)
  {
  }

  lemma UnswappedValue(a: PState, b: PState, m: Val, w: World, x: seq<nat>)
    requires SwapOperands(a, b) && |x| == 2
    ensures Denote(Bounded(a, 0, m), w, x)
         == BaseVal(a, w) + TruncRem(TermAt(a, 0, w, x[0]), Eval(m, w)) + TermAt(a, 1, w, x[1])
    ensures Denote(b, w, x) == BaseVal(b, w) + TermAt(b, 0, w, x[0]) + TermAt(b, 1, w, x[1])
  {
    SumOfTwo(Terms(Bounded(a, 0, m), w, x));
    SumOfTwo(Terms(b, w, x));
  }

  lemma SumLinear(a: PState, b: PState, st: PState, i: nat, w: World, k: nat)
    requires a.Valid() && b.Valid() && st.Valid() && i < a.Rank() == b.Rank() == st.Rank()
    requires !a.offsets[i].T? && !b.offsets[i].T? && a.shape[i] == b.shape[i] == Attr(0)
    requires (st.offsets[i], st.strides[i]) == AddDim(a.offsets[i], a.strides[i], b.offsets[i], b.strides[i], false)
    ensures !st.offsets[i].T?
    ensures EvalO(st.offsets[i], w) + k * EvalO(st.strides[i], w) == TermAt(a, i, w, k) + TermAt(b, i, w, k)
  {
    AddValue(a.offsets[i], b.offsets[i], w, 0);
    AddValue(a.strides[i], b.strides[i], w, 0);
    var s, t := EvalO(a.strides[i], w), EvalO(b.strides[i], w);
    assert k * (s + t) == k * s + k * t;
  }

  lemma SumOfTwo(t: seq<int>)
    requires |t| == 2
    ensures Sum(t) == t[0] + t[1]
  {
    assert Sum(t[1..]) == t[1] + Sum(t[1..][1..]);
  }

  /**
   visitOperandSub negates both the offset and the stride of its right operand. A structured dimension is
   negated; a gathered one, where the two are multiplied, keeps its sign. So the state that is added stands for
   the negated operand exactly where the gathered dimensions contribute nothing.
   */
  lemma GatheredSubtractionExact(st: PState, w: World, x: seq<nat>)
    requires st.Valid() && UnitStride(st, w) && st.source.None? && |x| == st.Rank() > 0
    ensures Denote(NegState(st), w, x) == -Denote(st, w, x) <==> Sum(GatheredTerms(st, w, x)) == 0
  {
    var t, g, neg := Terms(st, w, x), GatheredTerms(st, w, x), Terms(NegState(st), w, x);
    var minus, twice := seq(|t|, i requires 0 <= i < |t| => t[i] * -1), seq(|t|, i requires 0 <= i < |t| => g[i] * 2);
    forall i | 0 <= i < |t| ensures neg[i] == minus[i] + twice[i] {
      NegatedDimValue(st.offsets[i], st.strides[i], st.shape[i], w, x[i]);
    }
    SumAdd(minus, twice, neg);
    SumScale(t, minus, -1);
    SumScale(g, twice, 2);
  }

  /** What the gathered dimensions contribute. */
  function GatheredTerms(st: PState, w: World, x: seq<nat>): (g: seq<int>)
    requires st.Valid() && |x| == st.Rank()
    ensures |g| == |x|
  {
    seq(|x|, i requires 0 <= i < |x| => if st.offsets[i].T? then TermAt(st, i, w, x[i]) else 0)
  }

  lemma NegatedDimValue(o: OFR, s: OFR, bound: OFR, w: World, k: nat)
    requires !s.T?
    ensures DimVal(SubOFRs(Attr(0), o), SubOFRs(Attr(0), s), bound, w, k)
         == if o.T? then DimVal(o, s, bound, w, k) else -DimVal(o, s, bound, w, k)
  {
    if o.T? {
      SubValue(Attr(0), o, w, k);
      SubValue(Attr(0), s, w, 0);
      assert (0 - EvalAt(o, w, k)) * (0 - EvalO(s, w)) == EvalAt(o, w, k) * EvalO(s, w);
    } else {
      NegDimValue(o, s, bound, w, k);
    }
  }

  /**
   A structured operand merged into a gathered dimension loses its own movement. The merge is right for
   every gathered partner exactly when the operand's stride is the constant zero, or when the operand
   evaluates to nothing at all.
   */
  lemma GatherMergeExact(o: OFR, s: OFR, w: World)
    requires !o.T? && !s.T?
    ensures (forall t: Tens, ts: OFR, k: nat :: !ts.T? && !HasConstZero(ts) ==> MergesExactly(o, s, t, ts, w, k))
        <==> HasConstZero(s) || (EvalO(o, w) == 0 && EvalO(s, w) == 0)
  {
    if HasConstZero(s) || (EvalO(o, w) == 0 && EvalO(s, w) == 0) {
      forall t: Tens, ts: OFR, k: nat | !ts.T? && !HasConstZero(ts) ensures MergesExactly(o, s, t, ts, w, k) {
        if HasConstZero(s) {
          MergeDimValue(o, s, T(t), ts, w, k);
        } else {
          MovingMerge(o, s, t, ts, w, k);
        }
      }
    } else {
      var t := TSplat(ConstV(1));
      MovingMerge(o, s, t, Attr(1), w, 0);
      MovingMerge(o, s, t, Attr(1), w, 1);
      var a, b := EvalO(o, w), EvalO(s, w);
      assert DimVal(o, s, Attr(0), w, 0) == a && DimVal(o, s, Attr(0), w, 1) == a + b;
      assert !(a * b == a && a * b == a + b);
      assert !MergesExactly(o, s, t, Attr(1), w, 0) || !MergesExactly(o, s, t, Attr(1), w, 1);
    }
  }

  ghost predicate MergesExactly(o: OFR, s: OFR, t: Tens, ts: OFR, w: World, k: nat) {
    MergedDim(o, s, T(t), ts, w, k) == DimVal(o, s, Attr(0), w, k) + DimVal(T(t), ts, Attr(0), w, k)
  }

  lemma MovingMerge(o: OFR, s: OFR, t: Tens, ts: OFR, w: World, k: nat)
    requires !o.T? && !s.T? && !HasConstZero(s) && !ts.T? && !HasConstZero(ts)
    ensures MergedDim(o, s, T(t), ts, w, k) == EvalO(o, w) * EvalO(s, w) + DimVal(T(t), ts, Attr(0), w, k)
    ensures DimVal(o, s, Attr(0), w, k) == EvalO(o, w) + k * EvalO(s, w)
  {
    MergeScaledValue(o, s, T(t), ts, false, s == ts, w, k);
    OperandValue(o, w, k);
  }

  function MergedDim(lo: OFR, ls: OFR, ro: OFR, rs: OFR, w: World, k: nat): int {
    DimVal(MergeDim(lo, ls, ro, rs).0, MergeDim(lo, ls, ro, rs).1, Attr(0), w, k)
  }

  /**
   A gathered operand with a constant zero stride stands for nothing, but the merge puts its stride back to one.
   With any partner that is not itself a constant zero that is right exactly where its tensor is zero.
   */
  lemma GatherZeroStrideExact(t: Tens, s: OFR, o: OFR, os: OFR, w: World, k: nat)
    requires HasConstZero(s) && GatherSide(o, os, Attr(0)) && !(HasConstZero(o) && HasConstZero(os))
    ensures DimVal(T(t), s, Attr(0), w, k) == 0
    ensures MergedDim(T(t), s, o, os, w, k) == DimVal(o, os, Attr(0), w, k) <==> EvalT(t, w, k) == 0
    ensures MergedDim(o, os, T(t), s, w, k) == DimVal(o, os, Attr(0), w, k) <==> EvalT(t, w, k) == 0
  {
    ZeroStrideNothing(t, s, w, k);
    ZeroStrideLeft(t, s, o, os, w, k);
    ZeroStrideRight(t, s, o, os, w, k);
  }

  lemma ZeroStrideNothing(t: Tens, s: OFR, w: World, k: nat)
    requires HasConstZero(s)
    ensures DimVal(T(t), s, Attr(0), w, k) == 0
  {
    ConstZeroValue(s, w, 0);
  }

  lemma ZeroStrideLeft(t: Tens, s: OFR, o: OFR, os: OFR, w: World, k: nat)
    requires HasConstZero(s) && GatherSide(o, os, Attr(0)) && !(HasConstZero(o) && HasConstZero(os))
    ensures MergedDim(T(t), s, o, os, w, k) == DimVal(o, os, Attr(0), w, k) <==> EvalT(t, w, k) == 0
  {
    var one, r := UnitIfZero(s), UnitIfZero(os);
    GatherSideValue(o, os, w, k);
    MergeScaledValue(T(t), one, o, r, T(t) == o, one == r, w, k);
  }

  lemma ZeroStrideRight(t: Tens, s: OFR, o: OFR, os: OFR, w: World, k: nat)
    requires HasConstZero(s) && GatherSide(o, os, Attr(0)) && !(HasConstZero(o) && HasConstZero(os))
    ensures MergedDim(o, os, T(t), s, w, k) == DimVal(o, os, Attr(0), w, k) <==> EvalT(t, w, k) == 0
  {
    var one, r := UnitIfZero(s), UnitIfZero(os);
    GatherSideValue(o, os, w, k);
    MergeScaledValue(o, r, T(t), one, o == T(t), r == one, w, k);
  }

  /**
   Gathering a tensor puts the whole tensor into its one moving dimension and leaves the other dimensions as they
   are, bounds included. That is right exactly when they contribute nothing. It happens to the operand of a
   remainder, and to an operand that wraps around beside a gathered one.
   */
  lemma RegatherExact(st: PState, e: Expr, d: nat, w: World)
    requires st.Valid() && st.sizes == ShapeOf(e) && st.source.None? && PositiveDims(ShapeOf(e))
    requires RebuildAsGatherScatter(st, e, d).Some?
    ensures (forall x :: InBounds(x, ShapeOf(e)) ==>
               Denote(RebuildAsGatherScatter(st, e, d).value, w, x) == EvalX(e, w, x))
        <==> Sum(Terms(st, w, Zeros(st.Rank()))[d := 0]) == 0
  {
    forall x | InBounds(x, ShapeOf(e))
      ensures Denote(RebuildAsGatherScatter(st, e, d).value, w, x)
           == EvalX(e, w, x) + Sum(Terms(st, w, Zeros(st.Rank()))[d := 0])
    {
      RegatheredValue(st, e, d, w, x);
    }
    assert InBounds(Zeros(st.Rank()), ShapeOf(e));
  }

  function Zeros(n: nat): (z: seq<nat>)
    ensures |z| == n && forall i :: 0 <= i < n ==> z[i] == 0
  {
    seq(n, i => 0)
  }

  lemma RegatheredValue(st: PState, e: Expr, d: nat, w: World, x: seq<nat>)
    requires st.Valid() && st.sizes == ShapeOf(e) && st.source.None? && PositiveDims(ShapeOf(e))
    requires RebuildAsGatherScatter(st, e, d).Some? && InBounds(x, ShapeOf(e))
    ensures Denote(RebuildAsGatherScatter(st, e, d).value, w, x)
         == EvalX(e, w, x) + Sum(Terms(st, w, Zeros(st.Rank()))[d := 0])
  {
    var r, dims := RebuildAsGatherScatter(st, e, d).value, ShapeOf(e);
    var rest := Terms(st, w, Zeros(st.Rank()))[d := 0];
    OnlyMoving(dims, d);
    SpreadSingle(dims, d, x);
    var moving := Terms(r, w, x)[d];
    assert moving == EvalT(Orig(e), w, x[d]) * 1;
    assert Terms(r, w, x) == rest[d := moving];
    SumChange(rest, d, moving);
  }

  /** The dimension that gathering picks is the one with more than one element. */
  lemma OnlyMoving(dims: seq<nat>, d: nat)
    requires !IsNotSingleDim(dims) && d < |dims| && dims[d] > 1
    ensures SingleDim(dims, d)
  {
    var m :| 0 <= m < |dims| && SingleDim(dims, m);
    assert m == d;
  }

  /**
   A remainder of a two-dimensional operand bounds one dimension and leaves the other outside the modulo.
   That is right for every modulus exactly when the other dimension contributes nothing.
   */
  lemma RemainderLeftoverExact(st: PState, d: nat, w: World, x: seq<nat>)
    requires st.Valid() && st.source.None? && st.Rank() == 2 == |x| && d < 2 && !st.offsets[d].T?
    requires forall i :: 0 <= i < 2 ==> st.shape[i] == Attr(0)
    ensures (forall m: Val :: Denote(Bounded(st, d, m), w, x) == TruncRem(Denote(st, w, x), Eval(m, w)))
        <==> TermAt(st, 1 - d, w, x[1 - d]) == 0
  {
    if TermAt(st, 1 - d, w, x[1 - d]) == 0 {
      forall m: Val ensures Denote(Bounded(st, d, m), w, x) == TruncRem(Denote(st, w, x), Eval(m, w)) {
        BoundedDenotes(st, d, m, w, x);
      }
    } else {
      var r := Bounded(st, d, ConstV(1));
      var t := Terms(r, w, x);
      assert Eval(ConstV(1), w) == 1;
      assert t[d] == 0;
      assert t[1 - d] == TermAt(st, 1 - d, w, x[1 - d]);
      SumOne(t, 1 - d);
      assert TruncRem(Denote(st, w, x), 1) == 0;
    }
  }

  function Bounded(st: PState, d: nat, m: Val): PState
    requires st.Valid() && d < st.Rank()
  {
    st.(shape := st.shape[d := V(m)], origiOffsets := st.offsets)
  }

  /**
   A remainder keeps the scalar of its dividend. The state then still stands for a constant tensor with
   that scalar exactly when the remainder changes nothing, so `splat(5) % splat(3)` is later multiplied as 5.
   */
  lemma RemainderScalarExact(l: Expr, r: Expr, ls: PState, rs: PState, st: PState, c: Config, w: World)
    requires WellTyped(Rem(l, r)) && StateSound(l, ls, w, ls.Structured()) && StateSound(r, rs, w, rs.Structured())
    requires ls.scalar.Some? && rs.scalar.Some?
    requires RemState(ls, rs.scalar.value, Rem(l, r), c) == Some(st)
    ensures st.scalar == ls.scalar
    ensures ScalarSound(Rem(l, r), st, w)
        <==> TruncRem(Eval(ls.scalar.value, w), Eval(rs.scalar.value, w)) == Eval(ls.scalar.value, w)
  {
    var e := Rem(l, r);
    var n, m := Eval(ls.scalar.value, w), Eval(rs.scalar.value, w);
    RemStateShaped(ls, rs.scalar.value, e, c, w);
    forall x | InBounds(x, ShapeOf(e)) ensures EvalX(e, w, x) == TruncRem(n, m) {
      assert InBounds(x, ShapeOf(l)) && InBounds(x, ShapeOf(r));
    }
    ShapePositive(e);
    var zero := seq(|ShapeOf(e)|, i => 0);
    assert InBounds(zero, ShapeOf(e));
  }

  /**
   tt.broadcast only changes a size. The source value is read at index 0 of a stretched dimension, so the
   state stays exact exactly when no stretched dimension has a stride, which is what make_range of a
   single element breaks.
   */
  lemma BroadcastExact(st: PState, dst: seq<nat>, w: World)
    requires st.Valid() && st.Structured() && BroadcastsTo(st.sizes, dst) && PositiveDims(dst) && |dst| > 0
    requires forall i :: 0 <= i < st.Rank() ==> st.shape[i] == Attr(0)
    ensures (forall x :: InBounds(x, dst) ==>
               Denote(BroadcastState(st, st.sizes, dst), w, x) == Denote(st, w, Clamp(x, st.sizes)))
        <==> forall i :: 0 <= i < st.Rank() && st.sizes[i] == 1 && dst[i] > 1 ==> EvalO(st.strides[i], w) == 0
  {
    var r := BroadcastState(st, st.sizes, dst);
    if forall i :: 0 <= i < st.Rank() && st.sizes[i] == 1 && dst[i] > 1 ==> EvalO(st.strides[i], w) == 0 {
      forall x | InBounds(x, dst) ensures Denote(r, w, x) == Denote(st, w, Clamp(x, st.sizes)) {
        forall i | 0 <= i < |x| ensures Terms(r, w, x)[i] == Terms(st, w, Clamp(x, st.sizes))[i] {
        }
        assert Terms(r, w, x) == Terms(st, w, Clamp(x, st.sizes));
      }
    } else {
      var i :| 0 <= i < st.Rank() && st.sizes[i] == 1 && dst[i] > 1 && EvalO(st.strides[i], w) != 0;
      var x := seq(|dst|, j => if j == i then 1 else 0);
      assert InBounds(x, dst);
      var a, b := Terms(r, w, x), Terms(st, w, Clamp(x, st.sizes));
      assert a == b[i := a[i]];
      SumChange(b, i, a[i]);
      assert a[i] == b[i] + EvalO(st.strides[i], w);
    }
  }

  lemma {:induction false} SumChange(s: seq<int>, i: nat, v: int)
    requires i < |s|
    ensures Sum(s[i := v]) == Sum(s) - s[i] + v
  {
    if i > 0 {
      SumChange(s[1..], i - 1, v);
      assert s[i := v][1..] == s[1..][i - 1 := v];
    } else {
      assert s[i := v][1..] == s[1..];
    }
  }
}
