/**
 What pointer analysis accepts (lib/AnalysisStructured/PtrAnalysis.cpp): the expressions for which visitOperand
 succeeds, read off the expression and without reference to states.
 */
module PtrAccepted {
  import opened Wrappers
  import opened Ir
  import opened Folding
  import opened PtrStates
  import opened PtrSoundness
  import opened PtrPlain

  // ------------------------------------------------------------------
  // Without remainders and undecoded tensors
  // ------------------------------------------------------------------

  /** Built without arith.remsi and without tensors that no operation explains. */
  predicate Structural(e: Expr) {
    match e
    case Splat(src, _) => Structural(src)
    case ExpandDims(src, _) => Structural(src)
    case Broadcast(src, _) => Structural(src)
    case ExtSI(src) => Structural(src)
    case Add(l, r) => Structural(l) && Structural(r)
    case Sub(l, r) => Structural(l) && Structural(r)
    case Mul(l, r) => Structural(l) && Structural(r)
    case AddPtr(p, off) => Structural(p) && Structural(off)
    case Rem(_, _) => false
    case Other(_, _) => false
    case _ => true
  }

  /** The same number everywhere, and built so that the analysis sees it. */
  predicate Uniform(e: Expr, known: Known) {
    if e in known then known[e].scalar.Some?
    else
      match e
      case IntScalar(_) => true
      case ConstSplat(_, _) => true
      case Splat(src, _) => Uniform(src, known)
      case ExpandDims(src, _) => Uniform(src, known)
      case Broadcast(src, _) => Uniform(src, known)
      case ExtSI(src) => Uniform(src, known)
      case Add(l, r) => Uniform(l, known) && Uniform(r, known)
      case Sub(l, r) => Uniform(l, known) && Uniform(r, known)
      case Mul(l, r) => Uniform(l, known) && Uniform(r, known)
      case AddPtr(p, off) =>
        if ShapeOf(p) == [] then Uniform(p, known) || Uniform(off, known) else Uniform(p, known) && Uniform(off, known)
      case _ => false
  }

  /** Every product has a uniform factor, on either side, and every loop argument is recorded. */
  predicate Decodable(e: Expr, known: Known) {
    e in known ||
    match e
    case Splat(src, _) => Decodable(src, known)
    case ExpandDims(src, _) => Decodable(src, known)
    case Broadcast(src, _) => Decodable(src, known)
    case ExtSI(src) => Decodable(src, known)
    case Add(l, r) => Decodable(l, known) && Decodable(r, known)
    case Sub(l, r) => Decodable(l, known) && Decodable(r, known)
    case Mul(l, r) => Decodable(l, known) && Decodable(r, known) && (Uniform(l, known) || Uniform(r, known))
    case AddPtr(p, off) => Decodable(p, known) && Decodable(off, known)
    case IterArg(_, _, _) => false
    case _ => true
  }

  /** Every dimension is an offset and a stride, numbers both, and nothing wraps around. */
  predicate Linear(st: PState) {
    st.Valid() && st.Structured() && Unwrapped(st) && forall i :: 0 <= i < st.Rank() ==> !st.strides[i].T?
  }

  /** Such a state, of the shape of its expression. */
  predicate Formed(e: Expr, st: PState) {
    Linear(st) && st.sizes == ShapeOf(e) && (st.source.Some? ==> IsPtr(e))
  }

  predicate KnownFormed(known: Known) {
    forall e :: e in known ==> Formed(e, known[e])
  }

  /** The offsets kept as original ones: those of the base of an addptr, otherwise the offsets found. */
  predicate KeepsOffsets(e: Expr, st: PState, c: Config, known: Known)
    requires KnownValid(known)
  {
    e in known ||
    match e
    case AddPtr(p, _) => Visit(p, c, known).Some? && st.origiOffsets == Visit(p, c, known).value.offsets
    case ExtSI(src) => Visit(src, c, known) == Some(st)
    case _ => st.origiOffsets == st.offsets
  }

  ghost predicate AcceptedAs(e: Expr, c: Config, known: Known)
    requires KnownValid(known)
  {
    && (Visit(e, c, known).Some? <==> Decodable(e, known))
    && (Visit(e, c, known).Some? ==>
          var st := Visit(e, c, known).value;
          Formed(e, st) && (st.scalar.Some? <==> Uniform(e, known)) && KeepsOffsets(e, st, c, known))
  }

  lemma SumAccepted(l: PState, r: PState)
    requires Linear(l) && Linear(r) && l.Rank() == r.Rank() && (l.source.None? || r.source.None?)
    ensures AddState(l, r, false).Some?
    ensures var st := AddState(l, r, false).value;
            && Linear(st) && st.sizes == l.sizes && st.source == (if l.source.Some? then l.source else r.source)
            && (st.scalar.Some? <==> if l.Rank() == 0 then l.scalar.Some? || r.scalar.Some?
                                     else l.scalar.Some? && r.scalar.Some?)
  {
    assert !l.HasModulo() && !r.HasModulo();
    AddShapesUnwrapped(l, r, 0);
    AddUnwrapped(l, r, false);
    var st := AddState(l, r, false).value;
    forall i | 0 <= i < st.Rank() ensures !st.offsets[i].T? && !st.strides[i].T? {
      AddDimStructured(l.offsets[i], l.strides[i], r.offsets[i], r.strides[i]);
    }
  }

  lemma AddDimStructured(lo: OFR, ls: OFR, ro: OFR, rs: OFR)
    requires !lo.T? && !ro.T? && !ls.T? && !rs.T?
    ensures !AddDim(lo, ls, ro, rs, false).0.T? && !AddDim(lo, ls, ro, rs, false).1.T?
  {
  }

  lemma NegAccepted(st: PState)
    requires Linear(st)
    ensures Linear(NegState(st)) && NegState(st).Rank() == st.Rank()
  {
  }

  /** A product is accepted with its factor on either side. */
  lemma ProductAccepted(l: PState, r: PState)
    requires Linear(l) && Linear(r) && l.sizes == r.sizes && l.source.None? && r.source.None?
    ensures MulState(l, r, false).Some? <==> l.scalar.Some? || r.scalar.Some?
    ensures MulState(l, r, false).Some? ==>
              var st := MulState(l, r, false).value;
              && Linear(st) && st.sizes == l.sizes && st.source.None?
              && (st.scalar.Some? <==> l.scalar.Some? && r.scalar.Some?)
  {
    assert !l.HasModulo() && !r.HasModulo();
    MulUnwrapped(l, r, false);
    if MulState(l, r, false).Some? {
      var st := MulState(l, r, false).value;
      var (a, b) := MulSides(l, r);
      forall i | 0 <= i < st.Rank() ensures !st.offsets[i].T? && !st.strides[i].T? {
        assert st.offsets[i] == MulDim(a.offsets[i], a.strides[i], a.shape[i], b.scalar.value, false).0;
        assert st.strides[i] == MulDim(a.offsets[i], a.strides[i], a.shape[i], b.scalar.value, false).1;
      }
    }
  }

  ghost predicate AcceptCase(e: Expr, c: Config, known: Known) {
    WellTyped(e) && Structural(e) && KnownFormed(known) && KnownValid(known) && !c.unstructured && e !in known
  }

  lemma {:induction false} SumCase(e: Expr, l: Expr, r: Expr, c: Config, known: Known)
    requires AcceptCase(e, c, known) && (e == Add(l, r) || e == Sub(l, r))
    ensures AcceptedAs(e, c, known)
    decreases e, 0
  {
    VisitAccepted(l, c, known);
    VisitAccepted(r, c, known);
    if Visit(l, c, known).Some? && Visit(r, c, known).Some? {
      var ls, rs := Visit(l, c, known).value, Visit(r, c, known).value;
      NegAccepted(rs);
      NothingGathered(l, r, ls, rs, c);
      assert !ls.HasModulo() && !rs.HasModulo();
      SumAccepted(ls, if e.Add? then rs else NegState(rs));
    }
  }

  lemma {:induction false} ProductCase(l: Expr, r: Expr, c: Config, known: Known)
    requires AcceptCase(Mul(l, r), c, known)
    ensures AcceptedAs(Mul(l, r), c, known)
    decreases Mul(l, r), 0
  {
    VisitAccepted(l, c, known);
    VisitAccepted(r, c, known);
    if Visit(l, c, known).Some? && Visit(r, c, known).Some? {
      var ls, rs := Visit(l, c, known).value, Visit(r, c, known).value;
      NothingGathered(l, r, ls, rs, c);
      ProductAccepted(ls, rs);
    }
  }

  lemma {:induction false} PointerCase(p: Expr, off: Expr, c: Config, known: Known)
    requires AcceptCase(AddPtr(p, off), c, known)
    ensures AcceptedAs(AddPtr(p, off), c, known)
    decreases AddPtr(p, off), 0
  {
    VisitAccepted(p, c, known);
    VisitAccepted(off, c, known);
    if Visit(p, c, known).Some? && Visit(off, c, known).Some? {
      SumAccepted(Visit(p, c, known).value, Visit(off, c, known).value);
    }
  }

  lemma {:induction false} ShapeCases(e: Expr, src: Expr, c: Config, known: Known)
    requires AcceptCase(e, c, known) && (e.Splat? || e.ExpandDims? || e.Broadcast? || e.ExtSI?) && src == e.src
    ensures AcceptedAs(e, c, known)
    decreases e, 0
  {
    VisitAccepted(src, c, known);
    if Visit(src, c, known).Some? {
      var st := Visit(src, c, known).value;
      match e
      case Splat(_, dims) => SplatAccepted(src, dims, st);
      case ExpandDims(_, axis) => ExpandAccepted(st, axis);
      case Broadcast(_, dims) => BroadcastAccepted(src, dims, st);
      case ExtSI(_) =>
    }
  }

  lemma SplatAccepted(src: Expr, dims: seq<nat>, st: PState)
    requires WellTyped(Splat(src, dims)) && Formed(src, st)
    ensures SplatState(st, dims).Some?
    ensures var r := SplatState(st, dims).value;
            Formed(Splat(src, dims), r) && r.scalar == st.scalar && r.origiOffsets == r.offsets
  {
    assert st.Rank() == |st.sizes| == 0;
    assert st.sizes + dims == dims;
  }

  lemma ExpandAccepted(st: PState, axis: nat)
    requires Linear(st) && axis <= st.Rank()
    ensures ExpandState(st, axis).Some?
    ensures var r := ExpandState(st, axis).value;
            && Linear(r) && r.sizes == Insert(st.sizes, axis, 1) && r.source == st.source
            && r.scalar == st.scalar && r.origiOffsets == r.offsets
  {
    ExpandUnwrapped(st, axis);
    var offsets, shape := Insert(st.offsets, axis, Attr(0)), Insert(st.shape, axis, Attr(0));
    var strides := Insert(st.strides, axis, Attr(0));
    forall i | 0 <= i <= st.Rank() ensures !offsets[i].T? && !strides[i].T? && shape[i] == Attr(0) {
      InsertAt(st.strides, axis, Attr(0), i);
      InsertAt(st.offsets, axis, Attr(0), i);
      InsertAt(st.shape, axis, Attr(0), i);
    }
  }

  lemma BroadcastAccepted(src: Expr, dims: seq<nat>, st: PState)
    requires WellTyped(Broadcast(src, dims)) && Formed(src, st)
    ensures var r := BroadcastState(st, ShapeOf(src), dims);
            Formed(Broadcast(src, dims), r) && r.scalar == st.scalar && r.origiOffsets == r.offsets
  {
    ShapePositive(src);
    assert BroadcastState(st, ShapeOf(src), dims).sizes == dims;
  }

  /**
   Without remainders and undecoded tensors visitOperand succeeds exactly for the decodable expressions, in either
   configuration. It then finds a structured state of the right shape, sees a scalar exactly in the uniform
   expressions, and keeps the offsets that belong to it.
   */
  lemma {:induction false} VisitAccepted(e: Expr, c: Config, known: Known)
    requires WellTyped(e) && Structural(e) && KnownFormed(known) && KnownValid(known) && !c.unstructured
    ensures AcceptedAs(e, c, known)
    decreases e, 1
  {
    if e !in known {
      match e
      case Splat(src, _) => ShapeCases(e, src, c, known);
      case ExpandDims(src, _) => ShapeCases(e, src, c, known);
      case Broadcast(src, _) => ShapeCases(e, src, c, known);
      case ExtSI(src) => ShapeCases(e, src, c, known);
      case Add(l, r) => SumCase(e, l, r, c, known);
      case Sub(l, r) => SumCase(e, l, r, c, known);
      case Mul(l, r) => ProductCase(l, r, c, known);
      case AddPtr(p, off) => PointerCase(p, off, c, known);
      case _ =>
    }
  }

  /** So for the decodable expressions the decoded value is right without further ado. */
  lemma DecodedAlways(e: Expr, gather: bool, w: World, x: seq<nat>)
    requires WellTyped(e) && Structural(e) && RemainderFree(e) && Decodable(e, map[])
    requires InBounds(x, ShapeOf(e)) && ShapeOf(e) != []
    ensures var st := Visit(e, Config(gather, false), map[]);
            && st.Some? && st.value.Structured() && st.value.Rank() == |x|
            && EvalX(e, w, x) == BaseVal(st.value, w) + Affine(st.value, w, x, 0)
  {
    VisitAccepted(e, Config(gather, false), map[]);
    DecodedExactly(e, gather, w, x);
  }

  /** A factor may stand on either side. */
  lemma FactorsSwap(l: Expr, r: Expr, c: Config, known: Known)
    requires WellTyped(Mul(l, r)) && Structural(Mul(l, r)) && KnownFormed(known) && KnownValid(known) && !c.unstructured
    requires Mul(l, r) !in known && Mul(r, l) !in known
    ensures Visit(Mul(l, r), c, known).Some? <==> Visit(Mul(r, l), c, known).Some?
  {
    VisitAccepted(Mul(l, r), c, known);
    VisitAccepted(Mul(r, l), c, known);
  }

  // ------------------------------------------------------------------
  // Wrapping dimensions
  // ------------------------------------------------------------------

  /** The bounds of a sum beside an operand that stays put. */
  lemma {:induction false} BoundsAccepted(a: PState, b: PState, i: nat)
    requires a.Valid() && b.Valid() && a.Rank() == b.Rank() && i <= a.Rank()
    requires forall d :: 0 <= d < a.Rank() && a.DimHasModulo(d) ==> HasConstZero(b.offsets[d])
    ensures AddShapes(a, b, i).Some?
    decreases a.Rank() - i
  {
    if i < a.Rank() { BoundsAccepted(a, b, i + 1); }
  }

  /** Structured operands that pass the tests of PtrPlain.Checked are added, with the wrapping one on either side. */
  lemma WrappingSumAccepted(l: PState, r: PState)
    requires l.Valid() && r.Valid() && l.Structured() && r.Structured() && AddChecked(l, r, false)
    requires l.Rank() == r.Rank() && (l.source.None? || r.source.None?) && !(l.HasModulo() && r.HasModulo())
    ensures AddState(l, r, false).Some?
  {
    if r.HasModulo() {
      forall d | 0 <= d < r.Rank() && r.DimHasModulo(d) ensures HasConstZero(l.offsets[d]) {
        assert DimChecked(l.offsets[d], l.strides[d], l.shape[d], r.offsets[d], r.strides[d], r.shape[d], false);
      }
      BoundsAccepted(r, l, 0);
    } else {
      forall d | 0 <= d < l.Rank() && l.DimHasModulo(d) ensures HasConstZero(r.offsets[d]) {
        assert DimChecked(l.offsets[d], l.strides[d], l.shape[d], r.offsets[d], r.strides[d], r.shape[d], false);
      }
      BoundsAccepted(l, r, 0);
    }
  }

  /** A scalar factor that does not wrap is accepted in front of and behind any tensor, wrapping or gathered. */
  lemma FactorAccepted(factor: PState, tensor: PState, u: bool)
    requires factor.Valid() && tensor.Valid() && factor.Rank() == tensor.Rank()
    requires factor.scalar.Some? && tensor.scalar.None? && !factor.HasModulo()
    requires factor.source.None? || tensor.source.None?
    ensures MulState(factor, tensor, u).Some? && MulState(tensor, factor, u).Some?
  {
  }

  /** A remainder of a structured operand: of a vector, or of a row or column of rank two. */
  lemma RemainderAccepted(st: PState, m: Val, e: Expr, c: Config)
    requires st.Valid() && st.sizes == ShapeOf(e) && st.Structured() && Unwrapped(st)
    ensures RemState(st, m, e, c).Some?
       <==> |ShapeOf(e)| == 1 || (|ShapeOf(e)| == 2 && (ShapeOf(e)[0] == 1 || ShapeOf(e)[1] == 1))
  {
    assert !st.HasModulo();
  }

  // ------------------------------------------------------------------
  // Vectors, with gathering
  // ------------------------------------------------------------------

  /** Integer vectors of n elements throughout. */
  predicate Flat(e: Expr, n: nat) {
    ShapeOf(e) == [n] &&
    match e
    case Range(_, _) => true
    case Splat(src, _) => src.IntScalar?
    case ConstSplat(_, _) => true
    case Other(_, _) => true
    case ExtSI(src) => Flat(src, n)
    case Add(l, r) => Flat(l, n) && Flat(r, n)
    case Sub(l, r) => Flat(l, n) && Flat(r, n)
    case Mul(l, r) => Flat(l, n) && Flat(r, n)
    case Rem(l, r) => Flat(l, n) && Flat(r, n)
    case _ => false
  }

  /** As before; a remainder passes for uniform with its dividend, but not in the gathering walk. */
  predicate UniformVector(e: Expr, u: bool) {
    match e
    case Splat(_, _) => true
    case ConstSplat(_, _) => true
    case ExtSI(src) => UniformVector(src, u)
    case Add(l, r) => UniformVector(l, u) && UniformVector(r, u)
    case Sub(l, r) => UniformVector(l, u) && UniformVector(r, u)
    case Mul(l, r) => UniformVector(l, u) && UniformVector(r, u)
    case Rem(l, _) => !u && UniformVector(l, u)
    case _ => false
  }

  predicate DecodableVector(e: Expr, u: bool) {
    match e
    case ExtSI(src) => DecodableVector(src, u)
    case Add(l, r) => DecodableVector(l, u) && DecodableVector(r, u)
    case Sub(l, r) => DecodableVector(l, u) && DecodableVector(r, u)
    case Mul(l, r) =>
      DecodableVector(l, u) && DecodableVector(r, u) && (UniformVector(l, u) || UniformVector(r, u))
    case Rem(l, r) => u || (DecodableVector(l, u) && DecodableVector(r, u) && UniformVector(r, u))
    case _ => true
  }

  predicate FormedVector(st: PState, n: nat) {
    st.Valid() && st.sizes == [n] && st.shape == [Attr(0)] && st.source.None?
  }

  ghost predicate VectorAcceptedAs(e: Expr, n: nat, u: bool) {
    var st := Visit(e, Config(true, u), map[]);
    && (st.Some? <==> DecodableVector(e, u))
    && (st.Some? ==> FormedVector(st.value, n) && (st.value.scalar.Some? <==> UniformVector(e, u)))
  }

  lemma VectorsAddable(l: PState, r: PState, n: nat, u: bool)
    requires FormedVector(l, n) && FormedVector(r, n)
    ensures AddState(l, r, u).Some? && FormedVector(AddState(l, r, u).value, n)
    ensures AddState(l, r, u).value.scalar.Some? <==> l.scalar.Some? && r.scalar.Some?
  {
    assert !l.HasModulo() && !r.HasModulo();
    AddShapesUnwrapped(l, r, 0);
    AddUnwrapped(l, r, u);
    if !l.Structured() && !r.Structured() { assert l.NonStructuredDim() == 0 == r.NonStructuredDim(); }
  }

  lemma VectorsMultiply(l: PState, r: PState, n: nat, u: bool)
    requires FormedVector(l, n) && FormedVector(r, n)
    ensures MulState(l, r, u).Some? <==> l.scalar.Some? || r.scalar.Some?
    ensures MulState(l, r, u).Some? ==> FormedVector(MulState(l, r, u).value, n)
    ensures MulState(l, r, u).Some? ==>
              (MulState(l, r, u).value.scalar.Some? <==> l.scalar.Some? && r.scalar.Some?)
  {
    assert !l.HasModulo() && !r.HasModulo();
    MulUnwrapped(l, r, u);
  }

  lemma VectorGathered(e: Expr, n: nat)
    requires n >= 2 && ShapeOf(e) == [n] && !IsPtr(e)
    ensures RebuildAsUnsupportedOp(e).Some? && FormedVector(RebuildAsUnsupportedOp(e).value, n)
    ensures RebuildAsUnsupportedOp(e).value.scalar.None?
  {
    assert SingleDim([n], 0);
  }

  lemma VectorRemainder(st: PState, m: Val, e: Expr, n: nat)
    requires n >= 2 && ShapeOf(e) == [n] && FormedVector(st, n)
    ensures var r := RemState(st, m, e, Config(true, false));
            r.Some? && FormedVector(r.value, n) && r.value.scalar == st.scalar
  {
    assert !st.HasModulo();
    Regathered(st, e, n);
    if st.Structured() {
      assert RemState(st, m, e, Config(true, false)) == Some(RemDim(st, m, e, 0, Config(true, false)));
    } else {
      assert st.NonStructuredDim() == 0;
    }
  }

  lemma Regathered(st: PState, e: Expr, n: nat)
    requires n >= 2 && ShapeOf(e) == [n] && FormedVector(st, n)
    ensures var r := RebuildAsGatherScatter(st, e, 0);
            r.Some? && FormedVector(r.value, n) && r.value.scalar == st.scalar
  {
    assert SingleDim([n], 0);
    assert st.shape[0 := Attr(0)] == [Attr(0)];
  }

  lemma {:induction false} VectorCase(e: Expr, l: Expr, r: Expr, n: nat, u: bool)
    requires n >= 2 && WellTyped(e) && Flat(e, n)
    requires e == Add(l, r) || e == Sub(l, r) || e == Mul(l, r) || e == Rem(l, r)
    ensures VectorAcceptedAs(e, n, u)
    decreases e, 0
  {
    var c := Config(true, u);
    VectorAccepted(l, n, u);
    VectorAccepted(r, n, u);
    if e.Rem? && u {
      VectorGathered(e, n);
    } else if Visit(l, c, map[]).Some? && Visit(r, c, map[]).Some? {
      var ls, rs := Visit(l, c, map[]).value, Visit(r, c, map[]).value;
      VectorOperands(e, l, r, ls, rs, n, u);
    }
  }

  lemma VectorOperands(e: Expr, l: Expr, r: Expr, ls: PState, rs: PState, n: nat, u: bool)
    requires n >= 2 && ShapeOf(e) == [n] && FormedVector(ls, n) && FormedVector(rs, n)
    requires e == Add(l, r) || e == Sub(l, r) || e == Mul(l, r) || (e == Rem(l, r) && !u)
    requires Visit(l, Config(true, u), map[]) == Some(ls) && Visit(r, Config(true, u), map[]) == Some(rs)
    ensures var st := Visit(e, Config(true, u), map[]);
            && (st.Some? <==> e.Add? || e.Sub? || (e.Mul? && (ls.scalar.Some? || rs.scalar.Some?))
                              || (e.Rem? && rs.scalar.Some?))
            && (st.Some? ==> FormedVector(st.value, n))
            && (st.Some? ==> (st.value.scalar.Some? <==> ls.scalar.Some? && (e.Rem? || rs.scalar.Some?)))
  {
    assert !ls.HasModulo() && !rs.HasModulo();
    NothingGathered(l, r, ls, rs, Config(true, u));
    match e
    case Add(_, _) => VectorsAddable(ls, rs, n, u);
    case Sub(_, _) => VectorsAddable(ls, NegState(rs), n, u);
    case Mul(_, _) => VectorsMultiply(ls, rs, n, u);
    case Rem(_, _) => if rs.scalar.Some? { VectorRemainder(ls, rs.scalar.value, e, n); }
  }

  /**
   With gathering enabled, both walks over vectors of two elements or more succeed exactly where every product has a
   uniform factor and, in the first walk, every remainder a uniform divisor.
   */
  lemma {:induction false} VectorAccepted(e: Expr, n: nat, u: bool)
    requires n >= 2 && WellTyped(e) && Flat(e, n)
    ensures VectorAcceptedAs(e, n, u)
    decreases e, 1
  {
    match e
    case ExtSI(src) => VectorAccepted(src, n, u);
    case Add(l, r) => VectorCase(e, l, r, n, u);
    case Sub(l, r) => VectorCase(e, l, r, n, u);
    case Mul(l, r) => VectorCase(e, l, r, n, u);
    case Rem(l, r) => VectorCase(e, l, r, n, u);
    case Other(_, _) => VectorGathered(e, n);
    case Splat(src, d) => SplatVector(src, d, n, u);
    case ConstSplat(k, d) => assert ConstSplatState(k, [n]).shape == [Attr(0)];
    case Range(_, _) =>
  }

  lemma SplatVector(src: Expr, d: seq<nat>, n: nat, u: bool)
    requires src.IntScalar? && d == [n]
    ensures VectorAcceptedAs(Splat(src, d), n, u)
  {
    assert Visit(src, Config(true, u), map[]) == Some(EMPTY.(scalar := Some(IndexCast(src.v))));
    assert [] + d == d && [] + Repeat(Attr(0), 1) == [Attr(0)];
  }

  // ------------------------------------------------------------------
  // What is refused
  // ------------------------------------------------------------------

  /** Two pointers, two wrapping operands, operands of different rank, or two gathered in different dimensions. */
  lemma SumRefused(l: PState, r: PState, u: bool)
    requires l.Valid() && r.Valid()
    requires l.Rank() != r.Rank() || (l.source.Some? && r.source.Some?) || (l.HasModulo() && r.HasModulo()) ||
             (!l.Structured() && !r.Structured() && l.NonStructuredDim() != r.NonStructuredDim())
    ensures AddState(l, r, u).None?
  {
  }

  /** An offset beside a wrapping dimension, unless it is the scalar of a matrix in front of dimension 0. */
  lemma {:induction false} OffsetRefused(a: PState, b: PState, i: nat, d: nat)
    requires a.Valid() && b.Valid() && a.Rank() == b.Rank() && i <= d < a.Rank()
    requires a.DimHasModulo(d) && !a.offsets[d].T? && !b.offsets[d].T? && !HasConstZero(b.offsets[d])
    requires a.Rank() != 2 || b.scalar.None?
    ensures AddShapes(a, b, i).None?
    decreases d - i
  {
    if i < d { OffsetRefused(a, b, i + 1, d); }
  }

  lemma WrappingSumRefused(l: PState, r: PState, d: nat, u: bool)
    requires l.Valid() && r.Valid() && l.Rank() == r.Rank() && d < l.Rank() && (l.Rank() != 2 || r.scalar.None?)
    requires l.DimHasModulo(d) && !l.offsets[d].T? && !r.offsets[d].T? && !HasConstZero(r.offsets[d])
    ensures AddState(l, r, u).None?
    ensures l.Rank() != 2 || l.scalar.None? ==> AddState(r, l, u).None? || r.HasModulo()
  {
    OffsetRefused(l, r, 0, d);
    assert l.HasModulo();
  }

  /** A wrapping vector is not added to anything. */
  lemma WrappingVectorRefused(l: Expr, r: Expr, c: Config, known: Known)
    requires KnownValid(known) && Visit(l, c, known).Some? && Visit(r, c, known).Some?
    requires c.unstructured || Add(l, r) !in known
    requires var ls, rs := Visit(l, c, known).value, Visit(r, c, known).value;
             (ls.Rank() == 1 && ls.HasModulo()) || (rs.Rank() == 1 && rs.HasModulo())
    ensures Visit(Add(l, r), c, known).None?
  {
  }

  /** A product of two pointers, without a scalar factor, or with a factor that wraps. */
  lemma ProductRefused(l: PState, r: PState, u: bool)
    requires l.Valid() && r.Valid()
    requires (l.source.Some? && r.source.Some?) || (l.scalar.None? && r.scalar.None?) ||
             (if r.scalar.Some? then r.HasModulo() else l.HasModulo())
    ensures MulState(l, r, u).None?
  {
  }

  /** More than two dimensions, one of which wraps around. */
  lemma ExpandRefused(st: PState, axis: nat)
    requires st.Valid() && st.HasModulo() && axis <= st.Rank() && st.Rank() >= 2
    ensures ExpandState(st, axis).None?
  {
    var d :| 0 <= d < st.Rank() && st.DimHasModulo(d);
    InsertAt(st.shape, axis, Attr(0), if d < axis then d else d + 1);
    var r := st.(offsets := Insert(st.offsets, axis, Attr(0)), origiOffsets := Insert(st.offsets, axis, Attr(0)),
                 sizes := Insert(st.sizes, axis, 1), strides := Insert(st.strides, axis, Attr(0)),
                 shape := Insert(st.shape, axis, Attr(0)));
    assert r.DimHasModulo(if d < axis then d else d + 1);
  }

  lemma SplatRefused(st: PState, dims: seq<nat>)
    requires st.Valid() && st.HasModulo() && st.Rank() + |dims| > 2
    ensures SplatState(st, dims).None?
  {
    var d :| 0 <= d < st.Rank() && st.DimHasModulo(d);
    var n, offs := |dims|, st.offsets + Repeat(Attr(0), |dims|);
    var r := PState(st.source, st.scalar, if st.scalar.Some? && |offs| > 0 then offs[0 := V(st.scalar.value)] else offs,
                    st.sizes + dims, st.strides + Repeat(Attr(0), n), st.shape + Repeat(Attr(0), n), []);
    assert r.shape[d] == st.shape[d];
    assert r.DimHasModulo(d);
    assert r.(origiOffsets := r.offsets).DimHasModulo(d);
  }

  /** A second remainder, unless it can be gathered, and a remainder of more than two dimensions. */
  lemma RemainderRefused(st: PState, m: Val, e: Expr, c: Config)
    requires st.Valid() && st.Structured()
    requires (st.HasModulo() && (st.Rank() != 1 || !c.gather)) || st.Rank() > 2
    ensures RemState(st, m, e, c).None?
  {
  }

  /** Beside a gathered operand a wrapping one is gathered in the same dimension, where gathering is enabled. */
  lemma MixedGathered(own: PState, e: Expr, other: PState, c: Config)
    requires own.Valid() && other.Valid() && own.sizes == ShapeOf(e) && own.HasModulo() && !other.Structured()
    requires SingleDim(ShapeOf(e), other.NonStructuredDim())
    ensures GatherModulo(own, e, other, c).Some? <==> c.gather
    ensures c.gather ==>
              var d, st := other.NonStructuredDim(), GatherModulo(own, e, other, c).value;
              st.offsets[d] == T(Orig(e)) && st.strides[d] == Attr(1) && st.shape[d] == Attr(0)
  {
  }
}
