/**
 OpFoldResult arithmetic with its constant shortcuts, and the deep equality test that looks through
 index casts, `arith.minsi` and `arith.subi` (lib/Analysis/OpFoldResultUtils.cpp).
 */
module Folding {
  import opened Wrappers
  import opened Ir

  // ------------------------------------------------------------------
  // Folders
  // ------------------------------------------------------------------

  predicate HasConstZero(o: OFR) {
    o == Attr(0) || o == V(ConstV(0))
  }

  /** The operand as a scalar value: an attribute becomes a constant op. */
  function AsVal(o: OFR): Val
    requires !o.T?
  {
    if o.Attr? then ConstV(o.n) else o.v
  }

  /** The operand as a tensor: expandOFRIndex splats a scalar to the type of the tensor side. */
  function AsTens(o: OFR): Tens {
    if o.T? then o.t else TSplat(AsVal(o))
  }

  /** expandOFRIndex: cast or splat `o` so that it has the type of `target`. */
  function ExpandTo(o: OFR, target: OFR): OFR {
    if target.T? && !o.T? then T(TSplat(AsVal(o))) else o
  }

  function AddOFRs(l: OFR, r: OFR): (res: OFR)
    ensures res.T? ==> l.T? || r.T?
  {
    if !l.Attr? && r == Attr(0) then l
    else if !r.Attr? && l == Attr(0) then r
    else if l.Attr? && r.Attr? then Attr(l.n + r.n)
    else if l.T? || r.T? then T(TAdd(AsTens(l), AsTens(r)))
    else V(AddI(AsVal(l), AsVal(r)))
  }

  function SubOFRs(l: OFR, r: OFR): (res: OFR)
    ensures res.T? ==> l.T? || r.T?
  {
    if !l.Attr? && r == Attr(0) then l
    else if l.Attr? && r.Attr? then Attr(l.n - r.n)
    else if l.T? || r.T? then T(TSub(AsTens(l), AsTens(r)))
    else V(SubI(AsVal(l), AsVal(r)))
  }

  /** Multiplication alone also sees through a value that is a constant op. */
  function MulConst(o: OFR): Option<int> {
    match o
    case Attr(n) => Some(n)
    case V(ConstV(n)) => Some(n)
    case _ => None
  }

  function MulOFRs(l: OFR, r: OFR): (res: OFR)
    ensures res.T? ==> l.T? || r.T?
  {
    var lc, rc := MulConst(l), MulConst(r);
    if lc == Some(0) then l
    else if lc == Some(1) then r
    else if rc == Some(0) then r
    else if rc == Some(1) then l
    else if lc.Some? && rc.Some? then Attr(lc.value * rc.value)
    else if l.T? || r.T? then T(TMul(AsTens(l), AsTens(r)))
    else V(MulI(AsVal(l), AsVal(r)))
  }

  function MinOFRs(l: OFR, r: OFR): (res: OFR)
    requires !l.T? && !r.T?
    ensures !res.T?
  {
    if l.Attr? && r.Attr? then Attr(MinInt(l.n, r.n)) else V(MinSI(AsVal(l), AsVal(r)))
  }

  function MaxOFRs(l: OFR, r: OFR): (res: OFR)
    requires !l.T? && !r.T?
    ensures !res.T?
  {
    if l.Attr? && r.Attr? then Attr(MaxInt(l.n, r.n)) else V(MaxSI(AsVal(l), AsVal(r)))
  }

  /** Attributes are compared as signed numbers, whatever the predicate says. */
  function AsSigned(pred: Pred): Pred {
    match pred
    case Ult => Slt
    case Ule => Sle
    case Ugt => Sgt
    case Uge => Sge
    case _ => pred
  }

  function CompareOFRs(l: OFR, r: OFR, pred: Pred, onTrue: OFR, onFalse: OFR): (res: OFR)
    ensures res.T? ==> onTrue.T? || onFalse.T?
  {
    if l.Attr? && r.Attr? then
      if Holds(AsSigned(pred), l.n, r.n) then onTrue else onFalse
    else if l.T? || r.T? || onTrue.T? || onFalse.T? then onFalse
    else V(CmpSelect(pred, AsVal(l), AsVal(r), AsVal(onTrue), AsVal(onFalse)))
  }

  /** Every folder denotes its operation, whichever shortcut it took, at every index and in every world. */
  lemma FoldersPreserveValue(l: OFR, r: OFR, w: World, k: nat)
    ensures EvalAt(AddOFRs(l, r), w, k) == EvalAt(l, w, k) + EvalAt(r, w, k)
    ensures EvalAt(SubOFRs(l, r), w, k) == EvalAt(l, w, k) - EvalAt(r, w, k)
    ensures EvalAt(MulOFRs(l, r), w, k) == EvalAt(l, w, k) * EvalAt(r, w, k)
    ensures !l.T? && !r.T? ==> EvalAt(MinOFRs(l, r), w, k) == MinInt(EvalAt(l, w, k), EvalAt(r, w, k))
    ensures !l.T? && !r.T? ==> EvalAt(MaxOFRs(l, r), w, k) == MaxInt(EvalAt(l, w, k), EvalAt(r, w, k))
  {
    AddValue(l, r, w, k);
    SubValue(l, r, w, k);
    MulValue(l, r, w, k);
    OperandValue(l, w, k);
    OperandValue(r, w, k);
  }

  /** Materialising an operand as a constant op or as a splat keeps its value. */
  lemma OperandValue(o: OFR, w: World, k: nat)
    ensures !o.T? ==> Eval(AsVal(o), w) == EvalAt(o, w, k) == EvalO(o, w)
    ensures EvalT(AsTens(o), w, k) == EvalAt(o, w, k)
    ensures MulConst(o).Some? ==> EvalAt(o, w, k) == MulConst(o).value
  {
    match o
    case Attr(n) => assert Eval(ConstV(n), w) == n;
    case V(v) => assert EvalT(TSplat(v), w, k) == Eval(v, w);
    case T(t) =>
  }

  lemma AddValue(l: OFR, r: OFR, w: World, k: nat)
    ensures EvalAt(AddOFRs(l, r), w, k) == EvalAt(l, w, k) + EvalAt(r, w, k)
    ensures AddOFRs(l, r).T? <==> l.T? || r.T?
  {
    OperandValue(l, w, k);
    OperandValue(r, w, k);
  }

  lemma SubValue(l: OFR, r: OFR, w: World, k: nat)
    ensures EvalAt(SubOFRs(l, r), w, k) == EvalAt(l, w, k) - EvalAt(r, w, k)
    ensures SubOFRs(l, r).T? <==> l.T? || r.T?
  {
    OperandValue(l, w, k);
    OperandValue(r, w, k);
  }

  lemma MulValue(l: OFR, r: OFR, w: World, k: nat)
    ensures EvalAt(MulOFRs(l, r), w, k) == EvalAt(l, w, k) * EvalAt(r, w, k)
    ensures MulOFRs(l, r).T? ==> l.T? || r.T?
  {
    OperandValue(l, w, k);
    OperandValue(r, w, k);
  }

  /** Two attributes of different signs are in the other order when they are read as unsigned. */
  predicate ComparesAsSigned(pred: Pred, l: OFR, r: OFR) {
    pred != AsSigned(pred) && l.Attr? && r.Attr? ==> (l.n < 0 <==> r.n < 0)
  }

  /** A comparison folds to the branch it selects, for every predicate, exactly when it may be read as signed. */
  lemma CompareValue(l: OFR, r: OFR, pred: Pred, t: OFR, f: OFR, w: World)
    requires !l.T? && !r.T? && !t.T? && !f.T?
    ensures EvalO(CompareOFRs(l, r, pred, t, f), w)
         == (if Holds(pred, EvalO(l, w), EvalO(r, w)) then EvalO(t, w) else EvalO(f, w))
        <==> ComparesAsSigned(pred, l, r) || EvalO(t, w) == EvalO(f, w)
  {
    OperandValue(l, w, 0);
    OperandValue(r, w, 0);
    OperandValue(t, w, 0);
    OperandValue(f, w, 0);
  }

  // ------------------------------------------------------------------
  // Deep equality
  // ------------------------------------------------------------------

  function Size(v: Val): nat {
    match v
    case IndexCast(a) => 1 + Size(a)
    case AddI(a, b) => 1 + Size(a) + Size(b)
    case SubI(a, b) => 1 + Size(a) + Size(b)
    case MulI(a, b) => 1 + Size(a) + Size(b)
    case MinSI(a, b) => 1 + Size(a) + Size(b)
    case MaxSI(a, b) => 1 + Size(a) + Size(b)
    case _ => 1
  }

  function Peel(v: Val): (r: Val)
    ensures !r.IndexCast?
    ensures Size(r) <= Size(v)
    ensures !v.IndexCast? ==> r == v
    ensures forall w: World :: Eval(r, w) == Eval(v, w)
  {
    if v.IndexCast? then Peel(v.arg) else v
  }

  /** The loop of peelTrivialIndexExpr. */
  method PeelTrivialIndexExpr(v: Val) returns (r: Val)
    ensures r == Peel(v)
  {
    r := v;
    while r.IndexCast?
      invariant Peel(r) == Peel(v)
      decreases r
    {
      r := r.arg;
    }
  }

  function GetConstantIntLike(v: Val): Option<int> {
    match v
    case ConstV(n) => Some(n)
    case IndexCast(a) => GetConstantIntLike(a)
    case _ => None
  }

  predicate SameValueOrEquivalentCast(l: Val, r: Val) {
    l == r || (l.IndexCast? && l.arg == r) || (r.IndexCast? && r.arg == l)
  }

  predicate SameMinSIOp(l: Val, r: Val)
    requires l.MinSI? && r.MinSI?
    decreases Size(l) + Size(r), 0
  {
    (SameBoundedSizeExpr(Peel(l.a), Peel(r.a)) && SameBoundedSizeExpr(Peel(l.b), Peel(r.b))) ||
    (SameBoundedSizeExpr(Peel(l.a), Peel(r.b)) && SameBoundedSizeExpr(Peel(l.b), Peel(r.a)))
  }

  predicate SameSubIOp(l: Val, r: Val)
    requires l.SubI? && r.SubI?
    decreases Size(l) + Size(r), 0
  {
    SameBoundedSizeExpr(l.a, r.a) && SameBoundedSizeExpr(l.b, r.b)
  }

  predicate SameBoundedSizeExpr(lhs: Val, rhs: Val)
    decreases Size(lhs) + Size(rhs), 1
  {
    var l, r := Peel(lhs), Peel(rhs);
    if SameValueOrEquivalentCast(l, r) then true
    else if GetConstantIntLike(l).Some? && GetConstantIntLike(r).Some? then
      GetConstantIntLike(l) == GetConstantIntLike(r)
    else if l.MinSI? && r.MinSI? then SameMinSIOp(l, r)
    else if l.SubI? && r.SubI? then SameSubIOp(l, r)
    else false
  }

  predicate SameOFR(l: OFR, r: OFR) {
    if l.Attr? && r.Attr? then l == r
    else if l.T? || r.T? then l == r
    else if l.V? && r.V? then SameBoundedSizeExpr(l.v, r.v)
    else if l.Attr? then GetConstantIntLike(r.v) == Some(l.n)
    else GetConstantIntLike(l.v) == Some(r.n)
  }

  lemma {:induction false} ConstantValue(v: Val, w: World)
    ensures GetConstantIntLike(v).Some? ==> Eval(v, w) == GetConstantIntLike(v).value
  {
    if v.IndexCast? { ConstantValue(v.arg, w); }
  }

  lemma {:induction false} BoundedSound(l: Val, r: Val, w: World)
    requires SameBoundedSizeExpr(l, r)
    ensures Eval(l, w) == Eval(r, w)
    decreases Size(l) + Size(r)
  {
    var p, q := Peel(l), Peel(r);
    ConstantValue(p, w);
    ConstantValue(q, w);
    if p != q && !(p.ConstV? && q.ConstV?) {
      if p.MinSI? && q.MinSI? {
        if SameBoundedSizeExpr(Peel(p.a), Peel(q.a)) && SameBoundedSizeExpr(Peel(p.b), Peel(q.b)) {
          BoundedSound(Peel(p.a), Peel(q.a), w);
          BoundedSound(Peel(p.b), Peel(q.b), w);
        } else {
          BoundedSound(Peel(p.a), Peel(q.b), w);
          BoundedSound(Peel(p.b), Peel(q.a), w);
        }
      } else {
        BoundedSound(p.a, q.a, w);
        BoundedSound(p.b, q.b, w);
      }
    }
  }

  lemma {:induction false} BoundedSymmetric(l: Val, r: Val)
    requires SameBoundedSizeExpr(l, r)
    ensures SameBoundedSizeExpr(r, l)
    decreases Size(l) + Size(r)
  {
    var p, q := Peel(l), Peel(r);
    if p != q && !(GetConstantIntLike(p).Some? && GetConstantIntLike(q).Some?) {
      if p.MinSI? && q.MinSI? {
        if SameBoundedSizeExpr(Peel(p.a), Peel(q.a)) && SameBoundedSizeExpr(Peel(p.b), Peel(q.b)) {
          BoundedSymmetric(Peel(p.a), Peel(q.a));
          BoundedSymmetric(Peel(p.b), Peel(q.b));
        } else {
          BoundedSymmetric(Peel(p.a), Peel(q.b));
          BoundedSymmetric(Peel(p.b), Peel(q.a));
        }
      } else {
        BoundedSymmetric(p.a, q.a);
        BoundedSymmetric(p.b, q.b);
      }
    }
  }

  lemma {:induction false} BoundedTransitive(a: Val, b: Val, c: Val)
    requires SameBoundedSizeExpr(a, b) && SameBoundedSizeExpr(b, c)
    ensures SameBoundedSizeExpr(a, c)
    decreases Size(a) + Size(b) + Size(c)
  {
    var p, q, r := Peel(a), Peel(b), Peel(c);
    if p == q || q == r || p == r {
    } else if p.MinSI? {
      MinTransitive(p, q, r);
    } else if p.SubI? {
      BoundedTransitive(p.a, q.a, r.a);
      BoundedTransitive(p.b, q.b, r.b);
    }
  }

  /** Two operand orders on each side give four ways to chain the matches of a minimum. */
  lemma {:induction false} MinTransitive(p: Val, q: Val, r: Val)
    requires p.MinSI? && q.MinSI? && r.MinSI?
    requires SameMinSIOp(p, q) && SameMinSIOp(q, r)
    ensures SameMinSIOp(p, r)
    decreases Size(p) + Size(q) + Size(r), 0
  {
    var pa, pb, qa, qb, ra, rb := Peel(p.a), Peel(p.b), Peel(q.a), Peel(q.b), Peel(r.a), Peel(r.b);
    if SameBoundedSizeExpr(pa, qa) && SameBoundedSizeExpr(pb, qb) {
      if SameBoundedSizeExpr(qa, ra) && SameBoundedSizeExpr(qb, rb) {
        BoundedTransitive(pa, qa, ra);
        BoundedTransitive(pb, qb, rb);
      } else {
        BoundedTransitive(pa, qa, rb);
        BoundedTransitive(pb, qb, ra);
      }
    } else {
      if SameBoundedSizeExpr(qa, ra) && SameBoundedSizeExpr(qb, rb) {
        BoundedTransitive(pa, qb, rb);
        BoundedTransitive(pb, qa, ra);
      } else {
        BoundedTransitive(pa, qb, ra);
        BoundedTransitive(pb, qa, rb);
      }
    }
  }

  /** A value equal to a constant-like value is itself constant-like, with the same constant. */
  lemma BoundedConstant(l: Val, r: Val)
    requires SameBoundedSizeExpr(l, r)
    ensures GetConstantIntLike(l) == GetConstantIntLike(r)
  {
    ConstantPeel(l);
    ConstantPeel(r);
  }

  lemma {:induction false} ConstantPeel(v: Val)
    ensures GetConstantIntLike(v) == if Peel(v).ConstV? then Some(Peel(v).n) else None
  {
    if v.IndexCast? { ConstantPeel(v.arg); }
  }

  /** sameOFR answers yes only for operands that are equal in every world and at every index. */
  lemma SameOFRSound(l: OFR, r: OFR, w: World, k: nat)
    requires SameOFR(l, r)
    ensures EvalAt(l, w, k) == EvalAt(r, w, k)
  {
    if l.V? && r.V? {
      BoundedSound(l.v, r.v, w);
    } else if l.Attr? && r.V? {
      ConstantValue(r.v, w);
    } else if l.V? && r.Attr? {
      ConstantValue(l.v, w);
    }
  }

  /** sameOFR is an equivalence relation on attributes and on cast, min and sub trees alike. */
  lemma SameOFREquivalence(a: OFR, b: OFR, c: OFR)
    ensures SameOFR(a, a)
    ensures SameOFR(a, b) ==> SameOFR(b, a)
    ensures SameOFR(a, b) && SameOFR(b, c) ==> SameOFR(a, c)
  {
    if SameOFR(a, b) && a.V? && b.V? {
      BoundedSymmetric(a.v, b.v);
    }
    if SameOFR(a, b) && SameOFR(b, c) {
      SameOFRTransitive(a, b, c);
    }
  }

  lemma SameOFRTransitive(a: OFR, b: OFR, c: OFR)
    requires SameOFR(a, b) && SameOFR(b, c)
    ensures SameOFR(a, c)
  {
    if b.V? {
      ConstantPeel(b.v);
      if a.V? {
        BoundedConstant(a.v, b.v);
        ConstantPeel(a.v);
      }
      if c.V? {
        BoundedConstant(b.v, c.v);
        ConstantPeel(c.v);
      }
      if a.V? && c.V? {
        BoundedTransitive(a.v, b.v, c.v);
      }
    } else if b.Attr? && a.V? && c.V? {
      ConstantPeel(a.v);
      ConstantPeel(c.v);
    }
  }

  /**
   Constants are folded, zero and one are absorbed, and nothing else becomes a constant: an op is created only where
   there is something left to compute.
   */
  lemma NothingNeedless(l: OFR, r: OFR, pred: Pred, t: OFR, f: OFR)
    ensures AddOFRs(l, r).Attr? <==> l.Attr? && r.Attr?
    ensures SubOFRs(l, r).Attr? <==> l.Attr? && r.Attr?
    ensures MulConst(MulOFRs(l, r)).Some? <==>
              (MulConst(l).Some? && MulConst(r).Some?) || HasConstZero(l) || HasConstZero(r)
    ensures AddOFRs(l, Attr(0)) == AddOFRs(Attr(0), l) == SubOFRs(l, Attr(0)) == l
    ensures MulConst(r) == Some(1) && MulConst(l).None? ==> MulOFRs(l, r) == MulOFRs(r, l) == l
    ensures !l.T? && !r.T? ==> (MinOFRs(l, r).Attr? <==> l.Attr? && r.Attr?)
    ensures !l.T? && !r.T? ==> (MaxOFRs(l, r).Attr? <==> l.Attr? && r.Attr?)
    ensures !l.T? && !r.T? && l.Attr? && r.Attr? ==> CompareOFRs(l, r, pred, t, f) in {t, f}
  {
  }

  /** It looks through casts, also inside of minima and differences, and takes minima in either order. */
  lemma SameOFRCongruence(a: Val, b: Val, c: Val, d: Val)
    ensures SameOFR(V(IndexCast(a)), V(a))
    ensures SameOFR(V(a), V(c)) && SameOFR(V(b), V(d)) ==>
              && SameOFR(V(MinSI(a, b)), V(MinSI(c, d))) && SameOFR(V(MinSI(a, b)), V(MinSI(d, c)))
              && SameOFR(V(SubI(a, b)), V(SubI(c, d)))
  {
    PeeledSame(a, c);
    PeeledSame(b, d);
    BoundedReflexive(a);
  }

  lemma PeeledSame(l: Val, r: Val)
    ensures SameBoundedSizeExpr(l, r) <==> SameBoundedSizeExpr(Peel(l), Peel(r))
  {
  }

  lemma BoundedReflexive(v: Val)
    ensures SameBoundedSizeExpr(IndexCast(v), v)
  {
    assert Peel(IndexCast(v)) == Peel(v);
  }

  /** An attribute is the same as a constant op under any casts. */
  lemma ConstantsSame(n: int, v: Val)
    ensures SameOFR(Attr(n), V(v)) == SameOFR(V(v), Attr(n)) == SameOFR(V(ConstV(n)), V(v))
  {
    ConstantPeel(v);
    if SameOFR(V(ConstV(n)), V(v)) { BoundedConstant(ConstV(n), v); }
  }

  /** The commuted minimum is accepted, a commuted difference is not. */
  lemma CommutedMinimum(a: Val, b: Val)
    ensures SameOFR(V(MinSI(a, b)), V(MinSI(b, a)))
    ensures !SameOFR(V(SubI(Leaf(0), Leaf(1))), V(SubI(Leaf(1), Leaf(0))))
  {
    assert SameBoundedSizeExpr(Peel(a), Peel(a)) && SameBoundedSizeExpr(Peel(b), Peel(b));
  }
}
