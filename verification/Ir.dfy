/**
 The part of the tensor IR that pointer and mask analysis reads and writes: scalar SSA values,
 integer and pointer tensors, and OpFoldResult, together with their meaning.

 Integers are mathematical integers. Two SSA values are the same when the same operation built
 them from the same operands.
 */
module Ir {

  /** The predicates of arith.cmpi. */
  datatype Pred = Eq | Ne | Slt | Sle | Sgt | Sge | Ult | Ule | Ugt | Uge

  /** A scalar SSA value of index, integer or i1 type. `Leaf` is any value the analyses do not look into. */
  datatype Val =
    | Leaf(id: nat)
    | ConstV(n: int)
    | IndexCast(arg: Val)
    | AddI(a: Val, b: Val)
    | SubI(a: Val, b: Val)
    | MulI(a: Val, b: Val)
    | MinSI(a: Val, b: Val)
    | MaxSI(a: Val, b: Val)
    | CmpSelect(pred: Pred, a: Val, b: Val, onTrue: Val, onFalse: Val)
    | Select(cond: Val, onTrue: Val, onFalse: Val)

  /** What the leaves of an expression stand for: scalars, undecoded tensors, pointer arguments. */
  datatype World = World(vals: nat -> int, tens: (nat, seq<nat>) -> int, ptr: nat -> int)

  function MinInt(a: int, b: int): int { if a <= b then a else b }

  function MaxInt(a: int, b: int): int { if a >= b then a else b }

  predicate Holds(pred: Pred, a: int, b: int) {
    match pred
    case Eq => a == b
    case Ne => a != b
    case Slt => a < b
    case Sle => a <= b
    case Sgt => a > b
    case Sge => a >= b
    case Ult => Below(a, b)
    case Ule => !Below(b, a)
    case Ugt => Below(b, a)
    case Uge => !Below(a, b)
  }

  /** The unsigned order of two's complement numbers, whatever their width: the negative ones come last. */
  predicate Below(a: int, b: int) {
    if a < 0 <==> b < 0 then a < b else b < 0
  }

  /** arith.remsi: the remainder takes the sign of the dividend. The undefined m == 0 gives 0. */
  function TruncRem(a: int, m: int): int {
    if m == 0 then 0
    else
      var d := if m > 0 then m else -m;
      if a >= 0 then a % d else -((-a) % d)
  }

  function Eval(v: Val, w: World): int {
    match v
    case Leaf(id) => w.vals(id)
    case ConstV(n) => n
    case IndexCast(a) => Eval(a, w)
    case AddI(a, b) => Eval(a, w) + Eval(b, w)
    case SubI(a, b) => Eval(a, w) - Eval(b, w)
    case MulI(a, b) => Eval(a, w) * Eval(b, w)
    case MinSI(a, b) => MinInt(Eval(a, w), Eval(b, w))
    case MaxSI(a, b) => MaxInt(Eval(a, w), Eval(b, w))
    case CmpSelect(p, a, b, t, f) => if Holds(p, Eval(a, w), Eval(b, w)) then Eval(t, w) else Eval(f, w)
    case Select(c, t, f) => if Eval(c, w) != 0 then Eval(t, w) else Eval(f, w)
  }

  // ------------------------------------------------------------------
  // Tensor expressions
  // ------------------------------------------------------------------

  /** A tensor or pointer operand as a tree of the operations that visitOperand dispatches on. */
  datatype Expr =
    | IntScalar(v: Val)                                 // integer- or index-typed operand
    | PtrArg(id: nat)                                   // scalar pointer that is its own source
    | Range(start: int, end: int)                       // tt.make_range
    | Splat(src: Expr, dims: seq<nat>)                  // tt.splat
    | ConstSplat(c: int, dims: seq<nat>)                // arith.constant dense<c>
    | ExpandDims(src: Expr, axis: nat)                  // tt.expand_dims
    | Broadcast(src: Expr, dims: seq<nat>)              // tt.broadcast
    | Add(l: Expr, r: Expr)
    | Sub(l: Expr, r: Expr)
    | Mul(l: Expr, r: Expr)
    | Rem(l: Expr, r: Expr)
    | ExtSI(src: Expr)
    | AddPtr(p: Expr, off: Expr)                        // tt.addptr
    | IterArg(id: nat, dims: seq<nat>, isPtr: bool)     // block argument of a loop
    | Other(id: nat, dims: seq<nat>)                    // integer tensor from any other operation

  function Insert<T>(s: seq<T>, axis: nat, v: T): (r: seq<T>)
    ensures |r| == |s| + 1
  {
    if axis <= |s| then s[..axis] + [v] + s[axis..] else s + [v]
  }

  function Remove<T>(s: seq<T>, axis: nat): seq<T> {
    if axis < |s| then s[..axis] + s[axis + 1..] else s
  }

  function ShapeOf(e: Expr): seq<nat> {
    match e
    case IntScalar(_) => []
    case PtrArg(_) => []
    case Range(s, t) => [if s <= t then t - s else 0]
    case Splat(_, d) => d
    case ConstSplat(_, d) => d
    case ExpandDims(src, axis) => Insert(ShapeOf(src), axis, 1)
    case Broadcast(_, d) => d
    case Add(l, _) => ShapeOf(l)
    case Sub(l, _) => ShapeOf(l)
    case Mul(l, _) => ShapeOf(l)
    case Rem(l, _) => ShapeOf(l)
    case ExtSI(src) => ShapeOf(src)
    case AddPtr(p, _) => ShapeOf(p)
    case IterArg(_, d, _) => d
    case Other(_, d) => d
  }

  predicate IsPtr(e: Expr) {
    match e
    case PtrArg(_) => true
    case AddPtr(_, _) => true
    case Splat(src, _) => IsPtr(src)
    case ExpandDims(src, _) => IsPtr(src)
    case Broadcast(src, _) => IsPtr(src)
    case IterArg(_, _, p) => p
    case _ => false
  }

  predicate BroadcastsTo(src: seq<nat>, dst: seq<nat>) {
    |src| == |dst| && forall i :: 0 <= i < |src| ==> src[i] == dst[i] || src[i] == 1
  }

  predicate PositiveDims(d: seq<nat>) {
    forall i :: 0 <= i < |d| ==> d[i] >= 1
  }

  /** What the IR verifier guarantees of an operand. */
  predicate WellTyped(e: Expr) {
    match e
    case IntScalar(_) => true
    case PtrArg(_) => true
    case Range(s, t) => s < t
    case Splat(src, d) => WellTyped(src) && ShapeOf(src) == [] && |d| > 0 && PositiveDims(d)
    case ConstSplat(_, d) => |d| > 0 && PositiveDims(d)
    case ExpandDims(src, axis) => WellTyped(src) && 0 < |ShapeOf(src)| && axis <= |ShapeOf(src)|
    case Broadcast(src, d) => WellTyped(src) && BroadcastsTo(ShapeOf(src), d) && |d| > 0 && PositiveDims(d)
    case Add(l, r) => WellTyped(l) && WellTyped(r) && ArithOperands(l, r)
    case Sub(l, r) => WellTyped(l) && WellTyped(r) && ArithOperands(l, r)
    case Mul(l, r) => WellTyped(l) && WellTyped(r) && ArithOperands(l, r)
    case Rem(l, r) => WellTyped(l) && WellTyped(r) && ArithOperands(l, r)
    case ExtSI(src) => WellTyped(src) && !IsPtr(src) && ShapeOf(src) != []
    case AddPtr(p, off) => WellTyped(p) && WellTyped(off) && IsPtr(p) && !IsPtr(off) && ShapeOf(p) == ShapeOf(off)
    case IterArg(_, d, _) => |d| > 0 && PositiveDims(d)
    case Other(_, d) => |d| > 0 && PositiveDims(d)
  }

  /** Arithmetic takes two integer tensors of one shape. */
  predicate ArithOperands(l: Expr, r: Expr) {
    !IsPtr(l) && !IsPtr(r) && ShapeOf(l) == ShapeOf(r) && ShapeOf(l) != []
  }

  /** The source index tt.broadcast reads for result index x. */
  function Clamp(x: seq<nat>, srcShape: seq<nat>): (r: seq<nat>)
    requires |x| == |srcShape|
    ensures |r| == |x|
    ensures forall i :: 0 <= i < |x| ==> r[i] == if srcShape[i] == 1 then 0 else x[i]
  {
    seq(|x|, i requires 0 <= i < |x| => if srcShape[i] == 1 then 0 else x[i])
  }

  predicate InBounds(x: seq<nat>, shape: seq<nat>) {
    |x| == |shape| && forall i :: 0 <= i < |x| ==> x[i] < shape[i]
  }

  /** The element of a tensor operand at a multi-index; a pointer is its address in elements. */
  function EvalX(e: Expr, w: World, x: seq<nat>): int {
    match e
    case IntScalar(v) => Eval(v, w)
    case PtrArg(id) => w.ptr(id)
    case Range(s, _) => if |x| == 1 then s + x[0] else 0
    case Splat(src, _) => EvalX(src, w, [])
    case ConstSplat(c, _) => c
    case ExpandDims(src, axis) => EvalX(src, w, Remove(x, axis))
    case Broadcast(src, _) => if |x| == |ShapeOf(src)| then EvalX(src, w, Clamp(x, ShapeOf(src))) else 0
    case Add(l, r) => EvalX(l, w, x) + EvalX(r, w, x)
    case Sub(l, r) => EvalX(l, w, x) - EvalX(r, w, x)
    case Mul(l, r) => EvalX(l, w, x) * EvalX(r, w, x)
    case Rem(l, r) => TruncRem(EvalX(l, w, x), EvalX(r, w, x))
    case ExtSI(src) => EvalX(src, w, x)
    case AddPtr(p, off) => EvalX(p, w, x) + EvalX(off, w, x)
    case IterArg(id, _, _) => w.tens(id, x)
    case Other(id, _) => w.tens(id, x)
  }

  // ------------------------------------------------------------------
  // OpFoldResult
  // ------------------------------------------------------------------

  /** A tensor-typed offset. It varies along one dimension only and is read as a function of that index. */
  datatype Tens =
    | Orig(e: Expr)
    | TSplat(v: Val)
    | TAdd(a: Tens, b: Tens)
    | TSub(a: Tens, b: Tens)
    | TMul(a: Tens, b: Tens)

  /** An attribute, an index value, or (for a gathered dimension) a tensor value. */
  datatype OFR = Attr(n: int) | V(v: Val) | T(t: Tens)

  /** The multi-index that is k in the non-unit dimensions and 0 in the unit ones. */
  function Spread(shape: seq<nat>, k: nat): (x: seq<nat>)
    ensures |x| == |shape|
    ensures forall i :: 0 <= i < |x| ==> x[i] == if shape[i] == 1 then 0 else k
  {
    seq(|shape|, i requires 0 <= i < |shape| => if shape[i] == 1 then 0 else k)
  }

  function EvalT(t: Tens, w: World, k: nat): int {
    match t
    case Orig(e) => EvalX(e, w, Spread(ShapeOf(e), k))
    case TSplat(v) => Eval(v, w)
    case TAdd(a, b) => EvalT(a, w, k) + EvalT(b, w, k)
    case TSub(a, b) => EvalT(a, w, k) - EvalT(b, w, k)
    case TMul(a, b) => EvalT(a, w, k) * EvalT(b, w, k)
  }

  /** The value of an OpFoldResult at index k of its dimension; only a tensor depends on k. */
  function EvalAt(o: OFR, w: World, k: nat): int {
    match o
    case Attr(n) => n
    case V(v) => Eval(v, w)
    case T(t) => EvalT(t, w, k)
  }

  function EvalO(o: OFR, w: World): int { EvalAt(o, w, 0) }
}
