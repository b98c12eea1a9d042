/**
 Masks of loads and stores. A mask expression is parsed into the sizes of a rectangular prefix
 (lib/Analysis/MaskAnalysis.cpp); the prefix is proved to enable exactly the elements the mask does.
 */
module MaskStates {
  import opened Wrappers
  import opened Ir
  import opened Folding

  /** An index-typed OpFoldResult. */
  type Idx = o: OFR | !o.T? witness Attr(0)

  /** The operations MaskState::parse dispatches on. */
  datatype MExpr =
    | MScalar(v: Val)                          // integer scalar
    | MConst(n: int, dims: seq<nat>)           // integer constant tensor
    | MBoolConst(b: bool, dims: seq<nat>)      // i1 constant tensor
    | MRange(start: int, end: int)
    | MSplat(src: MExpr, dims: seq<nat>)       // splat of an integer scalar
    | MBoolSplat(c: Val, dims: seq<nat>)       // splat of an i1 scalar
    | MAdd(l: MExpr, r: MExpr)
    | MCmp(pred: Pred, l: MExpr, r: MExpr)
    | MAnd(l: MExpr, r: MExpr)
    | MExpand(src: MExpr, axis: nat)
    | MBroadcast(src: MExpr, dims: seq<nat>)
    | MExtSI(src: MExpr)
    | MOther(dims: seq<nat>)

  function MShape(e: MExpr): seq<nat> {
    match e
    case MScalar(_) => []
    case MConst(_, d) => d
    case MBoolConst(_, d) => d
    case MRange(s, t) => [if s <= t then t - s else 0]
    case MSplat(_, d) => d
    case MBoolSplat(_, d) => d
    case MAdd(l, _) => MShape(l)
    case MCmp(_, l, _) => MShape(l)
    case MAnd(l, _) => MShape(l)
    case MExpand(src, axis) => Insert(MShape(src), axis, 1)
    case MBroadcast(_, d) => d
    case MExtSI(src) => MShape(src)
    case MOther(d) => d
  }

  /** The i1 tensors. */
  predicate IsMaskExpr(e: MExpr) {
    match e
    case MBoolConst(_, _) => true
    case MBoolSplat(_, _) => true
    case MCmp(_, _, _) => true
    case MAnd(_, _) => true
    case MExpand(src, _) => IsMaskExpr(src)
    case MBroadcast(src, _) => IsMaskExpr(src)
    case _ => false
  }

  /** The element at x; a mask element is 1 when enabled and 0 otherwise. */
  function MEval(e: MExpr, w: World, x: seq<nat>): int {
    match e
    case MScalar(v) => Eval(v, w)
    case MConst(n, _) => n
    case MBoolConst(b, _) => if b then 1 else 0
    case MRange(s, _) => if |x| == 1 then s + x[0] else 0
    case MSplat(src, _) => MEval(src, w, [])
    case MBoolSplat(c, _) => if Eval(c, w) != 0 then 1 else 0
    case MAdd(l, r) => MEval(l, w, x) + MEval(r, w, x)
    case MCmp(p, l, r) => if Holds(p, MEval(l, w, x), MEval(r, w, x)) then 1 else 0
    case MAnd(l, r) => if MEval(l, w, x) != 0 && MEval(r, w, x) != 0 then 1 else 0
    case MExpand(src, axis) => MEval(src, w, Remove(x, axis))
    case MBroadcast(src, _) => if |x| == |MShape(src)| then MEval(src, w, Clamp(x, MShape(src))) else 0
    case MExtSI(src) => MEval(src, w, x)
    case MOther(_) => 0
  }

  /** What the IR verifier guarantees. */
  predicate MWellTyped(e: MExpr) {
    match e
    case MScalar(_) => true
    case MConst(_, d) => |d| > 0 && PositiveDims(d)
    case MBoolConst(_, d) => |d| > 0 && PositiveDims(d)
    case MRange(s, t) => s < t
    case MSplat(src, d) => src.MScalar? && |d| > 0 && PositiveDims(d)
    case MBoolSplat(_, d) => |d| > 0 && PositiveDims(d)
    case MAdd(l, r) => MWellTyped(l) && MWellTyped(r) && MOperands(l, r) && !IsMaskExpr(l)
    case MCmp(_, l, r) => MWellTyped(l) && MWellTyped(r) && MOperands(l, r) && !IsMaskExpr(l)
    case MAnd(l, r) => MWellTyped(l) && MWellTyped(r) && MOperands(l, r) && IsMaskExpr(l)
    case MExpand(src, axis) => MWellTyped(src) && MShape(src) != [] && axis <= |MShape(src)|
    case MBroadcast(src, d) => MWellTyped(src) && BroadcastsTo(MShape(src), d) && |d| > 0 && PositiveDims(d)
    case MExtSI(src) => MWellTyped(src) && !IsMaskExpr(src)
    case MOther(d) => PositiveDims(d)
  }

  predicate MOperands(l: MExpr, r: MExpr) {
    MShape(l) == MShape(r) && MShape(l) != [] && (IsMaskExpr(l) <==> IsMaskExpr(r))
  }

  // ------------------------------------------------------------------
  // Parsing
  // ------------------------------------------------------------------

  datatype MState = MState(start: Option<Idx>, end: Option<Idx>, dims: seq<Idx>, scalar: Option<Idx>)
  {
    predicate IsMask() {
      start.None? && end.None? && scalar.None? && |dims| != 0
    }
  }

  const NO_STATE := MState(None, None, [], None)

  function Attrs(d: seq<nat>): (r: seq<Idx>)
    ensures |r| == |d| && forall i :: 0 <= i < |d| ==> r[i] == Attr(d[i])
  {
    seq(|d|, i requires 0 <= i < |d| => Attr(d[i]))
  }

  function AddStateScalar(st: MState, scalar: Idx): Option<MState> {
    if st.start.None? || st.end.None? then None
    else Some(MState(Some(AddOFRs(st.start.value, scalar)), Some(AddOFRs(st.end.value, scalar)), st.dims, None))
  }

  function AddStates(l: MState, r: MState): Option<MState> {
    if l.scalar.Some? && r.scalar.Some? then None
    else if l.scalar.None? && r.scalar.None? then None
    else if l.scalar.Some? then AddStateScalar(r, l.scalar.value)
    else AddStateScalar(l, r.scalar.value)
  }

  function MinDims(a: seq<Idx>, b: seq<Idx>): (r: seq<Idx>)
    requires |a| == |b|
    ensures |r| == |a| && forall i :: 0 <= i < |a| ==> r[i] == MinOFRs(a[i], b[i])
  {
    seq(|a|, i requires 0 <= i < |a| => MinOFRs(a[i], b[i]))
  }

  function MinStates(l: MState, r: MState): Option<MState> {
    if |l.dims| != |r.dims| then None else Some(NO_STATE.(dims := MinDims(l.dims, r.dims)))
  }

  function Copies(o: Idx, n: nat): (r: seq<Idx>)
    ensures |r| == n && forall i :: 0 <= i < n ==> r[i] == o
  {
    seq(n, i => o)
  }

  function MinStateScalar(l: MState, r: MState): Option<MState> {
    if l.dims == [] || r.dims == [] then None
    else if l.scalar.Some? && r.scalar.Some? then Some(NO_STATE.(dims := [MinOFRs(l.dims[0], r.dims[0])]))
    else if l.scalar.Some? then Some(NO_STATE.(dims := MinDims(Copies(l.dims[0], |r.dims|), r.dims)))
    else if r.scalar.Some? then Some(NO_STATE.(dims := MinDims(l.dims, Copies(r.dims[0], |l.dims|))))
    else None
  }

  /** The dimension being compared, -1 for none, or failure when there would be two. */
  function CmpDim(dims: seq<Idx>, i: nat, found: int): (r: Option<int>)
    requires i <= |dims| && -1 <= found
    ensures r.Some? ==> -1 <= r.value && (r.value < |dims| || r.value == found)
    decreases |dims| - i
  {
    if i == |dims| then Some(found)
    else if dims[i] == Attr(1) then CmpDim(dims, i + 1, found)
    else if found != -1 then None
    else CmpDim(dims, i + 1, i)
  }

  /** The size of the compared dimension after the comparison. */
  function CmpSize(pred: Pred, l: MState, r: MState, d: int): (res: Option<Idx>)
    requires -1 <= d
  {
    if l.scalar.Some? then
      if r.scalar.None? || !(0 <= d < |l.dims|) then None
      else Some(CompareOFRs(l.scalar.value, r.scalar.value, pred, l.dims[d], Attr(0)))
    else if pred == Slt || pred == Ult then
      if l.start.None? || l.end.None? || r.scalar.None? then None
      else
        var newEnd := MaxOFRs(MinOFRs(l.end.value, r.scalar.value), l.start.value);
        Some(SubOFRs(newEnd, l.start.value))
    else if 0 <= d < |l.dims| then Some(l.dims[d])
    else None
  }

  function CmpStates(pred: Pred, l: MState, r: MState): Option<MState> {
    if pred == Sge && !(r.scalar.Some? && HasConstZero(r.scalar.value)) then None
    else
      var d := CmpDim(l.dims, 0, if l.scalar.Some? && r.scalar.Some? then 0 else -1);
      if d.None? then None
      else
        var size := CmpSize(pred, l, r, d.value);
        if size.None? then None
        else Some(NO_STATE.(dims := if 0 <= d.value < |l.dims| then l.dims[d.value := size.value] else l.dims))
  }

  function BroadcastDims(dims: seq<Idx>, src: seq<nat>, dst: seq<nat>): (r: seq<Idx>)
    requires |src| == |dst| <= |dims|
    ensures |r| == |dims|
    ensures forall i :: 0 <= i < |dims| ==> r[i] == if i < |src| && src[i] < dst[i] then Attr(dst[i]) else dims[i]
  {
    seq(|dims|, i requires 0 <= i < |dims| => if i < |src| && src[i] < dst[i] then Attr(dst[i]) else dims[i])
  }

  function BoolSplatDims(c: Val, d: seq<nat>): (r: seq<Idx>)
    ensures |r| == |d| && forall i :: 0 <= i < |d| ==> r[i] == V(Select(c, ConstV(d[i]), ConstV(0)))
  {
    seq(|d|, i requires 0 <= i < |d| => V(Select(c, ConstV(d[i]), ConstV(0))))
  }

  function Parse(e: MExpr): Option<MState> {
    match e
    case MScalar(v) => Some(NO_STATE.(scalar := Some(V(IndexCast(v)))))
    case MConst(n, d) => Some(NO_STATE.(scalar := Some(Attr(n)), dims := Attrs(d)))
    case MBoolConst(b, d) => Some(NO_STATE.(scalar := Some(Attr(if b then -1 else 0)), dims := Attrs(d)))
    case MRange(s, t) => Some(MState(Some(Attr(s)), Some(Attr(t)), Attrs(MShape(e)), None))
    case MSplat(src, d) =>
      var st := Parse(src);
      if st.None? then None else Some(st.value.(dims := st.value.dims + Attrs(d)))
    case MBoolSplat(c, d) => Some(NO_STATE.(dims := BoolSplatDims(c, d)))
    case MAdd(l, r) =>
      var ls, rs := Parse(l), Parse(r);
      if ls.None? || rs.None? then None else AddStates(ls.value, rs.value)
    case MCmp(p, l, r) =>
      if p != Slt && p != Ult && p != Sge then None
      else
        var ls, rs := Parse(l), Parse(r);
        if ls.None? || rs.None? then None else CmpStates(p, ls.value, rs.value)
    case MAnd(l, r) =>
      var ls, rs := Parse(l), Parse(r);
      if ls.None? || rs.None? then None
      else if !ls.value.IsMask() || !rs.value.IsMask() then MinStateScalar(ls.value, rs.value)
      else MinStates(ls.value, rs.value)
    case MExpand(src, axis) =>
      var st := Parse(src);
      if st.None? || axis > |st.value.dims| then None
      else Some(st.value.(dims := Insert(st.value.dims, axis, Attr(1))))
    case MBroadcast(src, d) =>
      var st := Parse(src);
      if st.None? || |st.value.dims| < |MShape(src)| || |MShape(src)| != |d| then None
      else Some(st.value.(dims := BroadcastDims(st.value.dims, MShape(src), d)))
    case MExtSI(src) => Parse(src)
    case MOther(_) => None
  }

  // ------------------------------------------------------------------
  // Exactness
  // ------------------------------------------------------------------

  /** A constant tensor: a scalar and the full shape. */
  ghost predicate IsScalarState(e: MExpr, st: MState, w: World) {
    && st.scalar.Some? && st.start.None? && st.end.None?
    && st.dims == Attrs(MShape(e))
    && forall x :: InBounds(x, MShape(e)) ==> MEval(e, w, x) == EvalO(st.scalar.value, w)
  }

  /** A range along dimension d, of at least two elements, broadcast along the others. */
  ghost predicate IsRangeAlong(e: MExpr, st: MState, w: World, d: nat) {
    && st.scalar.None? && st.start.Some? && st.end.Some?
    && st.dims == Attrs(MShape(e))
    && d < |MShape(e)| && MShape(e)[d] >= 2
    && EvalO(st.end.value, w) - EvalO(st.start.value, w) == MShape(e)[d]
    && forall x :: InBounds(x, MShape(e)) ==> MEval(e, w, x) == EvalO(st.start.value, w) + x[d]
  }

  ghost predicate IsRangeState(e: MExpr, st: MState, w: World) {
    exists d: nat :: IsRangeAlong(e, st, w, d)
  }

  ghost predicate InPrefix(x: seq<nat>, dims: seq<Idx>, w: World)
    requires |x| == |dims|
  {
    forall i :: 0 <= i < |x| ==> x[i] < EvalO(dims[i], w)
  }

  /** The sizes describe exactly the enabled elements, and lie within the shape. */
  ghost predicate IsExactMask(e: MExpr, st: MState, w: World) {
    && st.IsMask() && |st.dims| == |MShape(e)|
    && (forall i :: 0 <= i < |st.dims| ==> 0 <= EvalO(st.dims[i], w) <= MShape(e)[i])
    && forall x :: InBounds(x, MShape(e)) ==> (MEval(e, w, x) != 0 <==> InPrefix(x, st.dims, w))
  }

  /** Broadcasting a mask forgets what it said of a stretched dimension: harmless if that was enabled, or nothing is. */
  ghost predicate BroadcastKeepsMask(dims: seq<Idx>, src: seq<nat>, dst: seq<nat>, w: World)
    requires |dims| == |src| == |dst|
  {
    (forall i :: 0 <= i < |src| && src[i] < dst[i] ==> EvalO(dims[i], w) >= 1) ||
    (exists i :: 0 <= i < |src| && !(src[i] < dst[i]) && EvalO(dims[i], w) <= 0)
  }

  /** An unsigned comparison is decoded as a signed one, so what is compared must have one sign. */
  ghost predicate UnsignedGuard(l: MState, r: MState, w: World) {
    if l.scalar.Some? && r.scalar.Some? then ComparesAsSigned(Ult, l.scalar.value, r.scalar.value)
    else l.start.Some? && l.end.Some? && r.scalar.Some? ==>
      OneSign(EvalO(l.start.value, w), EvalO(l.end.value, w), EvalO(r.scalar.value, w))
  }

  /** The numbers from start below end, and v, are all negative or none is. */
  predicate OneSign(start: int, end: int, v: int) {
    (start >= 0 && v >= 0) || (end <= 0 && v < 0)
  }

  /** The masks the analysis is meant for: the limits are exact, see the lemmas at the end. */
  ghost predicate MaskGuard(e: MExpr, w: World) {
    match e
    case MRange(s, t) => t - s >= 2
    case MBoolConst(_, _) => false
    case MSplat(src, _) => MaskGuard(src, w)
    case MAdd(l, r) => MaskGuard(l, w) && MaskGuard(r, w)
    case MCmp(p, l, r) =>
      && MaskGuard(l, w) && MaskGuard(r, w)
      && (p == Sge && Parse(l).Some? && Parse(l).value.start.Some? ==> EvalO(Parse(l).value.start.value, w) >= 0)
      && (p == Ult && Parse(l).Some? && Parse(r).Some? ==> UnsignedGuard(Parse(l).value, Parse(r).value, w))
    case MAnd(l, r) => MaskGuard(l, w) && MaskGuard(r, w)
    case MExpand(src, _) => MaskGuard(src, w)
    case MBroadcast(src, d) =>
      && MaskGuard(src, w)
      && (IsMaskExpr(src) && Parse(src).Some? && |Parse(src).value.dims| == |MShape(src)| == |d| ==>
            BroadcastKeepsMask(Parse(src).value.dims, MShape(src), d, w))
    case MExtSI(src) => MaskGuard(src, w)
    case _ => true
  }

  ghost predicate ParsedExactly(e: MExpr, w: World) {
    Parse(e).Some? ==>
      if IsMaskExpr(e) then IsExactMask(e, Parse(e).value, w)
      else IsScalarState(e, Parse(e).value, w) || IsRangeState(e, Parse(e).value, w)
  }
}
