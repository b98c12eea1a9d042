/**
 The analysis as it runs: states are filled in place by pushing one dimension at a time, and
 rewriteAddptrOp records each pointer it decodes (lib/AnalysisStructured/PtrAnalysis.cpp). Every method
 is proved to leave exactly the state that PtrStates computes, whose soundness is PtrSoundness and Gather.
 */
module Analysis {
  import opened Wrappers
  import opened Ir
  import opened Folding
  import opened PtrStates
  import opened PtrSoundness
  import opened Gather

  class PtrState {
    var source: Option<nat>
    var scalar: Option<Val>
    var offsets: seq<OFR>
    var sizes: seq<nat>
    var strides: seq<OFR>
    var shape: seq<OFR>
    var origiOffsets: seq<OFR>

    constructor ()
      ensures View() == EMPTY
    {
      source, scalar := None, None;
      offsets, sizes, strides, shape, origiOffsets := [], [], [], [], [];
    }

    function View(): PState
      reads this
    {
      PState(source, scalar, offsets, sizes, strides, shape, origiOffsets)
    }

    method Assign(st: PState)
      modifies this
      ensures View() == st
    {
      source, scalar := st.source, st.scalar;
      offsets, sizes, strides, shape, origiOffsets := st.offsets, st.sizes, st.strides, st.shape, st.origiOffsets;
    }

    /** addState: push one dimension of the sum at a time, then its wrap-around bounds. */
    method AddState(l: PtrState, r: PtrState, unstructured: bool) returns (ok: bool)
      requires View() == EMPTY && l != this && r != this
      requires l.View().Valid() && r.View().Valid()
      modifies this
      ensures ok == PtrStates.AddState(l.View(), r.View(), unstructured).Some?
      ensures ok ==> View() == PtrStates.AddState(l.View(), r.View(), unstructured).value
    {
      var lv, rv := l.View(), r.View();
      if !Addable(lv, rv) { return false; }
      source := if l.source.Some? then l.source else r.source;
      scalar := AddScalar(lv, rv);
      var n := |l.offsets|;
      for i := 0 to n
        invariant |offsets| == |strides| == i && sizes == lv.sizes[..i]
        invariant forall j :: 0 <= j < i ==>
          (offsets[j], strides[j]) == AddDim(lv.offsets[j], lv.strides[j], rv.offsets[j], rv.strides[j], unstructured)
        invariant source == (if lv.source.Some? then lv.source else rv.source) && scalar == AddScalar(lv, rv)
        invariant shape == origiOffsets == []
      {
        var (o, s) := AddDim(l.offsets[i], l.strides[i], r.offsets[i], r.strides[i], unstructured);
        offsets := offsets + [o];
        strides := strides + [s];
        sizes := sizes + [l.sizes[i]];
      }
      ok := PushShapes(l, r);
      if ok {
        assert View() == PtrStates.AddState(lv, rv, unstructured).value;
      }
    }

    /** The bounds of a sum; the operand that wraps around, if there is one, comes first. */
    method PushShapes(l: PtrState, r: PtrState) returns (ok: bool)
      requires shape == [] && l != this && r != this
      requires l.View().Valid() && r.View().Valid() && l.View().Rank() == r.View().Rank()
      modifies `shape
      ensures var shapes := if r.View().HasModulo() then AddShapes(r.View(), l.View(), 0)
                            else AddShapes(l.View(), r.View(), 0);
              ok == shapes.Some? && (ok ==> shape == shapes.value)
    {
      if r.View().HasModulo() {
        ok := PushBounds(r, l);
      } else {
        ok := PushBounds(l, r);
      }
    }

    method PushBounds(a: PtrState, b: PtrState) returns (ok: bool)
      requires shape == [] && a != this && b != this
      requires a.View().Valid() && b.View().Valid() && a.View().Rank() == b.View().Rank()
      modifies `shape
      ensures var shapes := AddShapes(a.View(), b.View(), 0);
              ok == shapes.Some? && (ok ==> shape == shapes.value)
    {
      var av, bv := a.View(), b.View();
      PushedNone(AddShapes(av, bv, 0));
      for i := 0 to av.Rank()
        invariant Pushed(shape, AddShapes(av, bv, i)) == AddShapes(av, bv, 0)
      {
        PushedStep(av, bv, i, shape);
        if a.offsets[i].T? || b.offsets[i].T? {
          shape := shape + [Attr(0)];
        } else if !av.DimHasModulo(i) || HasConstZero(b.offsets[i]) {
          shape := shape + [a.shape[i]];
        } else if i == 0 && av.Rank() == 2 && b.scalar.Some? {
          shape := shape + [a.shape[1]];
          shape := shape + [a.shape[0]];
          return true;
        } else {
          return false;
        }
      }
      ok := true;
    }

    /** mulState: push one scaled dimension at a time. */
    method MulState(l: PtrState, r: PtrState, unstructured: bool) returns (ok: bool)
      requires View() == EMPTY && l != this && r != this
      requires l.View().Valid() && r.View().Valid()
      modifies this
      ensures ok == PtrStates.MulState(l.View(), r.View(), unstructured).Some?
      ensures ok ==> View() == PtrStates.MulState(l.View(), r.View(), unstructured).value
    {
      var lv, rv := l.View(), r.View();
      if lv.Rank() != rv.Rank() || (l.source.Some? && r.source.Some?) { return false; }
      if l.scalar.None? && r.scalar.None? { return false; }
      var a, b := l, r;
      if r.scalar.None? && l.scalar.Some? {
        a, b := r, l;
      }
      if l.scalar.Some? && r.scalar.Some? {
        scalar := Some(MulI(l.scalar.value, r.scalar.value));
      }
      PushProduct(a, b.scalar.value, unstructured);
      ok := !b.View().HasModulo();
      if ok {
        assert View() == PtrStates.MulState(lv, rv, unstructured).value;
      }
    }

    method PushProduct(a: PtrState, f: Val, unstructured: bool)
      requires offsets == strides == shape == [] && sizes == [] && a != this && a.View().Valid()
      modifies `offsets, `sizes, `strides, `shape
      ensures sizes == a.sizes && |offsets| == |strides| == |shape| == |a.offsets|
      ensures forall j :: 0 <= j < |offsets| ==>
                (offsets[j], strides[j], shape[j]) == MulDim(a.offsets[j], a.strides[j], a.shape[j], f, unstructured)
    {
      for i := 0 to |a.sizes|
        invariant |offsets| == |strides| == |shape| == i && sizes == a.sizes[..i]
        invariant forall j :: 0 <= j < i ==>
          (offsets[j], strides[j], shape[j]) == MulDim(a.offsets[j], a.strides[j], a.shape[j], f, unstructured)
      {
        var (o, s, sh) := MulDim(a.offsets[i], a.strides[i], a.shape[i], f, unstructured);
        offsets := offsets + [o];
        strides := strides + [s];
        shape := shape + [sh];
        sizes := sizes + [a.sizes[i]];
      }
    }

    /** The state of the negated operand that visitOperandSub builds. */
    method Negate(r: PtrState)
      requires View() == EMPTY && r != this && r.View().Valid()
      modifies this
      ensures View() == NegState(r.View())
    {
      var rv := r.View();
      if r.scalar.Some? {
        scalar := Some(SubI(ConstV(0), r.scalar.value));
      }
      ghost var sc := scalar;
      for i := 0 to |r.offsets|
        invariant |offsets| == |strides| == i && sizes == rv.sizes[..i] && shape == rv.shape[..i]
        invariant forall j :: 0 <= j < i ==>
          offsets[j] == SubOFRs(Attr(0), rv.offsets[j]) && strides[j] == SubOFRs(Attr(0), rv.strides[j])
        invariant source == None && scalar == sc && origiOffsets == []
      {
        offsets := offsets + [SubOFRs(Attr(0), r.offsets[i])];
        strides := strides + [SubOFRs(Attr(0), r.strides[i])];
        sizes := sizes + [r.sizes[i]];
        shape := shape + [r.shape[i]];
      }
    }

    /** Push one splatted dimension after another, then store the scalar in the first. */
    method Splat(dims: seq<nat>) returns (ok: bool)
      requires View().Valid()
      modifies this
      ensures ok == SplatState(old(View()), dims).Some?
      ensures ok ==> View() == SplatState(old(View()), dims).value
    {
      for i := 0 to |dims|
        invariant offsets == old(offsets) + Repeat(Attr(0), i)
        invariant strides == old(strides) + Repeat(Attr(0), i)
        invariant shape == old(shape) + Repeat(Attr(0), i)
        invariant sizes == old(sizes) + dims[..i]
        invariant source == old(source) && scalar == old(scalar)
      {
        offsets := offsets + [Attr(0)];
        sizes := sizes + [dims[i]];
        strides := strides + [Attr(0)];
        shape := shape + [Attr(0)];
      }
      if scalar.Some? && |offsets| > 0 {
        offsets := offsets[0 := V(scalar.value)];
      }
      assert dims[..|dims|] == dims;
      origiOffsets := offsets;
      ok := !(View().HasModulo() && View().Rank() > 2);
    }

    /** Stretch the unit dimensions that the broadcast enlarges. */
    method BroadcastSizes(src: seq<nat>, dst: seq<nat>)
      requires View().Valid() && |src| == |dst| == |sizes|
      modifies this
      ensures View() == BroadcastState(old(View()), src, dst)
    {
      for i := 0 to |dst|
        invariant |sizes| == |dst|
        invariant forall j :: 0 <= j < |sizes| ==>
          sizes[j] == if j < i && src[j] < dst[j] then dst[j] else old(sizes)[j]
        invariant View() == old(View()).(sizes := sizes)
      {
        if src[i] < dst[i] {
          sizes := sizes[i := dst[i]];
        }
      }
      origiOffsets := offsets;
      assert sizes == BroadcastState(old(View()), src, dst).sizes;
    }
  }

  /** Bounds pushed so far, and those that are still to come. */
  function Pushed(front: seq<OFR>, rest: Option<seq<OFR>>): Option<seq<OFR>> {
    if rest.Some? then Some(front + rest.value) else None
  }

  lemma PushedNone(rest: Option<seq<OFR>>)
    ensures Pushed([], rest) == rest
  {
    if rest.Some? { assert [] + rest.value == rest.value; }
  }

  /** What one turn of the loop over the bounds does. */
  lemma PushedStep(a: PState, b: PState, i: nat, front: seq<OFR>)
    requires a.Valid() && b.Valid() && i < a.Rank() == b.Rank()
    ensures Pushed(front, AddShapes(a, b, i)) ==
            if a.offsets[i].T? || b.offsets[i].T? then Pushed(front + [Attr(0)], AddShapes(a, b, i + 1))
            else if !a.DimHasModulo(i) || HasConstZero(b.offsets[i]) then
              Pushed(front + [a.shape[i]], AddShapes(a, b, i + 1))
            else if i == 0 && a.Rank() == 2 && b.scalar.Some? then Some(front + [a.shape[1], a.shape[0]])
            else None
  {
    var rest := AddShapes(a, b, i + 1);
    if rest.Some? {
      assert front + ([Attr(0)] + rest.value) == front + [Attr(0)] + rest.value;
      assert front + ([a.shape[i]] + rest.value) == front + [a.shape[i]] + rest.value;
    }
  }

  // ------------------------------------------------------------------
  // visitOperand and rewriteAddptrOp
  // ------------------------------------------------------------------

  /** What the analysis maps a pointer to: a scalar pointer to itself, a tensor to a new op made from a state. */
  datatype NewPtr = Itself | Made(st: PState)

  /** The outcome of rewriting one tt.addptr: the record, and what the pointer is mapped to. */
  datatype Rewrite = Rewrite(ok: bool, known: Known, mapped: Option<NewPtr>)

  function VisitAddptr(p: Expr, off: Expr, c: Config, known: Known): (r: Option<PState>)
    requires KnownValid(known)
    ensures r.Some? ==> r.value.Valid()
  {
    var ps, os := Visit(p, c, known), Visit(off, c, known);
    if ps.None? || os.None? then None else AddPtrOperands(ps.value, os.value, c)
  }

  function RewriteAddptr(p: Expr, off: Expr, gather: bool, known: Known): (res: Rewrite)
    requires KnownValid(known)
    ensures KnownValid(res.known)
  {
    var e := AddPtr(p, off);
    var st := VisitAddptr(p, off, Config(gather, false), known);
    if st.None? then Rewrite(false, known, None)
    else if ShapeOf(p) == [] then Rewrite(true, known[e := st.value], Some(Itself))
    else if st.value.Structured() then Rewrite(true, known[e := st.value], Some(Made(st.value)))
    else if !gather then Rewrite(false, known[e := st.value], None)
    else RewriteGathered(p, off, st.value, known[e := st.value])
  }

  /** A tensor with a gathered dimension is analysed again in the other mode, and the two states are merged. */
  function RewriteGathered(p: Expr, off: Expr, st: PState, known: Known): (res: Rewrite)
    requires KnownValid(known) && st.Valid()
    ensures KnownValid(res.known)
  {
    var un := VisitAddptr(p, off, Config(true, true), known);
    if st.Rank() == 1 || un.None? then Rewrite(false, known, None)
    else MergedRewrite(AddPtr(p, off), st, un.value, known)
  }

  function MergedRewrite(e: Expr, st: PState, un: PState, known: Known): (res: Rewrite)
    requires KnownValid(known) && st.Valid() && un.Valid()
    ensures KnownValid(res.known)
  {
    var merged := MergeUnstructuredState(st, un);
    if merged.None? then Rewrite(false, known, None)
    else Rewrite(true, known[e := merged.value], Some(Made(merged.value)))
  }

  /** One operand gathered, where gathering is enabled and possible. */
  function Regathered(own: PState, e: Expr, d: nat, c: Config): (r: Option<PState>)
    requires own.Valid()
    ensures r.Some? ==> r.value.Valid()
  {
    if c.gather then RebuildAsGatherScatter(own, e, d) else None
  }

  /** At most one operand is gathered, and the left one is looked at first. */
  lemma RightGathered(l: Expr, r: Expr, ls: PState, rs: PState, c: Config)
    requires ls.Valid() && rs.Valid() && !ls.Structured() && rs.HasModulo()
    ensures var st := Regathered(rs, r, ls.NonStructuredDim(), c);
            GatherBoth(l, r, ls, rs, c) == if st.Some? then Some((ls, st.value)) else None
  {
  }

  lemma LeftGathered(l: Expr, r: Expr, ls: PState, rs: PState, c: Config)
    requires ls.Valid() && rs.Valid() && (ls.Structured() || !rs.HasModulo()) && ls.HasModulo() && !rs.Structured()
    ensures var st := Regathered(ls, l, rs.NonStructuredDim(), c);
            GatherBoth(l, r, ls, rs, c) == if st.Some? then Some((st.value, rs)) else None
  {
  }

  lemma NoneGathered(l: Expr, r: Expr, ls: PState, rs: PState, c: Config)
    requires ls.Valid() && rs.Valid() && (ls.Structured() || !rs.HasModulo()) && (!ls.HasModulo() || rs.Structured())
    ensures GatherBoth(l, r, ls, rs, c) == Some((ls, rs))
  {
  }

  class PtrAnalysis {
    const enableMakeGatherScatterTensorPtr: bool
    var isAnalysisingUnstructured: bool
    var knownPtrs: Known
    var ptrMap: map<Expr, NewPtr>

    constructor (gather: bool)
      ensures enableMakeGatherScatterTensorPtr == gather && !isAnalysisingUnstructured
      ensures knownPtrs == map[] && ptrMap == map[]
    {
      enableMakeGatherScatterTensorPtr := gather;
      isAnalysisingUnstructured := false;
      knownPtrs, ptrMap := map[], map[];
    }

    function Mode(): Config
      reads this
    {
      Config(enableMakeGatherScatterTensorPtr, isAnalysisingUnstructured)
    }

    method VisitOperand(operand: Expr, state: PtrState) returns (ok: bool)
      requires state.View() == EMPTY && KnownValid(knownPtrs)
      modifies state
      ensures ok == Visit(operand, Mode(), knownPtrs).Some?
      ensures ok ==> state.View() == Visit(operand, Mode(), knownPtrs).value
      decreases operand, 2
    {
      if !isAnalysisingUnstructured && operand in knownPtrs {
        state.Assign(knownPtrs[operand]);
        return true;
      }
      match operand
      case IntScalar(v) =>
        state.scalar := Some(IndexCast(v));
        ok := true;
      case PtrArg(id) =>
        state.source := Some(id);
        ok := true;
      case Range(s, t) =>
        state.Assign(RangeState(s, t));
        ok := true;
      case ConstSplat(n, d) =>
        state.Assign(ConstSplatState(n, d));
        ok := true;
      case IterArg(_, _, isPtr) =>
        ok := operand in knownPtrs && !(isAnalysisingUnstructured && isPtr);
        if ok { state.Assign(knownPtrs[operand]); }
      case Other(_, _) =>
        var st := RebuildAsUnsupportedOp(operand);
        ok := enableMakeGatherScatterTensorPtr && st.Some?;
        if ok { state.Assign(st.value); }
      case ExtSI(src) =>
        ok := VisitOperand(src, state);
      case Splat(src, d) =>
        ok := VisitOperand(src, state);
        if ok { ok := state.Splat(d); }
      case ExpandDims(src, axis) =>
        ok := VisitOperand(src, state);
        if ok {
          var st := ExpandState(state.View(), axis);
          ok := st.Some?;
          if ok { state.Assign(st.value); }
        }
      case Broadcast(src, d) =>
        ok := VisitOperand(src, state);
        if ok { state.Assign(BroadcastState(state.View(), ShapeOf(src), d)); }
      case Add(l, r) => ok := VisitOperandAdd(l, r, state);
      case Sub(l, r) => ok := VisitOperandSub(l, r, state);
      case Mul(l, r) => ok := VisitOperandMul(l, r, state);
      case Rem(l, r) => ok := VisitOperandRem(l, r, state);
      case AddPtr(p, off) => ok := VisitOperandAddptr(p, off, state);
    }

    /** Both operands of a binary operation, the left one first. */
    method VisitOperands(l: Expr, r: Expr, ls: PtrState, rs: PtrState, ghost e: Expr) returns (ok: bool)
      requires ls != rs && ls.View() == EMPTY && rs.View() == EMPTY && KnownValid(knownPtrs) && l < e && r < e
      modifies ls, rs
      ensures ok == (Visit(l, Mode(), knownPtrs).Some? && Visit(r, Mode(), knownPtrs).Some?)
      ensures ok ==> Some(ls.View()) == Visit(l, Mode(), knownPtrs) && Some(rs.View()) == Visit(r, Mode(), knownPtrs)
      decreases e, 0
    {
      ok := VisitOperand(l, ls);
      if !ok { return; }
      ok := VisitOperand(r, rs);
    }

    method VisitOperandAdd(l: Expr, r: Expr, state: PtrState) returns (ok: bool)
      requires state.View() == EMPTY && KnownValid(knownPtrs)
      requires isAnalysisingUnstructured || Add(l, r) !in knownPtrs
      modifies state
      ensures ok == Visit(Add(l, r), Mode(), knownPtrs).Some?
      ensures ok ==> state.View() == Visit(Add(l, r), Mode(), knownPtrs).value
      decreases Add(l, r), 1
    {
      var ls := new PtrState();
      var rs := new PtrState();
      ok := VisitOperands(l, r, ls, rs, Add(l, r));
      if !ok { return; }
      ok := AddUnlessWrapped(l, r, ls, rs, state);
    }

    method AddUnlessWrapped(l: Expr, r: Expr, ls: PtrState, rs: PtrState, state: PtrState) returns (ok: bool)
      requires ls != rs && ls != state && rs != state
      requires state.View() == EMPTY && ls.View().Valid() && rs.View().Valid()
      modifies ls, rs, state
      ensures ok == AddOperands(l, r, old(ls.View()), old(rs.View()), Mode()).Some?
      ensures ok ==> state.View() == AddOperands(l, r, old(ls.View()), old(rs.View()), Mode()).value
    {
      var lv, rv := ls.View(), rs.View();
      if (lv.Rank() == 1 && lv.HasModulo()) || (rv.Rank() == 1 && rv.HasModulo()) { return false; }
      ok := CombineAdd(l, r, ls, rs, state);
    }

    method CombineAdd(l: Expr, r: Expr, ls: PtrState, rs: PtrState, state: PtrState) returns (ok: bool)
      requires ls != rs && ls != state && rs != state
      requires state.View() == EMPTY && ls.View().Valid() && rs.View().Valid()
      modifies ls, rs, state
      ensures ok == SumOperands(l, r, old(ls.View()), old(rs.View()), Mode()).Some?
      ensures ok ==> state.View() == SumOperands(l, r, old(ls.View()), old(rs.View()), Mode()).value
    {
      ok := GatherOperands(l, r, ls, rs);
      if !ok { return; }
      ok := state.AddState(ls, rs, isAnalysisingUnstructured);
      state.origiOffsets := state.offsets;
    }

    /** A modulo on one side is gathered when the other side is unstructured. */
    method GatherOperands(l: Expr, r: Expr, ls: PtrState, rs: PtrState) returns (ok: bool)
      requires ls != rs && ls.View().Valid() && rs.View().Valid()
      modifies ls, rs
      ensures ok == GatherBoth(l, r, old(ls.View()), old(rs.View()), Mode()).Some?
      ensures ok ==> Some((ls.View(), rs.View())) == GatherBoth(l, r, old(ls.View()), old(rs.View()), Mode())
    {
      var lv, rv := ls.View(), rs.View();
      if !lv.Structured() && rv.HasModulo() {
        RightGathered(l, r, lv, rv, Mode());
        ok := Regather(rs, r, lv.NonStructuredDim());
      } else if lv.HasModulo() && !rv.Structured() {
        LeftGathered(l, r, lv, rv, Mode());
        ok := Regather(ls, l, rv.NonStructuredDim());
      } else {
        NoneGathered(l, r, lv, rv, Mode());
        ok := true;
      }
    }

    method Regather(own: PtrState, e: Expr, d: nat) returns (ok: bool)
      requires own.View().Valid()
      modifies own
      ensures ok == Regathered(old(own.View()), e, d, Mode()).Some?
      ensures ok ==> own.View() == Regathered(old(own.View()), e, d, Mode()).value
    {
      if !enableMakeGatherScatterTensorPtr { return false; }
      var st := RebuildAsGatherScatter(own.View(), e, d);
      ok := st.Some?;
      if ok { own.Assign(st.value); }
    }

    method VisitOperandSub(l: Expr, r: Expr, state: PtrState) returns (ok: bool)
      requires state.View() == EMPTY && KnownValid(knownPtrs)
      requires isAnalysisingUnstructured || Sub(l, r) !in knownPtrs
      modifies state
      ensures ok == Visit(Sub(l, r), Mode(), knownPtrs).Some?
      ensures ok ==> state.View() == Visit(Sub(l, r), Mode(), knownPtrs).value
      decreases Sub(l, r), 1
    {
      var ls := new PtrState();
      var rs := new PtrState();
      ok := VisitOperands(l, r, ls, rs, Sub(l, r));
      if !ok { return; }
      ok := CombineSub(ls, rs, state);
    }

    method CombineSub(ls: PtrState, rs: PtrState, state: PtrState) returns (ok: bool)
      requires ls != state && rs != state
      requires state.View() == EMPTY && ls.View().Valid() && rs.View().Valid()
      modifies state
      ensures var st := WithOffsets(PtrStates.AddState(ls.View(), NegState(rs.View()), isAnalysisingUnstructured));
              ok == st.Some? && (ok ==> state.View() == st.value)
    {
      var neg := new PtrState();
      neg.Negate(rs);
      ok := state.AddState(ls, neg, isAnalysisingUnstructured);
      state.origiOffsets := state.offsets;
    }

    method VisitOperandMul(l: Expr, r: Expr, state: PtrState) returns (ok: bool)
      requires state.View() == EMPTY && KnownValid(knownPtrs)
      requires isAnalysisingUnstructured || Mul(l, r) !in knownPtrs
      modifies state
      ensures ok == Visit(Mul(l, r), Mode(), knownPtrs).Some?
      ensures ok ==> state.View() == Visit(Mul(l, r), Mode(), knownPtrs).value
      decreases Mul(l, r), 1
    {
      var ls := new PtrState();
      var rs := new PtrState();
      ok := VisitOperands(l, r, ls, rs, Mul(l, r));
      if !ok { return; }
      ok := CombineMul(l, r, ls, rs, state);
    }

    method CombineMul(l: Expr, r: Expr, ls: PtrState, rs: PtrState, state: PtrState) returns (ok: bool)
      requires ls != rs && ls != state && rs != state
      requires state.View() == EMPTY && ls.View().Valid() && rs.View().Valid()
      modifies ls, rs, state
      ensures ok == MulOperands(l, r, old(ls.View()), old(rs.View()), Mode()).Some?
      ensures ok ==> state.View() == MulOperands(l, r, old(ls.View()), old(rs.View()), Mode()).value
    {
      ok := GatherOperands(l, r, ls, rs);
      if !ok { return; }
      ok := MulInto(ls, rs, state);
    }

    method MulInto(ls: PtrState, rs: PtrState, state: PtrState) returns (ok: bool)
      requires ls != state && rs != state
      requires state.View() == EMPTY && ls.View().Valid() && rs.View().Valid()
      modifies state
      ensures var st := WithOffsets(PtrStates.MulState(ls.View(), rs.View(), isAnalysisingUnstructured));
              ok == st.Some? && (ok ==> state.View() == st.value)
    {
      ok := state.MulState(ls, rs, isAnalysisingUnstructured);
      state.origiOffsets := state.offsets;
    }

    method VisitOperandRem(l: Expr, r: Expr, state: PtrState) returns (ok: bool)
      requires state.View() == EMPTY && KnownValid(knownPtrs)
      requires isAnalysisingUnstructured || Rem(l, r) !in knownPtrs
      modifies state
      ensures ok == Visit(Rem(l, r), Mode(), knownPtrs).Some?
      ensures ok ==> state.View() == Visit(Rem(l, r), Mode(), knownPtrs).value
      decreases Rem(l, r), 1
    {
      if isAnalysisingUnstructured {
        var st := RebuildAsUnsupportedOp(Rem(l, r));
        ok := st.Some?;
        if ok { state.Assign(st.value); }
        return;
      }
      var rs := new PtrState();
      ok := VisitOperand(r, rs);
      if !ok || rs.scalar.None? { return false; }
      ok := VisitOperand(l, state);
      if !ok { return; }
      var st := RemState(state.View(), rs.scalar.value, Rem(l, r), Mode());
      ok := st.Some?;
      if ok { state.Assign(st.value); }
    }

    method VisitOperandAddptr(p: Expr, off: Expr, state: PtrState) returns (ok: bool)
      requires state.View() == EMPTY && KnownValid(knownPtrs)
      modifies state
      ensures ok == VisitAddptr(p, off, Mode(), knownPtrs).Some?
      ensures ok ==> state.View() == VisitAddptr(p, off, Mode(), knownPtrs).value
      decreases AddPtr(p, off), 1
    {
      var ps := new PtrState();
      var os := new PtrState();
      ok := VisitOperands(p, off, ps, os, AddPtr(p, off));
      if !ok { return; }
      ok := CombineAddptr(ps, os, state);
    }

    method CombineAddptr(ps: PtrState, os: PtrState, state: PtrState) returns (ok: bool)
      requires ps != state && os != state
      requires state.View() == EMPTY && ps.View().Valid() && os.View().Valid()
      modifies state
      ensures var st := AddPtrOperands(ps.View(), os.View(), Mode());
              ok == st.Some? && (ok ==> state.View() == st.value)
    {
      ok := state.AddState(ps, os, isAnalysisingUnstructured);
      state.origiOffsets := ps.offsets;
    }

    /** Decode one tt.addptr, record its state, and map the op to the pointer that replaces it. */
    method RewriteAddptrOp(p: Expr, off: Expr) returns (ok: bool)
      requires KnownValid(knownPtrs) && !isAnalysisingUnstructured
      modifies this
      ensures ok == RewriteAddptr(p, off, enableMakeGatherScatterTensorPtr, old(knownPtrs)).ok
      ensures knownPtrs == RewriteAddptr(p, off, enableMakeGatherScatterTensorPtr, old(knownPtrs)).known
      ensures ptrMap == Mapped(old(ptrMap), AddPtr(p, off),
                               RewriteAddptr(p, off, enableMakeGatherScatterTensorPtr, old(knownPtrs)).mapped)
      ensures !isAnalysisingUnstructured
    {
      var e := AddPtr(p, off);
      var state := new PtrState();
      ok := VisitOperandAddptr(p, off, state);
      if !ok { return; }
      knownPtrs := knownPtrs[e := state.View()];
      if ShapeOf(p) == [] {
        ptrMap := ptrMap[e := Itself];
      } else if state.View().Structured() {
        ptrMap := ptrMap[e := Made(state.View())];
      } else if enableMakeGatherScatterTensorPtr {
        ok := RewriteGatheredOp(p, off, state.View());
      } else {
        ok := false;
      }
    }

    /** The second visit, in the other mode. */
    method RewriteGatheredOp(p: Expr, off: Expr, st: PState) returns (ok: bool)
      requires KnownValid(knownPtrs) && st.Valid() && !isAnalysisingUnstructured && enableMakeGatherScatterTensorPtr
      modifies this
      ensures ok == RewriteGathered(p, off, st, old(knownPtrs)).ok
      ensures knownPtrs == RewriteGathered(p, off, st, old(knownPtrs)).known
      ensures ptrMap == Mapped(old(ptrMap), AddPtr(p, off), RewriteGathered(p, off, st, old(knownPtrs)).mapped)
      ensures !isAnalysisingUnstructured
    {
      if st.Rank() == 1 { return false; }
      var un;
      ok, un := VisitUnstructured(p, off);
      if ok { ok := RecordMerged(AddPtr(p, off), st, un); }
    }

    method VisitUnstructured(p: Expr, off: Expr) returns (ok: bool, un: PState)
      requires KnownValid(knownPtrs) && enableMakeGatherScatterTensorPtr && !isAnalysisingUnstructured
      modifies `isAnalysisingUnstructured
      ensures var st := VisitAddptr(p, off, Config(true, true), knownPtrs);
              ok == st.Some? && (ok ==> un == st.value)
      ensures !isAnalysisingUnstructured
    {
      var state := new PtrState();
      isAnalysisingUnstructured := true;
      ok := VisitOperandAddptr(p, off, state);
      isAnalysisingUnstructured := false;
      un := state.View();
    }

    method RecordMerged(e: Expr, st: PState, un: PState) returns (ok: bool)
      requires KnownValid(knownPtrs) && st.Valid() && un.Valid()
      modifies `knownPtrs, `ptrMap
      ensures var r := MergedRewrite(e, st, un, old(knownPtrs));
              ok == r.ok && knownPtrs == r.known && ptrMap == Mapped(old(ptrMap), e, r.mapped)
    {
      var merged := MergeUnstructuredState(st, un);
      ok := merged.Some?;
      if ok {
        knownPtrs := knownPtrs[e := merged.value];
        ptrMap := ptrMap[e := Made(merged.value)];
      }
    }
  }

  function Mapped(ptrMap: map<Expr, NewPtr>, e: Expr, mapped: Option<NewPtr>): map<Expr, NewPtr> {
    if mapped.Some? then ptrMap[e := mapped.value] else ptrMap
  }
}
