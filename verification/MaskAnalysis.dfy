/**
 MaskState as it is filled in place: each parse method sets the fields of an empty state
 (lib/Analysis/MaskAnalysis.cpp). It computes exactly MaskStates.Parse.
 */
module MaskAnalysis {
  import opened Wrappers
  import opened Ir
  import opened Folding
  import opened MaskStates

  class MaskState {
    var start: Option<Idx>
    var end: Option<Idx>
    var dims: seq<Idx>
    var scalar: Option<Idx>

    constructor ()
      ensures View() == NO_STATE
    {
      start, end, dims, scalar := None, None, [], None;
    }

    function View(): MState
      reads this
    {
      MState(start, end, dims, scalar)
    }

    method Assign(st: MState)
      modifies this
      ensures View() == st
    {
      start, end, dims, scalar := st.start, st.end, st.dims, st.scalar;
    }

    method ParseMask(operand: MExpr) returns (ok: bool)
      requires View() == NO_STATE
      modifies this
      ensures ok == Parse(operand).Some? && (ok ==> View() == Parse(operand).value)
      decreases operand
    {
      match operand
      case MScalar(v) =>
        scalar := Some(V(IndexCast(v)));
        ok := true;
      case MConst(n, d) =>
        scalar := Some(Attr(n));
        PushShape(d);
        ok := true;
      case MBoolConst(b, d) =>
        scalar := Some(Attr(if b then -1 else 0));
        PushShape(d);
        ok := true;
      case MRange(s, t) =>
        start, end := Some(Attr(s)), Some(Attr(t));
        PushShape(MShape(operand));
        ok := true;
      case MSplat(src, d) =>
        ok := ParseMask(src);
        if ok { PushShape(d); }
      case MBoolSplat(c, d) =>
        PushSelects(c, d);
        ok := true;
      case MExtSI(src) => ok := ParseMask(src);
      case MExpand(src, axis) =>
        ok := ParseMask(src);
        if ok {
          if axis > |dims| { return false; }
          dims := Insert(dims, axis, Attr(1));
        }
      case MBroadcast(src, d) =>
        ok := ParseMask(src);
        if ok {
          if |dims| < |MShape(src)| || |MShape(src)| != |d| { return false; }
          Stretch(MShape(src), d);
        }
      case MAdd(l, r) =>
        var ls := new MaskState();
        ok := ls.ParseMask(l);
        if !ok { return; }
        var rs := new MaskState();
        ok := rs.ParseMask(r);
        if !ok { return; }
        var st := AddStates(ls.View(), rs.View());
        ok := st.Some?;
        if ok { Assign(st.value); }
      case MAnd(l, r) =>
        var ls := new MaskState();
        ok := ls.ParseMask(l);
        if !ok { return; }
        var rs := new MaskState();
        ok := rs.ParseMask(r);
        if !ok { return; }
        if !ls.View().IsMask() || !rs.View().IsMask() {
          var st := MinStateScalar(ls.View(), rs.View());
          ok := st.Some?;
          if ok { Assign(st.value); }
        } else {
          ok := MinStatesInto(ls, rs);
        }
      case MCmp(p, l, r) =>
        if p != Slt && p != Ult && p != Sge { return false; }
        var ls := new MaskState();
        ok := ls.ParseMask(l);
        if !ok { return; }
        var rs := new MaskState();
        ok := rs.ParseMask(r);
        if !ok { return; }
        ok := CompareInto(p, ls, rs);
      case MOther(_) => ok := false;
    }

    method PushShape(d: seq<nat>)
      modifies `dims
      ensures dims == old(dims) + Attrs(d)
    {
      for i := 0 to |d|
        invariant dims == old(dims) + Attrs(d)[..i]
      {
        dims := dims + [Attr(d[i])];
      }
    }

    /** select(c, size, 0) for every dimension of an i1 splat. */
    method PushSelects(c: Val, d: seq<nat>)
      requires dims == []
      modifies `dims
      ensures dims == BoolSplatDims(c, d)
    {
      for i := 0 to |d|
        invariant dims == BoolSplatDims(c, d)[..i]
      {
        dims := dims + [V(Select(c, ConstV(d[i]), ConstV(0)))];
      }
    }

    method Stretch(src: seq<nat>, dst: seq<nat>)
      requires |src| == |dst| <= |dims|
      modifies `dims
      ensures dims == BroadcastDims(old(dims), src, dst)
    {
      for i := 0 to |src|
        invariant |dims| == |old(dims)|
        invariant forall j :: 0 <= j < |dims| ==>
          dims[j] == if j < i && src[j] < dst[j] then Attr(dst[j]) else old(dims)[j]
      {
        if src[i] < dst[i] {
          dims := dims[i := Attr(dst[i])];
        }
      }
    }

    /** minStates: the smaller of the two sizes in every dimension. */
    method MinStatesInto(l: MaskState, r: MaskState) returns (ok: bool)
      requires View() == NO_STATE && l != this && r != this
      modifies `dims
      ensures var st := MinStates(l.View(), r.View());
              ok == st.Some? && (ok ==> View() == st.value)
    {
      if |l.dims| != |r.dims| { return false; }
      for i := 0 to |l.dims|
        invariant dims == MinDims(l.dims, r.dims)[..i]
      {
        dims := dims + [MinOFRs(l.dims[i], r.dims[i])];
      }
      ok := true;
    }

    /** parseCmp on parsed operands: find the dimension, then replace its size. */
    method CompareInto(p: Pred, l: MaskState, r: MaskState) returns (ok: bool)
      requires View() == NO_STATE && l != this && r != this
      modifies `dims
      ensures var st := CmpStates(p, l.View(), r.View());
              ok == st.Some? && (ok ==> View() == st.value)
    {
      if p == Sge && !(r.scalar.Some? && HasConstZero(r.scalar.value)) { return false; }
      var cmpDim: int := if l.scalar.Some? && r.scalar.Some? then 0 else -1;
      ghost var first := cmpDim;
      for i := 0 to |l.dims|
        invariant -1 <= cmpDim && (cmpDim < |l.dims| || cmpDim == first)
        invariant CmpDim(l.dims, 0, first) == CmpDim(l.dims, i, cmpDim)
        invariant dims == []
      {
        if l.dims[i] != Attr(1) {
          if cmpDim != -1 { return false; }
          cmpDim := i;
        }
      }
      var size := CmpSize(p, l.View(), r.View(), cmpDim);
      if size.None? { return false; }
      for i := 0 to |l.dims|
        invariant |dims| == i
        invariant forall j :: 0 <= j < i ==> dims[j] == if j == cmpDim then size.value else l.dims[j]
      {
        dims := dims + [if i == cmpDim then size.value else l.dims[i]];
      }
      assert dims == if 0 <= cmpDim < |l.dims| then l.dims[cmpDim := size.value] else l.dims;
      ok := true;
    }
  }
}
