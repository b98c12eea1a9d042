/**
 A whole run of rewriteAddptrOp over the pointer operations of a function: the record of known pointers
 stays sound after every rewrite, and every pointer op that was created denotes the pointer it replaces
 (lib/AnalysisStructured/PtrAnalysis.cpp).
 */
module PtrRun {
  import opened Wrappers
  import opened Ir
  import opened PtrStates
  import opened PtrSoundness
  import opened PtrPlain
  import opened Gather
  import opened Analysis

  /** What the record satisfies between rewrites. */
  ghost predicate RecordSound(known: Known, gather: bool, w: World) {
    KnownSound(known, w) && (gather ==> KnownAgrees(known, w))
  }

  /** The limits of one rewrite: see PtrSoundness.Guard, and Gather for a gathered pointer. */
  ghost predicate RewriteGuard(p: Expr, off: Expr, gather: bool, known: Known, w: World)
    requires KnownValid(known)
  {
    var e := AddPtr(p, off);
    && WellTyped(e) && e !in known
    && Guard(e, Config(gather, false), known, w)
    && (gather ==> Guard(e, UNSTRUCTURED, known, w) && PlainRemainders(e, known))
    && (gather && VisitAddptr(p, off, STRUCTURED, known).Some? ==>
          OneGathered(VisitAddptr(p, off, STRUCTURED, known).value))
  }

  /** While offsets are gathered only loop-carried tensors are looked up, so recording a pointer changes nothing. */
  lemma {:induction false} UnstructuredFrame(e: Expr, known: Known, at: Expr, st: PState)
    requires KnownValid(known) && st.Valid() && !at.IterArg?
    ensures KnownValid(known[at := st])
    ensures Visit(e, UNSTRUCTURED, known[at := st]) == Visit(e, UNSTRUCTURED, known)
  {
    match e
    case Splat(src, _) => UnstructuredFrame(src, known, at, st);
    case ExpandDims(src, _) => UnstructuredFrame(src, known, at, st);
    case Broadcast(src, _) => UnstructuredFrame(src, known, at, st);
    case ExtSI(src) => UnstructuredFrame(src, known, at, st);
    case Add(l, r) => UnstructuredFrame(l, known, at, st); UnstructuredFrame(r, known, at, st);
    case Sub(l, r) => UnstructuredFrame(l, known, at, st); UnstructuredFrame(r, known, at, st);
    case Mul(l, r) => UnstructuredFrame(l, known, at, st); UnstructuredFrame(r, known, at, st);
    case AddPtr(l, r) => UnstructuredFrame(l, known, at, st); UnstructuredFrame(r, known, at, st);
    case _ =>
  }

  /** Recording a sound, agreeing state keeps the record sound. */
  lemma RecordExtends(known: Known, e: Expr, st: PState, gather: bool, w: World)
    requires RecordSound(known, gather, w) && e.AddPtr?
    requires StateSound(e, st, w, st.Structured())
    requires gather && Visit(e, UNSTRUCTURED, known).Some? ==> Agree(st, Visit(e, UNSTRUCTURED, known).value, w)
    ensures RecordSound(known[e := st], gather, w)
  {
    var known' := known[e := st];
    if gather {
      forall k | k in known' ensures EntryAgrees(k, known', w) {
        UnstructuredFrame(k, known, e, st);
        assert k != e ==> EntryAgrees(k, known, w);
      }
    }
  }

  lemma MergedAgrees(s: PState, u: PState, m: PState, w: World)
    requires Agree(s, u, w) && MergeUnstructuredState(s, u) == Some(m)
    ensures Agree(m, u, w)
  {
    forall i | 0 <= i < m.Rank() ensures DimsAgree(m, u, i, w) { assert DimsAgree(s, u, i, w); }
  }

  /** A scalar pointer stands for itself; for a tensor there is a new pointer op, which denotes what it replaces. */
  ghost predicate NewPtrSound(e: Expr, t: NewPtr, w: World) {
    if ShapeOf(e) == [] then t.Itself? else t.Made? && StateSound(e, t.st, w, true)
  }

  ghost predicate OutcomeSound(e: Expr, r: Rewrite, gather: bool, w: World) {
    && RecordSound(r.known, gather, w)
    && (r.ok <==> r.mapped.Some?) && (r.ok ==> e in r.known && NewPtrSound(e, r.mapped.value, w))
  }

  /**
   When a pointer is rewritten: the first walk succeeds and finds it scalar or structured, or it is gathered, has more
   than one dimension, and the second walk succeeds too.
   */
  predicate Rewritten(p: Expr, off: Expr, gather: bool, known: Known)
    requires KnownValid(known)
  {
    var st := Visit(AddPtr(p, off), Config(gather, false), known);
    && st.Some?
    && (ShapeOf(p) == [] || st.value.Structured() ||
        (gather && |ShapeOf(p)| > 1 && Visit(AddPtr(p, off), UNSTRUCTURED, known).Some?))
  }

  /**
   One rewrite keeps the record sound. It succeeds exactly for the pointers above, records them, and the pointer it
   creates is the pointer it replaces.
   */
  lemma RewriteSound(p: Expr, off: Expr, gather: bool, known: Known, w: World)
    requires RecordSound(known, gather, w) && RewriteGuard(p, off, gather, known, w)
    ensures OutcomeSound(AddPtr(p, off), RewriteAddptr(p, off, gather, known), gather, w)
    ensures RewriteAddptr(p, off, gather, known).ok <==> Rewritten(p, off, gather, known)
  {
    var e := AddPtr(p, off);
    var c := Config(gather, false);
    VisitSound(e, c, known, w);
    assert Visit(e, c, known) == VisitAddptr(p, off, c, known);
    var st := VisitAddptr(p, off, c, known);
    if st.Some? {
      if gather { ModesAgree(e, known, w); }
      RecordExtends(known, e, st.value, gather, w);
      if ShapeOf(p) != [] && gather && !st.value.Structured() { GatheredRewrite(p, off, known, st.value, w); }
    }
  }

  /** The state recorded in the end: that of the new pointer, if there is one. */
  function LastState(r: Rewrite, st: PState): PState {
    if r.mapped.Some? && r.mapped.value.Made? then r.mapped.value.st else st
  }

  /** The record keeps its entries and gets one more if the first walk succeeds, whatever happens then. */
  lemma RewriteRecords(p: Expr, off: Expr, gather: bool, known: Known)
    requires KnownValid(known)
    ensures var r, st := RewriteAddptr(p, off, gather, known), VisitAddptr(p, off, Config(gather, false), known);
            var e := AddPtr(p, off);
            && (st.None? ==> r.known == known)
            && (st.Some? ==> r.known.Keys == known.Keys + {e} && r.known - {e} == known - {e})
            && (st.Some? ==> r.known[e] == LastState(r, st.value))
  {
    var st := VisitAddptr(p, off, Config(gather, false), known);
    if st.Some? {
      RewriteReplaces(p, off, gather, known, st.value);
      Replaced(known, AddPtr(p, off), LastState(RewriteAddptr(p, off, gather, known), st.value));
    }
  }

  lemma RewriteReplaces(p: Expr, off: Expr, gather: bool, known: Known, st: PState)
    requires KnownValid(known) && VisitAddptr(p, off, Config(gather, false), known) == Some(st) && st.Valid()
    ensures var r := RewriteAddptr(p, off, gather, known); r.known == known[AddPtr(p, off) := LastState(r, st)]
  {
    if ShapeOf(p) != [] && !st.Structured() && gather { GatheredRecords(p, off, st, known); }
  }

  lemma Replaced(known: Known, e: Expr, st: PState)
    ensures known[e := st].Keys == known.Keys + {e} && known[e := st] - {e} == known - {e}
  {
  }

  lemma GatheredRecords(p: Expr, off: Expr, st: PState, known: Known)
    requires KnownValid(known) && st.Valid()
    ensures var e := AddPtr(p, off);
            var r := RewriteGathered(p, off, st, known[e := st]);
            r.known == known[e := LastState(r, st)]
  {
  }

  /** The second walk over a gathered pointer, and the merge of the two states. */
  lemma GatheredRewrite(p: Expr, off: Expr, known: Known, st: PState, w: World)
    requires RecordSound(known, true, w) && RewriteGuard(p, off, true, known, w) && !st.Structured()
    requires VisitAddptr(p, off, STRUCTURED, known) == Some(st) && RecordSound(known[AddPtr(p, off) := st], true, w)
    requires ShapeOf(p) != []
    ensures OutcomeSound(AddPtr(p, off), RewriteGathered(p, off, st, known[AddPtr(p, off) := st]), true, w)
    ensures RewriteGathered(p, off, st, known[AddPtr(p, off) := st]).ok
       <==> |ShapeOf(p)| > 1 && Visit(AddPtr(p, off), UNSTRUCTURED, known).Some?
  {
    UnstructuredVisit(p, off, known, st);
    var u := Visit(AddPtr(p, off), UNSTRUCTURED, known);
    if u.Some? { MergedOutcome(AddPtr(p, off), st, u.value, known, w); }
  }

  lemma MergedOutcome(e: Expr, s: PState, u: PState, known: Known, w: World)
    requires RecordSound(known, true, w) && Analysed(e, known, w) && PlainRemainders(e, known) && e.AddPtr?
    requires Visit(e, STRUCTURED, known) == Some(s) && Visit(e, UNSTRUCTURED, known) == Some(u) && OneGathered(s)
    requires RecordSound(known[e := s], true, w)
    requires ShapeOf(e) != [] && !s.Structured()
    ensures OutcomeSound(e, MergedRewrite(e, s, u, known[e := s]), true, w) && MergedRewrite(e, s, u, known[e := s]).ok
  {
    ModesAgree(e, known, w);
    MergeAccepted(s, u, w);
    MergedRecord(e, s, u, known, w);
  }

  /** Two walks that agree find the same gathered dimension. */
  lemma MergeAccepted(s: PState, u: PState, w: World)
    requires Agree(s, u, w) && !s.Structured()
    ensures MergeUnstructuredState(s, u).Some?
  {
    var g := s.NonStructuredDim();
    assert DimsAgree(s, u, g, w);
    var h := u.NonStructuredDim();
    assert DimsAgree(s, u, h, w);
  }

  lemma UnstructuredVisit(p: Expr, off: Expr, known: Known, st: PState)
    requires KnownValid(known) && st.Valid()
    ensures KnownValid(known[AddPtr(p, off) := st])
    ensures VisitAddptr(p, off, UNSTRUCTURED, known[AddPtr(p, off) := st]) == Visit(AddPtr(p, off), UNSTRUCTURED, known)
  {
    UnstructuredFrame(p, known, AddPtr(p, off), st);
    UnstructuredFrame(off, known, AddPtr(p, off), st);
    AddptrVisited(p, off, known);
  }

  lemma AddptrVisited(p: Expr, off: Expr, known: Known)
    requires KnownValid(known)
    ensures Visit(AddPtr(p, off), UNSTRUCTURED, known) == VisitAddptr(p, off, UNSTRUCTURED, known)
  {
    NotLookedUp(p, off, UNSTRUCTURED, known);
  }

  lemma NotLookedUp(p: Expr, off: Expr, c: Config, known: Known)
    requires KnownValid(known) && c.unstructured
    ensures Visit(AddPtr(p, off), c, known) == VisitAddptr(p, off, c, known)
  {
  }

  lemma MergedRecord(e: Expr, s: PState, u: PState, known: Known, w: World)
    requires RecordSound(known, true, w) && Analysed(e, known, w) && PlainRemainders(e, known) && e.AddPtr?
    requires Visit(e, STRUCTURED, known) == Some(s) && Visit(e, UNSTRUCTURED, known) == Some(u)
    requires OneGathered(s) && MergeUnstructuredState(s, u).Some?
    ensures var m := MergeUnstructuredState(s, u).value;
            StateSound(e, m, w, true) && RecordSound(known[e := s][e := m], true, w)
  {
    var m := MergeUnstructuredState(s, u).value;
    ModesAgree(e, known, w);
    MergedSound(e, known, w);
    MergedAgrees(s, u, m, w);
    RecordExtends(known, e, m, true, w);
    assert known[e := s][e := m] == known[e := m];
  }

  // ------------------------------------------------------------------
  // The run
  // ------------------------------------------------------------------

  /** The operands of one tt.addptr. */
  datatype PtrOp = PtrOp(p: Expr, off: Expr)

  function RunRecord(ops: seq<PtrOp>, gather: bool, known: Known): (r: Known)
    requires KnownValid(known)
    ensures KnownValid(r)
  {
    if ops == [] then known else RunRecord(ops[1..], gather, RewriteAddptr(ops[0].p, ops[0].off, gather, known).known)
  }

  function RunMapped(ops: seq<PtrOp>, gather: bool, known: Known): map<Expr, NewPtr>
    requires KnownValid(known)
  {
    if ops == [] then map[]
    else
      var r := RewriteAddptr(ops[0].p, ops[0].off, gather, known);
      var rest := RunMapped(ops[1..], gather, r.known);
      if r.mapped.Some? then map[AddPtr(ops[0].p, ops[0].off) := r.mapped.value] + rest else rest
  }

  ghost predicate RunGuard(ops: seq<PtrOp>, gather: bool, known: Known, w: World)
    requires KnownValid(known)
  {
    ops == [] ||
    (RewriteGuard(ops[0].p, ops[0].off, gather, known, w) &&
     RunGuard(ops[1..], gather, RewriteAddptr(ops[0].p, ops[0].off, gather, known).known, w))
  }

  /** The k-th rewrite of a run succeeds. */
  predicate Succeeds(ops: seq<PtrOp>, gather: bool, known: Known, k: nat)
    requires KnownValid(known) && k < |ops|
  {
    Rewritten(ops[k].p, ops[k].off, gather, RunRecord(ops[..k], gather, known))
  }

  /** Every pointer whose rewrite succeeded has been mapped, to what it denotes, and nothing else has. */
  ghost predicate MappedSoundly(ops: seq<PtrOp>, gather: bool, known: Known, w: World)
    requires KnownValid(known)
  {
    var mapped := RunMapped(ops, gather, known);
    && (forall e :: e in mapped ==> NewPtrSound(e, mapped[e], w))
    && (forall k :: 0 <= k < |ops| && Succeeds(ops, gather, known, k) ==> AddPtr(ops[k].p, ops[k].off) in mapped)
    && (forall e :: e in mapped ==>
          exists k :: 0 <= k < |ops| && Succeeds(ops, gather, known, k) && e == AddPtr(ops[k].p, ops[k].off))
  }

  lemma SucceedsLater(ops: seq<PtrOp>, gather: bool, known: Known, k: nat)
    requires KnownValid(known) && 0 < k < |ops|
    ensures Succeeds(ops, gather, known, k)
       <==> Succeeds(ops[1..], gather, RewriteAddptr(ops[0].p, ops[0].off, gather, known).known, k - 1)
  {
    assert ops[..k][0] == ops[0] && ops[..k][1..] == ops[1..][..k - 1];
  }

  /** After any run, failed rewrites included, the record is sound and so is every pointer op created. */
  lemma {:induction false} RunSound(ops: seq<PtrOp>, gather: bool, known: Known, w: World)
    requires RecordSound(known, gather, w) && RunGuard(ops, gather, known, w)
    ensures RecordSound(RunRecord(ops, gather, known), gather, w)
    ensures MappedSoundly(ops, gather, known, w)
  {
    if ops != [] {
      var r := RewriteAddptr(ops[0].p, ops[0].off, gather, known);
      RewriteSound(ops[0].p, ops[0].off, gather, known, w);
      RunSound(ops[1..], gather, r.known, w);
      assert ops[..0] == [];
      MappedNext(ops, gather, known, w);
    }
  }

  /** The first rewrite of a run, and what the later ones have mapped. */
  ghost predicate FirstMapped(ops: seq<PtrOp>, gather: bool, known: Known, w: World)
    requires KnownValid(known) && ops != []
  {
    var e, r := AddPtr(ops[0].p, ops[0].off), RewriteAddptr(ops[0].p, ops[0].off, gather, known);
    && (Succeeds(ops, gather, known, 0) <==> r.mapped.Some?)
    && (r.mapped.Some? ==> NewPtrSound(e, r.mapped.value, w))
    && MappedSoundly(ops[1..], gather, r.known, w)
  }

  function MappedLater(ops: seq<PtrOp>, gather: bool, known: Known): map<Expr, NewPtr>
    requires KnownValid(known) && ops != []
  {
    RunMapped(ops[1..], gather, RewriteAddptr(ops[0].p, ops[0].off, gather, known).known)
  }

  lemma MappedIsFirstOrLater(ops: seq<PtrOp>, gather: bool, known: Known, e: Expr)
    requires KnownValid(known) && ops != []
    ensures var r := RewriteAddptr(ops[0].p, ops[0].off, gather, known);
            var mapped, later := RunMapped(ops, gather, known), MappedLater(ops, gather, known);
            && (e in mapped <==> e in later || (r.mapped.Some? && e == AddPtr(ops[0].p, ops[0].off)))
            && (e in mapped ==> mapped[e] == if e in later then later[e] else r.mapped.value)
  {
  }

  lemma MappedNext(ops: seq<PtrOp>, gather: bool, known: Known, w: World)
    requires KnownValid(known) && ops != [] && FirstMapped(ops, gather, known, w)
    ensures MappedSoundly(ops, gather, known, w)
  {
    var mapped := RunMapped(ops, gather, known);
    forall e | e in mapped ensures NewPtrSound(e, mapped[e], w) {
      MappedIsFirstOrLater(ops, gather, known, e);
    }
    forall k | 0 <= k < |ops| && Succeeds(ops, gather, known, k) ensures AddPtr(ops[k].p, ops[k].off) in mapped {
      SucceededMapped(ops, gather, known, k, w);
    }
    forall e | e in mapped
      ensures exists k :: 0 <= k < |ops| && Succeeds(ops, gather, known, k) && e == AddPtr(ops[k].p, ops[k].off)
    {
      MappedSucceeded(ops, gather, known, e, w);
    }
  }

  lemma SucceededMapped(ops: seq<PtrOp>, gather: bool, known: Known, k: nat, w: World)
    requires KnownValid(known) && k < |ops| && FirstMapped(ops, gather, known, w) && Succeeds(ops, gather, known, k)
    ensures AddPtr(ops[k].p, ops[k].off) in RunMapped(ops, gather, known)
  {
    MappedIsFirstOrLater(ops, gather, known, AddPtr(ops[k].p, ops[k].off));
    if k > 0 {
      SucceedsLater(ops, gather, known, k);
      assert ops[1..][k - 1] == ops[k];
    }
  }

  lemma MappedSucceeded(ops: seq<PtrOp>, gather: bool, known: Known, e: Expr, w: World)
    requires KnownValid(known) && ops != [] && FirstMapped(ops, gather, known, w) && e in RunMapped(ops, gather, known)
    ensures exists k :: 0 <= k < |ops| && Succeeds(ops, gather, known, k) && e == AddPtr(ops[k].p, ops[k].off)
  {
    var r, rest := RewriteAddptr(ops[0].p, ops[0].off, gather, known), ops[1..];
    MappedIsFirstOrLater(ops, gather, known, e);
    if e in MappedLater(ops, gather, known) {
      var k :| 0 <= k < |rest| && Succeeds(rest, gather, r.known, k) && e == AddPtr(rest[k].p, rest[k].off);
      SucceedsLater(ops, gather, known, k + 1);
      assert ops[k + 1] == rest[k];
    } else {
      assert Succeeds(ops, gather, known, 0);
    }
  }

  // ------------------------------------------------------------------
  // Runs that pass the tests
  // ------------------------------------------------------------------

  /** The limits of one rewrite as PtrPlain.Checked tells them, remainders included; nothing here looks at values. */
  predicate CheckedOp(op: PtrOp, gather: bool, known: Known)
    requires KnownValid(known)
  {
    var e := AddPtr(op.p, op.off);
    && WellTyped(e) && e !in known && Checked(e, Config(gather, false), known)
    && (gather ==> Checked(e, UNSTRUCTURED, known) && PlainRemainders(e, known))
    && (gather && VisitAddptr(op.p, op.off, STRUCTURED, known).Some? ==>
          OneGathered(VisitAddptr(op.p, op.off, STRUCTURED, known).value))
  }

  predicate CheckedOps(ops: seq<PtrOp>, gather: bool, known: Known)
    requires KnownValid(known)
  {
    ops == [] ||
    (CheckedOp(ops[0], gather, known) &&
     CheckedOps(ops[1..], gather, RewriteAddptr(ops[0].p, ops[0].off, gather, known).known))
  }

  lemma {:induction false} CheckedRunWithin(ops: seq<PtrOp>, gather: bool, known: Known, w: World)
    requires KnownValid(known) && CheckedOps(ops, gather, known)
    ensures RunGuard(ops, gather, known, w)
    decreases |ops|
  {
    if ops != [] {
      var e := AddPtr(ops[0].p, ops[0].off);
      CheckedWithin(e, Config(gather, false), known, w);
      if gather { CheckedWithin(e, UNSTRUCTURED, known, w); }
      CheckedRunWithin(ops[1..], gather, RewriteAddptr(ops[0].p, ops[0].off, gather, known).known, w);
    }
  }

  /** Over any such run, from any sound record, every new pointer op denotes the pointer it replaces. */
  lemma CheckedRun(ops: seq<PtrOp>, gather: bool, known: Known, w: World)
    requires RecordSound(known, gather, w) && CheckedOps(ops, gather, known)
    ensures RecordSound(RunRecord(ops, gather, known), gather, w)
    ensures MappedSoundly(ops, gather, known, w)
  {
    CheckedRunWithin(ops, gather, known, w);
    RunSound(ops, gather, known, w);
  }

  // ------------------------------------------------------------------
  // Runs without remainders
  // ------------------------------------------------------------------

  /** The gathering walk adds nothing that moves to a gathered dimension, and gathers nothing that is subtracted. */
  predicate Separable(e: Expr, known: Known)
    requires KnownValid(known)
  {
    match e
    case Splat(src, _) => Separable(src, known)
    case ExpandDims(src, _) => Separable(src, known)
    case Broadcast(src, _) => Separable(src, known)
    case ExtSI(src) => Separable(src, known)
    case Add(l, r) =>
      Separable(l, known) && Separable(r, known) && Apart(Visit(l, UNSTRUCTURED, known), Visit(r, UNSTRUCTURED, known))
    case AddPtr(l, r) =>
      Separable(l, known) && Separable(r, known) && Apart(Visit(l, UNSTRUCTURED, known), Visit(r, UNSTRUCTURED, known))
    case Sub(l, r) =>
      Separable(l, known) && Separable(r, known) &&
      Subtractable(Visit(l, UNSTRUCTURED, known), Visit(r, UNSTRUCTURED, known))
    case Mul(l, r) => Separable(l, known) && Separable(r, known)
    case _ => true
  }

  predicate Apart(l: Option<PState>, r: Option<PState>)
    requires ValidState(l) && ValidState(r)
  {
    l.Some? && r.Some? && l.value.Rank() == r.value.Rank() ==>
      forall i :: 0 <= i < l.value.Rank() && (l.value.offsets[i].T? || r.value.offsets[i].T?) ==>
        && GatherSide(l.value.offsets[i], l.value.strides[i], l.value.shape[i])
        && GatherSide(r.value.offsets[i], r.value.strides[i], r.value.shape[i])
  }

  predicate Subtractable(l: Option<PState>, r: Option<PState>)
    requires ValidState(l) && ValidState(r)
  {
    r.Some? ==> r.value.Structured() && Apart(l, Some(NegState(r.value)))
  }

  lemma ApartChecked(l: PState, r: PState)
    requires l.Valid() && r.Valid() && Unwrapped(l) && Unwrapped(r) && Apart(Some(l), Some(r))
    ensures AddChecked(l, r, true)
  {
  }

  /** Then the gathering walk is within the limits of the analysis. */
  lemma {:induction false} GatherChecked(e: Expr, known: Known)
    requires RemainderFree(e) && CarriedUnwrapped(known) && Separable(e, known)
    ensures Checked(e, UNSTRUCTURED, known)
    decreases e, 1
  {
    match e
    case Splat(src, _) => GatherChecked(src, known);
    case ExpandDims(src, _) => GatherChecked(src, known);
    case Broadcast(src, _) => GatherChecked(src, known);
    case ExtSI(src) => GatherChecked(src, known);
    case Add(l, r) => OperandsGather(e, l, r, known);
    case AddPtr(l, r) => OperandsGather(e, l, r, known);
    case Sub(l, r) => OperandsGather(e, l, r, known);
    case Mul(l, r) => OperandsGather(e, l, r, known);
    case _ =>
  }

  lemma {:induction false} OperandsGather(e: Expr, l: Expr, r: Expr, known: Known)
    requires RemainderFree(e) && CarriedUnwrapped(known) && Separable(e, known)
    requires e == Add(l, r) || e == AddPtr(l, r) || e == Sub(l, r) || e == Mul(l, r)
    ensures Checked(e, UNSTRUCTURED, known)
    decreases e, 0
  {
    GatherChecked(l, known);
    GatherChecked(r, known);
    StaysUnwrapped(l, UNSTRUCTURED, known);
    StaysUnwrapped(r, UNSTRUCTURED, known);
    var lu, ru := Visit(l, UNSTRUCTURED, known), Visit(r, UNSTRUCTURED, known);
    if lu.Some? && ru.Some? {
      NothingMixed(l, r, UNSTRUCTURED, known);
      if e.Sub? { ApartChecked(lu.value, NegState(ru.value)); }
      if e.Add? || e.AddPtr? { ApartChecked(lu.value, ru.value); }
    }
  }

  lemma GatherWithin(e: Expr, known: Known, w: World)
    requires RemainderFree(e) && CarriedUnwrapped(known) && Separable(e, known)
    ensures Guard(e, UNSTRUCTURED, known, w)
  {
    GatherChecked(e, known);
    CheckedWithin(e, UNSTRUCTURED, known, w);
  }

  lemma {:induction false} NoRemainders(e: Expr, known: Known)
    requires RemainderFree(e) && KnownValid(known)
    ensures PlainRemainders(e, known)
  {
    match e
    case Splat(src, _) => NoRemainders(src, known);
    case ExpandDims(src, _) => NoRemainders(src, known);
    case Broadcast(src, _) => NoRemainders(src, known);
    case ExtSI(src) => NoRemainders(src, known);
    case Add(l, r) => NoRemainders(l, known); NoRemainders(r, known);
    case AddPtr(l, r) => NoRemainders(l, known); NoRemainders(r, known);
    case Sub(l, r) => NoRemainders(l, known); NoRemainders(r, known);
    case Mul(l, r) => NoRemainders(l, known); NoRemainders(r, known);
    case _ =>
  }

  /** Pointer arithmetic without remainders, where gathered dimensions stay apart; nothing here looks at values. */
  predicate PlainOp(op: PtrOp, gather: bool, known: Known)
    requires KnownValid(known)
  {
    var e := AddPtr(op.p, op.off);
    && WellTyped(e) && RemainderFree(e) && e !in known
    && (gather ==> Separable(e, known))
    && (gather && VisitAddptr(op.p, op.off, STRUCTURED, known).Some? ==>
          OneGathered(VisitAddptr(op.p, op.off, STRUCTURED, known).value))
  }

  predicate PlainOps(ops: seq<PtrOp>, gather: bool, known: Known)
    requires KnownValid(known)
  {
    ops == [] ||
    (PlainOp(ops[0], gather, known) &&
     PlainOps(ops[1..], gather, RewriteAddptr(ops[0].p, ops[0].off, gather, known).known))
  }

  lemma PlainOpChecked(op: PtrOp, gather: bool, known: Known)
    requires KnownUnwrapped(known) && PlainOp(op, gather, known)
    ensures CheckedOp(op, gather, known)
  {
    var e := AddPtr(op.p, op.off);
    PlainChecked(e, Config(gather, false), known);
    if gather {
      GatherChecked(e, known);
      NoRemainders(e, known);
    }
  }

  lemma PlainRecord(op: PtrOp, gather: bool, known: Known)
    requires KnownUnwrapped(known) && PlainOp(op, gather, known)
    ensures KnownUnwrapped(RewriteAddptr(op.p, op.off, gather, known).known)
  {
    var e, c := AddPtr(op.p, op.off), Config(gather, false);
    StaysUnwrapped(e, c, known);
    assert Visit(e, c, known) == VisitAddptr(op.p, op.off, c, known);
    if Visit(e, c, known).Some? {
      var st := Visit(e, c, known).value;
      GatheredRecord(op.p, op.off, st, known[e := st]);
    }
  }

  lemma GatheredRecord(p: Expr, off: Expr, st: PState, known: Known)
    requires KnownUnwrapped(known) && st.Valid() && Unwrapped(st)
    ensures KnownUnwrapped(RewriteGathered(p, off, st, known).known)
  {
    StaysUnwrapped(AddPtr(p, off), UNSTRUCTURED, known);
    AddptrVisited(p, off, known);
  }

  /** Every rewrite of such a run passes the tests. */
  lemma {:induction false} PlainOpsChecked(ops: seq<PtrOp>, gather: bool, known: Known)
    requires KnownUnwrapped(known) && PlainOps(ops, gather, known)
    ensures CheckedOps(ops, gather, known)
    decreases |ops|
  {
    if ops != [] {
      PlainOpChecked(ops[0], gather, known);
      PlainRecord(ops[0], gather, known);
      PlainOpsChecked(ops[1..], gather, RewriteAddptr(ops[0].p, ops[0].off, gather, known).known);
    }
  }

  /** Over any such run, gathered pointers included, every new pointer op denotes the pointer it replaces. */
  lemma PlainRun(ops: seq<PtrOp>, gather: bool, known: Known, w: World)
    requires RecordSound(known, gather, w) && KnownUnwrapped(known) && PlainOps(ops, gather, known)
    ensures RecordSound(RunRecord(ops, gather, known), gather, w)
    ensures MappedSoundly(ops, gather, known, w)
  {
    PlainOpsChecked(ops, gather, known);
    CheckedRun(ops, gather, known, w);
  }
}
