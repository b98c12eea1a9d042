/**
 Pointers carried by a loop. A structured pointer is replaced by its offsets, original offsets and strides,
 which the loop carries as index values; inside and after the loop the state is rebuilt from them
 (lib/AnalysisStructured/PtrAnalysis.cpp).
 */
module LoopPointers {
  import opened Wrappers
  import opened Ir
  import opened Folding
  import opened PtrStates
  import opened PtrSoundness
  import opened PtrPlain
  import opened PtrAccepted

  function Vals(s: seq<OFR>): (r: seq<Val>)
    requires forall i :: 0 <= i < |s| ==> !s[i].T?
    ensures |r| == |s| && forall i :: 0 <= i < |s| ==> r[i] == AsVal(s[i])
  {
    seq(|s|, i requires 0 <= i < |s| => AsVal(s[i]))
  }

  predicate Carriable(st: PState) {
    && st.Valid() && st.Structured() && |st.origiOffsets| == st.Rank()
    && forall i :: 0 <= i < st.Rank() ==> !st.origiOffsets[i].T? && !st.strides[i].T? && !st.shape[i].T?
  }

  /** The values that replace the results of tts.get_structured_state. */
  function Flatten(st: PState): (r: seq<Val>)
    requires Carriable(st)
    ensures |r| == CarriedCount(st)
  {
    if st.Rank() == 0 then
      var s := if st.scalar.Some? then st.scalar.value else ConstV(0);
      [s, s]
    else Vals(st.offsets) + Vals(st.origiOffsets) + Vals(st.strides)
  }

  /** A scalar pointer hands out its offset twice, as the offset and as the original one. */
  lemma ScalarCarried(st: PState, w: World)
    requires Carriable(st) && st.Rank() == 0
    ensures |Flatten(st)| == 2
    ensures forall j :: 0 <= j < 2 ==> BaseVal(st, w) + Eval(Flatten(st)[j], w) == Denote(st, w, [])
  {
    assert Eval(ConstV(0), w) == 0;
  }

  function CarriedCount(st: PState): nat {
    if st.Rank() == 0 then 2 else 3 * st.Rank()
  }

  /** reconcileLoopPtrState: the initial state with its carried parts replaced. */
  function Reconcile(st: PState, args: seq<Val>): PState
    requires Carriable(st) && |args| == CarriedCount(st)
  {
    var n := st.Rank();
    if n == 0 then st.(scalar := Some(args[0]))
    else st.(offsets := seq(n, i requires 0 <= i < n => V(args[i])),
             origiOffsets := seq(n, i requires 0 <= i < n => V(args[n + i])),
             strides := seq(n, i requires 0 <= i < n => V(args[2 * n + i])))
  }

  /** rewriteGetStructuredStateOp collects the replacement values one at a time. */
  method RewriteGetStructuredState(st: PState) returns (replacements: seq<Val>)
    requires Carriable(st)
    ensures replacements == Flatten(st)
  {
    replacements := [];
    if st.Rank() == 0 {
      if st.scalar.Some? {
        replacements := [st.scalar.value, st.scalar.value];
      } else {
        replacements := [ConstV(0), ConstV(0)];
      }
      return;
    }
    for j := 0 to |st.offsets|
      invariant replacements == Vals(st.offsets)[..j]
    {
      replacements := replacements + [AsVal(st.offsets[j])];
    }
    for j := 0 to |st.origiOffsets|
      invariant replacements == Vals(st.offsets) + Vals(st.origiOffsets)[..j]
    {
      replacements := replacements + [AsVal(st.origiOffsets[j])];
    }
    for j := 0 to |st.strides|
      invariant replacements == Vals(st.offsets) + Vals(st.origiOffsets) + Vals(st.strides)[..j]
    {
      replacements := replacements + [AsVal(st.strides[j])];
    }
  }

  /** The counter that walks the loop's values, starting after the pointer itself. */
  method ReconcileLoopPtrState(st: PState, args: seq<Val>, iterArgIndex: nat) returns (newState: PState)
    requires Carriable(st) && |args| >= iterArgIndex + 1 + CarriedCount(st)
    ensures newState == Reconcile(st, args[iterArgIndex + 1..iterArgIndex + 1 + CarriedCount(st)])
  {
    var n := st.Rank();
    ghost var mine := args[iterArgIndex + 1..iterArgIndex + 1 + CarriedCount(st)];
    newState := st;
    var cnt := iterArgIndex + 1;
    if n == 0 {
      newState := newState.(scalar := Some(args[cnt]));
      return;
    }
    var offsets: seq<OFR>, origi: seq<OFR>, strides: seq<OFR> := [], [], [];
    for j := 0 to n
      invariant |offsets| == j && cnt == iterArgIndex + 1 + j
      invariant forall i :: 0 <= i < j ==> offsets[i] == V(mine[i])
    {
      offsets := offsets + [V(args[cnt])];
      cnt := cnt + 1;
    }
    for j := 0 to n
      invariant |origi| == j && cnt == iterArgIndex + 1 + n + j
      invariant forall i :: 0 <= i < j ==> origi[i] == V(mine[n + i])
    {
      origi := origi + [V(args[cnt])];
      cnt := cnt + 1;
    }
    for j := 0 to n
      invariant |strides| == j && cnt == iterArgIndex + 1 + 2 * n + j
      invariant forall i :: 0 <= i < j ==> strides[i] == V(mine[2 * n + i])
    {
      strides := strides + [V(args[cnt])];
      cnt := cnt + 1;
    }
    newState := newState.(offsets := offsets, origiOffsets := origi, strides := strides);
    assert newState == Reconcile(st, mine);
  }

  // ------------------------------------------------------------------
  // Carrying a state from one world to the next
  // ------------------------------------------------------------------

  function Leaves(ids: seq<nat>): (r: seq<Val>)
    ensures |r| == |ids| && forall i :: 0 <= i < |ids| ==> r[i] == Leaf(ids[i])
  {
    seq(|ids|, i requires 0 <= i < |ids| => Leaf(ids[i]))
  }

  /**
   `next` holds, under `ids`, the flattened values that `st` has in world `w`. Source and wrap-around bounds are
   not carried: they were computed in front of the loop and keep their value.
   */
  ghost predicate Carries(st: PState, w: World, ids: seq<nat>, next: World)
    requires Carriable(st) && |ids| == CarriedCount(st)
  {
    && (forall j :: 0 <= j < (if st.Rank() == 0 then 1 else |ids|) ==> next.vals(ids[j]) == Eval(Flatten(st)[j], w))
    && (st.source.Some? ==> next.ptr(st.source.value) == w.ptr(st.source.value))
    && forall i :: 0 <= i < st.Rank() ==> EvalO(st.shape[i], next) == EvalO(st.shape[i], w)
  }

  /** The same pointer, element by element, as `e` in world `w`. */
  ghost predicate SameTensor(e: Expr, w: World, e': Expr, next: World) {
    && ShapeOf(e') == ShapeOf(e) && (IsPtr(e) ==> IsPtr(e'))
    && forall x :: InBounds(x, ShapeOf(e)) ==> EvalX(e', next, x) == EvalX(e, w, x)
  }

  ghost predicate SameKind(init: PState, st: PState) {
    && Carriable(init) && Carriable(st)
    && init.source == st.source && init.sizes == st.sizes && init.shape == st.shape
  }

  lemma CarriedDims(init: PState, st: PState, w: World, ids: seq<nat>, next: World, i: nat)
    requires SameKind(init, st) && |ids| == CarriedCount(init) == CarriedCount(st)
    requires Carries(st, w, ids, next) && i < st.Rank()
    ensures var c := Reconcile(init, Leaves(ids));
            EvalO(c.offsets[i], next) == EvalO(st.offsets[i], w) && EvalO(c.strides[i], next) == EvalO(st.strides[i], w)
  {
    var n := st.Rank();
    assert n == |st.sizes| == init.Rank();
    assert Flatten(st)[i] == AsVal(st.offsets[i]);
    assert Flatten(st)[2 * n + i] == AsVal(st.strides[i]);
    OperandValue(st.offsets[i], w, 0);
    OperandValue(st.strides[i], w, 0);
  }

  /** One dimension of the rebuilt state, wrapped or not. */
  lemma CarriedTerm(init: PState, st: PState, w: World, ids: seq<nat>, next: World, i: nat, k: nat)
    requires SameKind(init, st) && |ids| == CarriedCount(init) == CarriedCount(st)
    requires Carries(st, w, ids, next) && i < st.Rank() == init.Rank()
    ensures TermAt(Reconcile(init, Leaves(ids)), i, next, k) == TermAt(st, i, w, k)
  {
    CarriedDims(init, st, w, ids, next, i);
    var c := Reconcile(init, Leaves(ids));
    assert !c.offsets[i].T? && c.shape[i] == st.shape[i];
    DimValDepends(c.offsets[i], c.strides[i], st.offsets[i], st.strides[i], st.shape[i], next, w, k);
  }

  lemma DimValDepends(o: OFR, s: OFR, o': OFR, s': OFR, bound: OFR, next: World, w: World, k: nat)
    requires !o.T? && !o'.T? && EvalO(o, next) == EvalO(o', w) && EvalO(s, next) == EvalO(s', w)
    requires EvalO(bound, next) == EvalO(bound, w)
    ensures DimVal(o, s, bound, next, k) == DimVal(o', s', bound, w, k)
  {
    assert k * EvalO(s, next) == k * EvalO(s', w);
  }

  /** The state rebuilt from carried values denotes, in the next world, what the old state did in its own. */
  lemma CarriedDenotes(init: PState, st: PState, w: World, ids: seq<nat>, next: World, x: seq<nat>)
    requires SameKind(init, st) && |ids| == CarriedCount(init) == CarriedCount(st)
    requires Carries(st, w, ids, next) && |x| == st.Rank()
    ensures var c := Reconcile(init, Leaves(ids));
            c.Valid() && c.Rank() == |x| && Denote(c, next, x) == Denote(st, w, x)
  {
    var c := Reconcile(init, Leaves(ids));
    assert st.Rank() == |st.sizes| == init.Rank();
    assert BaseVal(c, next) == BaseVal(st, w);
    if st.Rank() == 0 {
      assert Flatten(st)[0] == if st.scalar.Some? then st.scalar.value else ConstV(0);
      assert Eval(ConstV(0), w) == 0;
    } else {
      forall i | 0 <= i < |x| ensures Terms(c, next, x)[i] == Terms(st, w, x)[i] {
        CarriedTerm(init, st, w, ids, next, i, x[i]);
      }
      assert Terms(c, next, x) == Terms(st, w, x);
    }
  }

  /**
   A tensor's scalar is not among the carried values, so the one kept from before the loop has to be the one
   computed now: see StaleScalar. The scalar of a pointer is never read.
   */
  ghost predicate ScalarKept(e': Expr, init: PState, next: World, st: PState, w: World) {
    !IsPtr(e') && init.Rank() > 0 && init.scalar.Some? ==>
      st.scalar.Some? && Eval(init.scalar.value, next) == Eval(st.scalar.value, w)
  }

  /** Soundness is carried along. */
  lemma CarrySound(init: PState, e: Expr, st: PState, w: World, ids: seq<nat>, e': Expr, next: World)
    requires SameKind(init, st) && |ids| == CarriedCount(init) == CarriedCount(st)
    requires StateSound(e, st, w, true)
    requires Carries(st, w, ids, next) && SameTensor(e, w, e', next) && ScalarKept(e', init, next, st, w)
    ensures StateSound(e', Reconcile(init, Leaves(ids)), next, true)
  {
    var c := Reconcile(init, Leaves(ids));
    assert st.Rank() == |st.sizes| == init.Rank();
    forall i | 0 <= i < c.Rank()
      ensures !c.strides[i].T? && (c.sizes[i] == 1 ==> !c.offsets[i].T? && EvalO(c.strides[i], next) == 0)
    {
      CarriedDims(init, st, w, ids, next, i);
    }
    forall x | InBounds(x, ShapeOf(e')) ensures EvalX(e', next, x) == Denote(c, next, x) {
      CarriedDenotes(init, st, w, ids, next, x);
    }
  }

  // ------------------------------------------------------------------
  // The loop
  // ------------------------------------------------------------------

  /** A loop that carries one pointer: its initial value, its iter-arg, and the body that computes the next one. */
  datatype PtrLoop = PtrLoop(initExpr: Expr, init: PState, arg: Expr, ids: seq<nat>, body: Expr, gather: bool,
                             known: Known)
  {
    ghost predicate Valid() {
      && Carriable(init) && |ids| == CarriedCount(init) && KnownValid(known)
      && (arg.IterArg? || arg.PtrArg?) && WellTyped(arg) && WellTyped(body)
    }

    /** The state recorded for the iter-arg before the body is analysed. */
    function Carried(): PState
      requires Carriable(init) && |ids| == CarriedCount(init)
    {
      Reconcile(init, Leaves(ids))
    }

    function Inside(): (r: Known)
      requires Carriable(init) && |ids| == CarriedCount(init) && KnownValid(known)
      ensures KnownValid(r)
    {
      known[arg := Carried()]
    }

    function BodyState(): Option<PState>
      requires Carriable(init) && |ids| == CarriedCount(init) && KnownValid(known)
    {
      Visit(body, Config(gather, false), Inside())
    }
  }

  /**
   The worlds of the successive iterations, and one more after the last. In the first the loop holds the
   initial pointer and its flattened state; each body computes the next pointer and the next values.
   */
  ghost predicate IsRun(lp: PtrLoop, before: World, ws: seq<World>)
    requires lp.Valid() && lp.BodyState().Some? && SameKind(lp.init, lp.BodyState().value)
  {
    && |ws| > 0
    && Carries(lp.init, before, lp.ids, ws[0]) && SameTensor(lp.initExpr, before, lp.arg, ws[0])
    && forall k :: 0 < k < |ws| ==> IsStep(lp, ws[k - 1], ws[k])
  }

  ghost predicate IsStep(lp: PtrLoop, w: World, next: World)
    requires lp.Valid() && lp.BodyState().Some? && SameKind(lp.init, lp.BodyState().value)
  {
    && CarriedCount(lp.BodyState().value) == |lp.ids|
    && Carries(lp.BodyState().value, w, lp.ids, next) && SameTensor(lp.body, w, lp.arg, next)
  }

  /** The other recorded states are sound, and the body is within the analysis's limits, in every iteration. */
  ghost predicate BodyWithinLimits(lp: PtrLoop, ws: seq<World>)
    requires lp.Valid()
  {
    forall k :: 0 <= k < |ws| ==>
      KnownSound(lp.known, ws[k]) && Guard(lp.body, Config(lp.gather, false), lp.Inside(), ws[k])
  }

  /** A carried tensor of indices that started with a scalar still has it. */
  ghost predicate ScalarsKept(lp: PtrLoop, before: World, ws: seq<World>)
    requires lp.Valid() && lp.BodyState().Some? && |ws| > 0
  {
    && ScalarKept(lp.arg, lp.init, ws[0], lp.init, before)
    && forall k :: 0 < k < |ws| ==> ScalarKept(lp.arg, lp.init, ws[k], lp.BodyState().value, ws[k - 1])
  }

  /** At every iteration, and after the last, the state rebuilt from the carried values is the original pointer. */
  lemma {:induction false} LoopCarriedSound(lp: PtrLoop, before: World, ws: seq<World>, k: nat)
    requires lp.Valid() && lp.BodyState().Some? && SameKind(lp.init, lp.BodyState().value)
    requires StateSound(lp.initExpr, lp.init, before, true)
    requires IsRun(lp, before, ws) && BodyWithinLimits(lp, ws) && ScalarsKept(lp, before, ws)
    requires k < |ws|
    ensures StateSound(lp.arg, lp.Carried(), ws[k], true)
  {
    if k == 0 {
      CarrySound(lp.init, lp.initExpr, lp.init, before, lp.ids, lp.arg, ws[0]);
    } else {
      LoopCarriedSound(lp, before, ws, k - 1);
      BodySound(lp, ws[k - 1]);
      assert IsStep(lp, ws[k - 1], ws[k]);
      CarrySound(lp.init, lp.body, lp.BodyState().value, ws[k - 1], lp.ids, lp.arg, ws[k]);
    }
  }

  lemma BodySound(lp: PtrLoop, w: World)
    requires lp.Valid() && lp.BodyState().Some? && SameKind(lp.init, lp.BodyState().value)
    requires KnownSound(lp.known, w) && Guard(lp.body, Config(lp.gather, false), lp.Inside(), w)
    requires StateSound(lp.arg, lp.Carried(), w, true)
    ensures StateSound(lp.body, lp.BodyState().value, w, true)
  {
    assert lp.Carried().Structured();
    assert KnownSound(lp.Inside(), w);
    VisitSound(lp.body, Config(lp.gather, false), lp.Inside(), w);
  }

  /** A body that passes the tests of PtrPlain.Checked is within the limits in every iteration. */
  lemma CheckedBody(lp: PtrLoop, ws: seq<World>)
    requires lp.Valid() && Checked(lp.body, Config(lp.gather, false), lp.Inside())
    requires forall k :: 0 <= k < |ws| ==> KnownSound(lp.known, ws[k])
    ensures BodyWithinLimits(lp, ws)
  {
    forall k | 0 <= k < |ws| ensures Guard(lp.body, Config(lp.gather, false), lp.Inside(), ws[k]) {
      CheckedWithin(lp.body, Config(lp.gather, false), lp.Inside(), ws[k]);
    }
  }

  /** So for a loop that carries a pointer nothing has to be said about values, wrapping dimensions included. */
  lemma CheckedLoop(lp: PtrLoop, before: World, ws: seq<World>, k: nat)
    requires lp.Valid() && lp.BodyState().Some? && SameKind(lp.init, lp.BodyState().value)
    requires IsPtr(lp.arg) && Checked(lp.body, Config(lp.gather, false), lp.Inside())
    requires StateSound(lp.initExpr, lp.init, before, true)
    requires IsRun(lp, before, ws) && forall k :: 0 <= k < |ws| ==> KnownSound(lp.known, ws[k])
    requires k < |ws|
    ensures StateSound(lp.arg, lp.Carried(), ws[k], true)
  {
    CheckedBody(lp, ws);
    LoopCarriedSound(lp, before, ws, k);
  }

  /** A body without remainders that advances a carried pointer passes them. */
  lemma PlainBody(lp: PtrLoop)
    requires lp.Valid() && RemainderFree(lp.body) && KnownUnwrapped(lp.known[lp.arg := lp.init])
    ensures Checked(lp.body, Config(lp.gather, false), lp.Inside())
  {
    InsideUnwrapped(lp);
    PlainChecked(lp.body, Config(lp.gather, false), lp.Inside());
  }

  lemma PlainLoop(lp: PtrLoop, before: World, ws: seq<World>, k: nat)
    requires lp.Valid() && lp.BodyState().Some? && SameKind(lp.init, lp.BodyState().value)
    requires IsPtr(lp.arg) && RemainderFree(lp.body) && KnownUnwrapped(lp.known[lp.arg := lp.init])
    requires StateSound(lp.initExpr, lp.init, before, true)
    requires IsRun(lp, before, ws) && forall k :: 0 <= k < |ws| ==> KnownSound(lp.known, ws[k])
    requires k < |ws|
    ensures StateSound(lp.arg, lp.Carried(), ws[k], true)
  {
    PlainBody(lp);
    CheckedLoop(lp, before, ws, k);
  }

  /**
   A loop that advances its pointer: the body is decoded exactly when the offsets it adds are, and always to a state
   of the kind that is carried, with the carried offsets as original ones.
   */
  lemma AdvanceAccepted(lp: PtrLoop, off: Expr)
    requires lp.Valid() && lp.body == AddPtr(lp.arg, off) && lp.body !in lp.Inside() && Structural(off)
    requires KnownFormed(lp.Inside())
    ensures lp.BodyState().Some? <==> Decodable(off, lp.Inside())
    ensures lp.BodyState().Some? ==>
              SameKind(lp.init, lp.BodyState().value) && lp.BodyState().value.origiOffsets == lp.Carried().offsets
  {
    assert Decodable(lp.arg, lp.Inside()) && (Decodable(lp.body, lp.Inside()) <==> Decodable(off, lp.Inside()));
    VisitAccepted(lp.body, Config(lp.gather, false), lp.Inside());
    VisitAccepted(off, Config(lp.gather, false), lp.Inside());
    if lp.BodyState().Some? {
      var c, o, st := lp.Carried(), Visit(off, Config(lp.gather, false), lp.Inside()).value, lp.BodyState().value;
      SumAccepted(c, o);
      assert st.shape == c.shape;
    }
  }

  lemma InsideUnwrapped(lp: PtrLoop)
    requires lp.Valid() && KnownUnwrapped(lp.known[lp.arg := lp.init])
    ensures KnownUnwrapped(lp.Inside())
  {
    forall e | e in lp.Inside() ensures Unwrapped(lp.Inside()[e]) {
      assert e in lp.known[lp.arg := lp.init];
      assert lp.Carried().shape == lp.init.shape;
      assert Unwrapped(lp.known[lp.arg := lp.init][e]);
    }
  }

  /** The loop's results are the values it carried last; source, bounds and scalar are as they were. */
  ghost predicate Returns(lp: PtrLoop, last: World, results: seq<nat>, res: Expr, after: World)
    requires lp.Valid()
  {
    && |results| == |lp.ids| && SameTensor(lp.arg, last, res, after)
    && (forall j :: 0 <= j < |results| ==> after.vals(results[j]) == last.vals(lp.ids[j]))
    && (lp.init.source.Some? ==> after.ptr(lp.init.source.value) == last.ptr(lp.init.source.value))
    && (forall i :: 0 <= i < lp.init.Rank() ==> EvalO(lp.init.shape[i], after) == EvalO(lp.init.shape[i], last))
    && ScalarKept(res, lp.init, after, lp.init, last)
  }

  /** The state given to the loop's result denotes the pointer the loop leaves with, for every trip count. */
  lemma LoopResultSound(lp: PtrLoop, before: World, ws: seq<World>, results: seq<nat>, res: Expr, after: World)
    requires lp.Valid() && lp.BodyState().Some? && SameKind(lp.init, lp.BodyState().value)
    requires StateSound(lp.initExpr, lp.init, before, true)
    requires IsRun(lp, before, ws) && BodyWithinLimits(lp, ws) && ScalarsKept(lp, before, ws)
    requires Returns(lp, ws[|ws| - 1], results, res, after)
    ensures StateSound(res, Reconcile(lp.init, Leaves(results)), after, true)
  {
    LoopCarriedSound(lp, before, ws, |ws| - 1);
    ResultCarries(lp, ws[|ws| - 1], results, res, after);
    CarrySound(lp.init, lp.arg, lp.Carried(), ws[|ws| - 1], results, res, after);
  }

  /** For a pointer and a body that passes the tests, without a condition on values. */
  lemma CheckedLoopResult(lp: PtrLoop, before: World, ws: seq<World>, results: seq<nat>, res: Expr, after: World)
    requires lp.Valid() && lp.BodyState().Some? && SameKind(lp.init, lp.BodyState().value)
    requires IsPtr(lp.arg) && Checked(lp.body, Config(lp.gather, false), lp.Inside())
    requires StateSound(lp.initExpr, lp.init, before, true)
    requires IsRun(lp, before, ws) && forall k :: 0 <= k < |ws| ==> KnownSound(lp.known, ws[k])
    requires Returns(lp, ws[|ws| - 1], results, res, after)
    ensures StateSound(res, Reconcile(lp.init, Leaves(results)), after, true)
  {
    CheckedBody(lp, ws);
    LoopResultSound(lp, before, ws, results, res, after);
  }

  lemma ResultCarries(lp: PtrLoop, last: World, results: seq<nat>, res: Expr, after: World)
    requires lp.Valid() && Returns(lp, last, results, res, after)
    ensures SameKind(lp.init, lp.Carried()) && CarriedCount(lp.Carried()) == |results|
    ensures Carries(lp.Carried(), last, results, after) && ScalarKept(res, lp.init, after, lp.Carried(), last)
  {
    var c := lp.Carried();
    if lp.init.Rank() > 0 { ReconciledScalar(lp.init, lp.ids); }
    forall j | 0 <= j < |results| && (c.Rank() == 0 ==> j == 0) ensures Flatten(c)[j] == Leaf(lp.ids[j]) {
    }
  }

  /**
   A tensor of indices may carry a scalar, which no loop value replaces. Rebuilt in the next world it still
   stands for a constant tensor exactly when the scalar kept from before the loop is the one computed now.
   */
  lemma StaleScalar(init: PState, e: Expr, st: PState, w: World, ids: seq<nat>, e': Expr, next: World)
    requires SameKind(init, st) && |ids| == CarriedCount(init) == CarriedCount(st)
    requires init.Rank() > 0 && init.scalar.Some? && st.scalar.Some? && WellTyped(e)
    requires StateSound(e, st, w, true) && ScalarSound(e, st, w)
    requires Carries(st, w, ids, next) && SameTensor(e, w, e', next)
    ensures ScalarSound(e', Reconcile(init, Leaves(ids)), next)
        <==> Eval(init.scalar.value, next) == Eval(st.scalar.value, w)
  {
    var c := Reconcile(init, Leaves(ids));
    ReconciledScalar(init, ids);
    var s, t, b := Eval(init.scalar.value, next), Eval(st.scalar.value, w), BaseVal(st, w);
    assert BaseVal(c, next) == b;
    ShapePositive(e);
    var zero := seq(|ShapeOf(e)|, i => 0);
    assert InBounds(zero, ShapeOf(e));
    forall x | InBounds(x, ShapeOf(e)) ensures EvalX(e', next, x) == b + t {
    }
  }

  lemma ReconciledScalar(init: PState, ids: seq<nat>)
    requires Carriable(init) && |ids| == CarriedCount(init) && init.Rank() > 0
    ensures Reconcile(init, Leaves(ids)).scalar == init.scalar && Reconcile(init, Leaves(ids)).source == init.source
  {
  }
}
