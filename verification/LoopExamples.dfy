/**
 A loop that is accepted and whose tensor of indices is decoded to another value: the input for
 LoopPointers.StaleScalar (lib/AnalysisStructured/PtrAnalysis.cpp).
 */
module LoopExamples {
  import opened Wrappers
  import opened Ir
  import opened Folding
  import opened PtrStates
  import opened PtrSoundness
  import opened PtrPlain
  import opened LoopPointers

  // idx = splat(0)
  // for ...: ... range(0, 2) * idx ...; idx = idx + splat(1)
  const PAIR: seq<nat> := [2]
  const IDX := IterArg(0, PAIR, false)
  const COUNTER :=
    PtrLoop(ConstSplat(0, PAIR), ConstSplatState(0, PAIR), IDX, [1, 2, 3], Add(IDX, ConstSplat(1, PAIR)), false, map[])
  const USE := Mul(Range(0, 2), IDX)

  lemma CounterInit(init: PState)
    requires init == ConstSplatState(0, PAIR)
    ensures Carriable(init) && CarriedCount(init) == 3 && init.Rank() == 1
    ensures init.offsets == [V(ConstV(0))] && init.strides == [Attr(0)] && init.shape == [Attr(0)]
    ensures init.sizes == PAIR && init.source.None? && init.scalar == Some(ConstV(0))
    ensures Flatten(init) == [ConstV(0), ConstV(0), AsVal(Attr(0))]
  {
  }

  lemma CounterValid()
    ensures COUNTER.Valid() && Carriable(COUNTER.init) && |COUNTER.ids| == CarriedCount(COUNTER.init)
  {
    CounterInit(COUNTER.init);
  }

  /** In the body the scalar of the initial state is still there. */
  lemma CounterCarried() returns (st: PState)
    ensures COUNTER.Valid() && st == COUNTER.Carried() && st.Valid()
    ensures st.offsets == [V(Leaf(1))] && st.strides == [V(Leaf(3))] && st.shape == [Attr(0)]
    ensures st.sizes == PAIR && st.source.None? && st.scalar == Some(ConstV(0))
  {
    CounterValid();
    CounterInit(COUNTER.init);
    st := COUNTER.Carried();
  }

  lemma CounterBody() returns (st: PState)
    ensures COUNTER.Valid() && COUNTER.BodyState() == Some(st) && SameKind(COUNTER.init, st)
    ensures st.Rank() == 1 && Flatten(st) == [AddI(Leaf(1), ConstV(1)), AddI(Leaf(1), ConstV(1)), Leaf(3)]
  {
    var l := CounterCarried();
    CounterInit(COUNTER.init);
    st := CounterSum(l, ConstSplatState(1, PAIR));
    CounterVisit(l, ConstSplatState(1, PAIR), COUNTER.Inside());
  }

  lemma CounterVisit(l: PState, r: PState, known: Known)
    requires known == map[IDX := l] && l.Valid() && r == ConstSplatState(1, PAIR) && Unwrapped(l)
    ensures Visit(Add(IDX, ConstSplat(1, PAIR)), PLAIN, known) == WithOffsets(AddState(l, r, false))
  {
    assert Add(IDX, ConstSplat(1, PAIR)) !in known && ConstSplat(1, PAIR) !in known;
    assert Visit(IDX, PLAIN, known) == Some(l) && Visit(ConstSplat(1, PAIR), PLAIN, known) == Some(r);
    assert !l.HasModulo() && !r.HasModulo();
    NothingGathered(IDX, ConstSplat(1, PAIR), l, r, PLAIN);
  }

  lemma CounterSum(l: PState, r: PState) returns (st: PState)
    requires l.Valid() && l.offsets == [V(Leaf(1))] && l.strides == [V(Leaf(3))] && l.shape == [Attr(0)]
    requires l.sizes == PAIR && l.source.None? && l.scalar == Some(ConstV(0)) && r == ConstSplatState(1, PAIR)
    ensures WithOffsets(AddState(l, r, false)) == Some(st) && st.Valid() && st.sizes == PAIR && st.source.None?
    ensures st.shape == [Attr(0)] && st.strides == [V(Leaf(3))]
    ensures st.offsets == st.origiOffsets == [V(AddI(Leaf(1), ConstV(1)))]
  {
    assert !l.HasModulo() && !r.HasModulo();
    AddShapesUnwrapped(l, r, 0);
    st := WithOffsets(AddState(l, r, false)).value;
    assert st.shape == [Attr(0)];
  }

  /** In iteration k the tensor holds k. */
  lemma {:induction false} CounterCounts(before: World, ws: seq<World>, k: nat, x: seq<nat>)
    requires COUNTER.Valid() && COUNTER.BodyState().Some? && SameKind(COUNTER.init, COUNTER.BodyState().value)
    requires IsRun(COUNTER, before, ws) && k < |ws| && InBounds(x, PAIR)
    ensures EvalX(IDX, ws[k], x) == k
  {
    if k == 0 {
      StartsAtZero(before, ws[0], x);
    } else {
      CounterCounts(before, ws, k - 1, x);
      assert IsStep(COUNTER, ws[k - 1], ws[k]);
      CountsUp(ws[k - 1], ws[k], x);
    }
  }

  lemma StartsAtZero(before: World, w: World, x: seq<nat>)
    requires SameTensor(ConstSplat(0, PAIR), before, IDX, w) && InBounds(x, PAIR)
    ensures EvalX(IDX, w, x) == 0
  {
    assert EvalX(ConstSplat(0, PAIR), before, x) == 0;
  }

  lemma CountsUp(w: World, next: World, x: seq<nat>)
    requires SameTensor(Add(IDX, ConstSplat(1, PAIR)), w, IDX, next) && InBounds(x, PAIR)
    ensures EvalX(IDX, next, x) == EvalX(IDX, w, x) + 1
  {
    assert EvalX(Add(IDX, ConstSplat(1, PAIR)), w, x) == EvalX(IDX, w, x) + 1;
  }

  /** The product is decoded to zero in every iteration: the kept scalar is that of the first one. */
  lemma StaleScalarBreaks(before: World, ws: seq<World>, k: nat)
    requires COUNTER.Valid() && COUNTER.BodyState().Some? && SameKind(COUNTER.init, COUNTER.BodyState().value)
    requires IsRun(COUNTER, before, ws) && k < |ws|
    ensures WellTyped(USE) && EvalX(USE, ws[k], [1]) == k
    ensures var st := Visit(USE, PLAIN, COUNTER.Inside());
            st.Some? && st.value.Structured() && st.value.Rank() == 1 && Denote(st.value, ws[k], [1]) == 0
  {
    CounterCounts(before, ws, k, [1]);
    UseElement(ws[k], k);
    UseDecoded(ws[k]);
  }

  lemma UseElement(w: World, k: int)
    requires EvalX(IDX, w, [1]) == k
    ensures WellTyped(USE) && EvalX(USE, w, [1]) == k
  {
    assert EvalX(USE, w, [1]) == EvalX(Range(0, 2), w, [1]) * EvalX(IDX, w, [1]) == 1 * k;
  }

  lemma UseDecoded(w: World)
    ensures COUNTER.Valid()
    ensures var st := Visit(USE, PLAIN, COUNTER.Inside());
            st.Some? && st.value.Structured() && st.value.Rank() == 1 && Denote(st.value, w, [1]) == 0
  {
    var l := RangeState(0, 2);
    var r := CounterCarried();
    assert !l.HasModulo() && !r.HasModulo();
    NothingGathered(Range(0, 2), IDX, l, r, PLAIN);
    UseVisit(l, r, COUNTER.Inside());
    ZeroTimes(l, r, w);
  }

  lemma UseVisit(l: PState, r: PState, known: Known)
    requires known == map[IDX := r] && r.Valid() && l == RangeState(0, 2)
    requires GatherBoth(Range(0, 2), IDX, l, r, PLAIN) == Some((l, r))
    ensures Visit(USE, PLAIN, known) == WithOffsets(MulState(l, r, false))
  {
    assert USE !in known && Range(0, 2) !in known;
    assert Visit(Range(0, 2), PLAIN, known) == Some(l) && Visit(IDX, PLAIN, known) == Some(r);
  }

  lemma ZeroTimes(l: PState, r: PState, w: World)
    requires l == RangeState(0, 2) && r.Valid() && r.Rank() == 1 && !r.HasModulo()
    requires r.source.None? && r.scalar == Some(ConstV(0))
    ensures var st := WithOffsets(MulState(l, r, false));
            st.Some? && st.value.Structured() && st.value.Rank() == 1 && Denote(st.value, w, [1]) == 0
  {
    var st := WithOffsets(MulState(l, r, false)).value;
    var d := MulDim(l.offsets[0], l.strides[0], l.shape[0], ConstV(0), false);
    assert st.offsets[0] == d.0 && st.strides[0] == d.1 && st.shape[0] == d.2;
    assert Eval(ConstV(0), w) == 0;
    SumOne(Terms(st, w, [1]), 0);
  }

  function CounterWorld(k: int): World { World(id => if id == 3 then 0 else k, (id, x) => k, id => 0) }

  lemma CounterStep(st: PState, k: int)
    requires Carriable(st) && CarriedCount(st) == 3 && st.Rank() == 1 && st.source.None? && st.shape == [Attr(0)]
    requires Flatten(st) == [AddI(Leaf(1), ConstV(1)), AddI(Leaf(1), ConstV(1)), Leaf(3)]
    ensures Carries(st, CounterWorld(k), [1, 2, 3], CounterWorld(k + 1))
    ensures SameTensor(Add(IDX, ConstSplat(1, PAIR)), CounterWorld(k), IDX, CounterWorld(k + 1))
  {
    var w, next := CounterWorld(k), CounterWorld(k + 1);
    assert Eval(Leaf(1), w) == k && Eval(ConstV(1), w) == 1 && Eval(Leaf(3), w) == 0;
    assert next.vals(1) == next.vals(2) == k + 1 && next.vals(3) == 0;
    forall x | InBounds(x, PAIR) ensures EvalX(IDX, next, x) == EvalX(Add(IDX, ConstSplat(1, PAIR)), w, x) {
      assert EvalX(IDX, w, x) == k && EvalX(ConstSplat(1, PAIR), w, x) == 1;
    }
  }

  lemma CounterStart(init: PState)
    requires init == ConstSplatState(0, PAIR)
    ensures Carriable(init) && CarriedCount(init) == 3
    ensures Carries(init, CounterWorld(0), [1, 2, 3], CounterWorld(0))
    ensures SameTensor(ConstSplat(0, PAIR), CounterWorld(0), IDX, CounterWorld(0))
  {
    CounterInit(init);
    assert Eval(ConstV(0), CounterWorld(0)) == 0;
  }

  /** Such runs exist, for every number of iterations. */
  lemma CounterRuns(n: nat) returns (before: World, ws: seq<World>)
    requires n > 0
    ensures COUNTER.Valid() && COUNTER.BodyState().Some? && SameKind(COUNTER.init, COUNTER.BodyState().value)
    ensures |ws| == n && IsRun(COUNTER, before, ws)
  {
    var st := CounterBody();
    CounterStart(COUNTER.init);
    before := CounterWorld(0);
    ws := seq(n, k => CounterWorld(k));
    forall k | 0 < k < n ensures IsStep(COUNTER, ws[k - 1], ws[k]) {
      CounterStep(st, k - 1);
    }
  }
}
