/**
 Scope safety of the structured lowering (language/smt_rvisa/codegen.py): whatever the program, no emitted
 operation uses a value of a loop that has ended or of a sibling loop, and no value is defined twice, in any region.
 */
module ScfScope {
  import opened Wrappers
  import opened KernelLang
  import opened Ssa
  import opened ScfLowering

  function Range(first: Value, n: nat): (r: set<Value>)
    ensures forall v :: v in r <==> first <= v < first + n
  {
    if n == 0 then {} else Range(first, n - 1) + {first + n - 1}
  }

  /** The values an operation makes visible to the operations behind it. */
  function Defines(op: Op): set<Value> {
    match op
    case Simple(i) => i.Defs()
    case ScfFor(_, _, _, inits, _, _, _, results) => Range(results, |inits|)
  }

  function DefinesAll(ops: seq<Op>): set<Value> {
    if ops == [] then {} else Defines(ops[0]) + DefinesAll(ops[1..])
  }

  // All the values that are defined, inside the regions of loops too, in the order of the text.
  function Numbers(op: Op): seq<Value> {
    match op
    case Simple(i) => if i.IStore? || i.IVStore? then [] else [i.dst]
    case ScfFor(_, _, _, inits, iv, body, _, results) =>
      Consecutive(iv, 1 + |inits|) + NumbersAll(body) + Consecutive(results, |inits|)
  }

  function NumbersAll(ops: seq<Op>): seq<Value> {
    if ops == [] then [] else Numbers(ops[0]) + NumbersAll(ops[1..])
  }

  function Consecutive(first: Value, n: nat): (r: seq<Value>)
    ensures |r| == n && forall i :: 0 <= i < n ==> r[i] == first + i
  {
    seq(n, i => first + i)
  }

  /** Values from `next` up to `next'`, each one larger than those before it: no two are the same. */
  predicate InOrder(vs: seq<Value>, next: Value, next': Value) {
    && (forall i :: 0 <= i < |vs| ==> next <= vs[i] < next')
    && (forall i, j :: 0 <= i < j < |vs| ==> vs[i] < vs[j])
  }

  lemma InOrderThen(a: seq<Value>, b: seq<Value>, n0: Value, n1: Value, n2: Value)
    requires InOrder(a, n0, n1) && InOrder(b, n1, n2) && n0 <= n1 <= n2
    ensures InOrder(a + b, n0, n2)
  {
  }

  /** Every operand is visible where it is used: defined earlier in its region or in an enclosing one. */
  predicate WellScoped(ops: seq<Op>, visible: set<Value>)
    decreases ops, 0
  {
    ops == [] || (OpScoped(ops[0], visible) && WellScoped(ops[1..], visible + Defines(ops[0])))
  }

  predicate OpScoped(op: Op, visible: set<Value>)
    decreases op, 1
  {
    Disjoint(Defines(op), visible) &&
    match op
    case Simple(i) => i.Uses() <= visible
    case ScfFor(lb, ub, step, inits, iv, body, outs, _) =>
      var args := Range(iv, 1 + |inits|);
      && lb in visible && ub in visible && step in visible && AllIn(inits, visible)
      && Disjoint(args, visible) && WellScoped(body, visible + args)
      && |outs| == |inits| && AllIn(outs, visible + args + DefinesAll(body))
  }

  predicate Disjoint(a: set<Value>, b: set<Value>) {
    forall v :: v in a ==> v !in b
  }

  predicate AllIn(vs: seq<Value>, s: set<Value>) {
    forall i :: 0 <= i < |vs| ==> vs[i] in s
  }

  lemma {:induction false} ScopedAppend(a: seq<Op>, b: seq<Op>, visible: set<Value>)
    ensures DefinesAll(a + b) == DefinesAll(a) + DefinesAll(b) && NumbersAll(a + b) == NumbersAll(a) + NumbersAll(b)
    ensures WellScoped(a + b, visible) <==> WellScoped(a, visible) && WellScoped(b, visible + DefinesAll(a))
  {
    if a == [] {
      assert a + b == b && visible + {} == visible;
    } else {
      assert (a + b)[1..] == a[1..] + b;
      ScopedAppend(a[1..], b, visible + Defines(a[0]));
      assert visible + Defines(a[0]) + DefinesAll(a[1..]) == visible + DefinesAll(a);
    }
  }

  // ------------------------------------------------------------------
  // The builder's state
  // ------------------------------------------------------------------

  /** Everything the builder remembers, the active valid length included, is visible. */
  ghost predicate Live(g: Gen, visible: set<Value>) {
    && (forall v :: v in visible ==> v < g.next)
    && (forall x :: x in g.scope.env ==> g.scope.env[x] in visible)
    && (g.scope.valid.Some? ==> g.scope.valid.value in visible)
  }

  ghost predicate LiveScope(sc: Scope, next: Value, visible: set<Value>) { Live(Gen(sc, next), visible) }

  /** Straight-line code with the numbers from `next` to `next'`. */
  ghost predicate CodeOk(code: seq<Ins>, next: Value, next': Value, visible: set<Value>) {
    && next <= next' && WellScoped(Lift(code), visible)
    && (forall v :: v in DefinesAll(Lift(code)) ==> next <= v < next')
    && InOrder(NumbersAll(Lift(code)), next, next')
  }

  lemma CodeAppend(a: seq<Ins>, b: seq<Ins>, n0: Value, n1: Value, n2: Value, visible: set<Value>)
    requires CodeOk(a, n0, n1, visible) && CodeOk(b, n1, n2, visible + DefinesAll(Lift(a)))
    ensures CodeOk(a + b, n0, n2, visible)
    ensures DefinesAll(Lift(a + b)) == DefinesAll(Lift(a)) + DefinesAll(Lift(b))
  {
    assert Lift(a + b) == Lift(a) + Lift(b);
    ScopedAppend(Lift(a), Lift(b), visible);
    InOrderThen(NumbersAll(Lift(a)), NumbersAll(Lift(b)), n0, n1, n2);
  }

  lemma OneIns(i: Ins, next: Value, next': Value, visible: set<Value>)
    requires i.Uses() <= visible && (forall v :: v in visible ==> v < next)
    requires next <= next' && forall v :: v in i.Defs() ==> next <= v < next'
    ensures CodeOk([i], next, next', visible) && DefinesAll(Lift([i])) == i.Defs()
  {
    assert Lift([i]) == [Simple(i)];
    OneOp(Simple(i), visible);
    InsNumbers(i, next, next');
  }

  lemma InsNumbers(i: Ins, next: Value, next': Value)
    requires forall v :: v in i.Defs() ==> next <= v < next'
    ensures InOrder(Numbers(Simple(i)), next, next')
  {
    if !i.IStore? && !i.IVStore? { assert i.dst in i.Defs(); }
  }

  /** Code that leaves `vals`, translated under a scope that stays live. */
  ghost predicate CodeLive(code: seq<Ins>, vals: set<Value>, sc: Scope, n0: Value, n1: Value, visible: set<Value>) {
    && CodeOk(code, n0, n1, visible) && vals <= visible + DefinesAll(Lift(code))
    && LiveScope(sc, n1, visible + DefinesAll(Lift(code)))
  }

  lemma CodeThen(a: seq<Ins>, av: set<Value>, b: seq<Ins>, bv: set<Value>, sc: Scope, n0: Value, n1: Value, n2: Value,
                 visible: set<Value>)
    requires CodeLive(a, av, sc, n0, n1, visible) && CodeLive(b, bv, sc, n1, n2, visible + DefinesAll(Lift(a)))
    ensures CodeLive(a + b, av + bv, sc, n0, n2, visible)
  {
    CodeAppend(a, b, n0, n1, n2, visible);
    assert visible + DefinesAll(Lift(a)) + DefinesAll(Lift(b)) == visible + DefinesAll(Lift(a + b));
  }

  /** One more instruction that defines no more than the next number. */
  lemma AddIns(code: seq<Ins>, i: Ins, sc: Scope, n0: Value, n1: Value, visible: set<Value>)
    requires CodeLive(code, i.Uses(), sc, n0, n1, visible) && i.Defs() <= {n1}
    ensures CodeLive(code + [i], i.Defs(), sc, n0, n1 + 1, visible)
    ensures DefinesAll(Lift(code + [i])) == DefinesAll(Lift(code)) + i.Defs()
  {
    OneIns(i, n1, n1 + 1, visible + DefinesAll(Lift(code)));
    CodeAppend(code, [i], n0, n1, n1 + 1, visible);
  }

  lemma SingleIns(i: Ins, sc: Scope, next: Value, visible: set<Value>)
    requires LiveScope(sc, next, visible) && i.Uses() <= visible && i.Defs() <= {next}
    ensures CodeLive([i], i.Defs(), sc, next, next + 1, visible)
  {
    OneIns(i, next, next + 1, visible);
  }

  lemma {:induction false} ExprScoped(e: Expr, sc: Scope, next: Value, visible: set<Value>)
    requires LiveScope(sc, next, visible) && GenExpr(e, sc, next).Some?
    ensures var c := GenExpr(e, sc, next).value;
            CodeLive(c.ins, {c.val} + ValidOf(sc), sc, next, c.next, visible)
  {
    var c := GenExpr(e, sc, next).value;
    match e
    case Var(x) =>
      if x !in sc.env { SingleIns(c.ins[0], sc, next, visible); }
    case Const(n) => SingleIns(c.ins[0], sc, next, visible);
    case Bin(op, l, r) =>
      ExprScoped(l, sc, next, visible);
      var a := GenExpr(l, sc, next).value;
      ExprScoped(r, sc, a.next, visible + DefinesAll(Lift(a.ins)));
      BinScoped(op, l, r, sc, next, visible);
    case Load(buf, idx) =>
      var i := GenExpr(idx, sc, next).value;
      ExprScoped(idx, sc, next, visible);
      AddIns(i.ins, ILoad(i.next, buf, i.val), sc, next, i.next, visible);
    case VLoad(buf, idx) =>
      ExprScoped(idx, sc, next, visible);
      VLoadScoped(buf, idx, sc, next, visible);
  }

  lemma BinScoped(op: BinOp, l: Expr, r: Expr, sc: Scope, next: Value, visible: set<Value>)
    requires GenExpr(Bin(op, l, r), sc, next).Some?
    requires var a := GenExpr(l, sc, next).value;
             var b := GenExpr(r, sc, a.next).value;
             && CodeLive(a.ins, {a.val} + ValidOf(sc), sc, next, a.next, visible)
             && CodeLive(b.ins, {b.val} + ValidOf(sc), sc, a.next, b.next, visible + DefinesAll(Lift(a.ins)))
    ensures var c := GenExpr(Bin(op, l, r), sc, next).value;
            CodeLive(c.ins, {c.val} + ValidOf(sc), sc, next, c.next, visible)
  {
    var a := GenExpr(l, sc, next).value;
    var b := GenExpr(r, sc, a.next).value;
    CodeThen(a.ins, {a.val} + ValidOf(sc), b.ins, {b.val} + ValidOf(sc), sc, next, a.next, b.next, visible);
    AddIns(a.ins + b.ins, IBin(b.next, op, a.val, b.val), sc, next, b.next, visible);
  }

  lemma VLoadScoped(buf: string, idx: Expr, sc: Scope, next: Value, visible: set<Value>)
    requires GenExpr(VLoad(buf, idx), sc, next).Some?
    requires CodeLive(GenExpr(idx, sc, next).value.ins, {GenExpr(idx, sc, next).value.val} + ValidOf(sc), sc, next,
                      GenExpr(idx, sc, next).value.next, visible)
    ensures var c := GenExpr(VLoad(buf, idx), sc, next).value;
            CodeLive(c.ins, {c.val} + ValidOf(sc), sc, next, c.next, visible)
  {
    var i := GenExpr(idx, sc, next).value;
    AddIns(i.ins, IVLoad(i.next, buf, i.val, sc.vl.value, sc.valid), sc, next, i.next, visible);
  }

  function ValidOf(sc: Scope): set<Value> { if sc.valid.Some? then {sc.valid.value} else {} }

  // ------------------------------------------------------------------
  // Statements
  // ------------------------------------------------------------------

  /** Emitted operations that are well scoped and leave a live state. */
  ghost predicate Safe(ops: seq<Op>, g: Gen, g': Gen, visible: set<Value>) {
    && WellScoped(ops, visible) && Live(g', visible + DefinesAll(ops))
    && g.next <= g'.next && (forall v :: v in DefinesAll(ops) ==> g.next <= v)
    && InOrder(NumbersAll(ops), g.next, g'.next)
  }

  lemma SafeAppend(a: seq<Op>, b: seq<Op>, g: Gen, g1: Gen, g2: Gen, visible: set<Value>)
    requires Safe(a, g, g1, visible) && Safe(b, g1, g2, visible + DefinesAll(a))
    ensures Safe(a + b, g, g2, visible)
  {
    ScopedAppend(a, b, visible);
    InOrderThen(NumbersAll(a), NumbersAll(b), g.next, g1.next, g2.next);
    assert visible + DefinesAll(a) + DefinesAll(b) == visible + DefinesAll(a + b);
  }

  lemma AssignScoped(x: string, e: Expr, g: Gen, visible: set<Value>)
    requires Live(g, visible) && GenStmt(Assign(x, e), g).Some?
    ensures var out := GenStmt(Assign(x, e), g).value; Safe(out.ops, g, out.g, visible)
  {
    ExprScoped(e, g.scope, g.next, visible);
  }

  lemma PairScoped(l: Expr, r: Expr, sc: Scope, next: Value, visible: set<Value>)
    requires LiveScope(sc, next, visible)
    requires GenExpr(l, sc, next).Some? && GenExpr(r, sc, GenExpr(l, sc, next).value.next).Some?
    ensures var a := GenExpr(l, sc, next).value;
            var b := GenExpr(r, sc, a.next).value;
            CodeLive(a.ins + b.ins, {a.val, b.val} + ValidOf(sc), sc, next, b.next, visible)
  {
    var a := GenExpr(l, sc, next).value;
    var b := GenExpr(r, sc, a.next).value;
    ExprScoped(l, sc, next, visible);
    ExprScoped(r, sc, a.next, visible + DefinesAll(Lift(a.ins)));
    CodeThen(a.ins, {a.val} + ValidOf(sc), b.ins, {b.val} + ValidOf(sc), sc, next, a.next, b.next, visible);
    assert {a.val} + ValidOf(sc) + ({b.val} + ValidOf(sc)) == {a.val, b.val} + ValidOf(sc);
  }

  /** An instruction without a result after some code. */
  lemma AddStore(code: seq<Ins>, i: Ins, sc: Scope, n0: Value, n1: Value, visible: set<Value>)
    requires CodeLive(code, i.Uses(), sc, n0, n1, visible) && i.Defs() == {}
    ensures Safe(Lift(code + [i]), Gen(sc, n0), Gen(sc, n1), visible)
  {
    OneIns(i, n1, n1, visible + DefinesAll(Lift(code)));
    CodeAppend(code, [i], n0, n1, n1, visible);
    assert DefinesAll(Lift(code)) + {} == DefinesAll(Lift(code));
  }

  lemma StoreScoped(buf: string, idx: Expr, val: Expr, g: Gen, visible: set<Value>)
    requires Live(g, visible) && GenStore(buf, idx, val, g).Some?
    ensures var out := GenStore(buf, idx, val, g).value; Safe(out.ops, g, out.g, visible)
  {
    var i := GenExpr(idx, g.scope, g.next).value;
    var v := GenExpr(val, g.scope, i.next).value;
    PairScoped(idx, val, g.scope, g.next, visible);
    AddStore(i.ins + v.ins, IStore(buf, i.val, v.val), g.scope, g.next, v.next, visible);
  }

  lemma VStoreScoped(buf: string, idx: Expr, val: Expr, g: Gen, visible: set<Value>)
    requires Live(g, visible) && GenVStore(buf, idx, val, g).Some?
    ensures var out := GenVStore(buf, idx, val, g).value; Safe(out.ops, g, out.g, visible)
  {
    var v := GenExpr(val, g.scope, g.next).value;
    var i := GenExpr(idx, g.scope, v.next).value;
    PairScoped(val, idx, g.scope, g.next, visible);
    AddStore(v.ins + i.ins, IVStore(buf, i.val, v.val, g.scope.valid), g.scope, g.next, i.next, visible);
  }

  lemma VconfigScoped(target: Option<string>, avl: Expr, lmul: nat, g: Gen, visible: set<Value>)
    requires Live(g, visible) && GenVconfig(target, avl, lmul, g).Some?
    ensures var out := GenVconfig(target, avl, lmul, g).value; Safe(out.ops, g, out.g, visible)
  {
    if !(avl.Const? && (avl.n >= VlMax(1) || avl.n < 0)) {
      MinScoped(avl, VlMax(lmul), Gen(g.scope.(vl := Some(VlMax(lmul))), g.next), visible);
    }
  }

  /** The active valid length: the smaller of the vector length and the requested one. */
  lemma MinScoped(avl: Expr, vl: int, g: Gen, visible: set<Value>)
    requires Live(g, visible) && GenExpr(avl, g.scope, g.next).Some?
    ensures var a := GenExpr(avl, g.scope, g.next).value;
            CodeLive(a.ins + [IConst(a.next, vl), IMinSI(a.next + 1, a.next, a.val)], {a.next + 1}, g.scope,
                     g.next, a.next + 2, visible)
  {
    var a := GenExpr(avl, g.scope, g.next).value;
    var c, m := a.next, a.next + 1;
    ExprScoped(avl, g.scope, g.next, visible);
    SingleIns(IConst(c, vl), g.scope, c, visible + DefinesAll(Lift(a.ins)));
    CodeThen(a.ins, {a.val} + ValidOf(g.scope), [IConst(c, vl)], {c}, g.scope, g.next, c, m, visible);
    AddIns(a.ins + [IConst(c, vl)], IMinSI(m, c, a.val), g.scope, g.next, m, visible);
    assert a.ins + [IConst(c, vl), IMinSI(m, c, a.val)] == a.ins + [IConst(c, vl)] + [IMinSI(m, c, a.val)];
  }

  lemma BoundsScoped(lb: Expr, ub: Expr, step: Expr, g: Gen, visible: set<Value>)
    requires Live(g, visible) && GenBounds(lb, ub, step, g).Some?
    ensures var c := GenBounds(lb, ub, step, g).value;
            && Safe(Lift(c.ins), g, Gen(g.scope, c.next), visible)
            && {c.lb, c.ub, c.step} <= visible + DefinesAll(Lift(c.ins))
  {
    var a := GenExpr(lb, g.scope, g.next).value;
    var b := GenExpr(ub, g.scope, a.next).value;
    var d := GenExpr(step, g.scope, b.next).value;
    PairScoped(lb, ub, g.scope, g.next, visible);
    ExprScoped(step, g.scope, b.next, visible + DefinesAll(Lift(a.ins + b.ins)));
    CodeThen(a.ins + b.ins, {a.val, b.val} + ValidOf(g.scope), d.ins, {d.val} + ValidOf(g.scope), g.scope,
             g.next, b.next, d.next, visible);
  }

  /** What the body of a loop starts with is visible inside the loop. */
  lemma BodyLive(x: string, names: seq<string>, g: Gen, visible: set<Value>)
    requires Live(g, visible)
    ensures Live(BodyGen(g, x, names), visible + Range(g.next, 1 + |names|))
  {
    var g1 := BodyGen(g, x, names);
    forall y | y in g1.scope.env ensures g1.scope.env[y] in visible + Range(g.next, 1 + |names|) {
    }
  }

  lemma LoopOpScoped(b: Bounds, g: Gen, names: seq<string>, inner: Out, x: string, visible: set<Value>)
    requires Live(g, visible) && {b.lb, b.ub, b.step} <= visible
    requires forall y :: y in names ==> y in g.scope.env && y in inner.g.scope.env
    requires Safe(inner.ops, BodyGen(g, x, names), inner.g, visible + Range(g.next, 1 + |names|))
    ensures OpScoped(LoopOp(b, g, names, inner), visible)
    ensures Defines(LoopOp(b, g, names, inner)) == Range(inner.g.next, |names|)
  {
    var ins, outs := Lookup(g.scope.env, names), Lookup(inner.g.scope.env, names);
    forall i | 0 <= i < |ins| ensures ins[i] in visible {
      assert names[i] in g.scope.env;
    }
    forall i | 0 <= i < |outs| ensures outs[i] in visible + Range(g.next, 1 + |names|) + DefinesAll(inner.ops) {
      assert names[i] in inner.g.scope.env;
    }
  }

  lemma AfterLive(g: Gen, names: seq<string>, inner: Gen, visible: set<Value>)
    requires Live(g, visible) && g.next <= inner.next
    ensures Live(AfterLoop(g, names, inner), visible + Range(inner.next, |names|))
  {
    var after := AfterLoop(g, names, inner);
    forall y | y in after.scope.env ensures after.scope.env[y] in visible + Range(inner.next, |names|) {
      if y in names { assert Position(names, y) < |names|; }
    }
  }

  lemma LoopScoped(b: Bounds, g: Gen, names: seq<string>, inner: Out, x: string, visible: set<Value>)
    requires Live(g, visible) && {b.lb, b.ub, b.step} <= visible
    requires forall y :: y in names ==> y in g.scope.env && y in inner.g.scope.env
    requires Safe(inner.ops, BodyGen(g, x, names), inner.g, visible + Range(g.next, 1 + |names|))
    ensures Safe([LoopOp(b, g, names, inner)], g, AfterLoop(g, names, inner.g), visible)
  {
    LoopOpScoped(b, g, names, inner, x, visible);
    SafeInside(g, names, inner, x, visible);
    LoopSafe(b, g, names, inner, visible);
  }

  /** What the loop needs of its body. */
  lemma SafeInside(g: Gen, names: seq<string>, inner: Out, x: string, visible: set<Value>)
    requires Safe(inner.ops, BodyGen(g, x, names), inner.g, visible + Range(g.next, 1 + |names|))
    ensures g.next + 1 + |names| <= inner.g.next
    ensures InOrder(NumbersAll(inner.ops), g.next + 1 + |names|, inner.g.next)
  {
  }

  lemma LoopSafe(b: Bounds, g: Gen, names: seq<string>, inner: Out, visible: set<Value>)
    requires Live(g, visible) && forall y :: y in names ==> y in g.scope.env && y in inner.g.scope.env
    requires g.next + 1 + |names| <= inner.g.next
    requires InOrder(NumbersAll(inner.ops), g.next + 1 + |names|, inner.g.next)
    requires OpScoped(LoopOp(b, g, names, inner), visible)
    requires Defines(LoopOp(b, g, names, inner)) == Range(inner.g.next, |names|)
    ensures Safe([LoopOp(b, g, names, inner)], g, AfterLoop(g, names, inner.g), visible)
  {
    AfterLive(g, names, inner.g, visible);
    LoopOpNumbers(b, g, names, inner);
    OneSafe(LoopOp(b, g, names, inner), g, AfterLoop(g, names, inner.g), visible);
  }

  lemma OneSafe(op: Op, g: Gen, g': Gen, visible: set<Value>)
    requires OpScoped(op, visible) && Live(g', visible + Defines(op)) && g.next <= g'.next
    requires (forall v :: v in Defines(op) ==> g.next <= v) && InOrder(Numbers(op), g.next, g'.next)
    ensures Safe([op], g, g', visible)
  {
    OneOp(op, visible);
  }

  lemma LoopOpNumbers(b: Bounds, g: Gen, names: seq<string>, inner: Out)
    requires forall y :: y in names ==> y in g.scope.env && y in inner.g.scope.env
    requires g.next + 1 + |names| <= inner.g.next
    requires InOrder(NumbersAll(inner.ops), g.next + 1 + |names|, inner.g.next)
    ensures InOrder(Numbers(LoopOp(b, g, names, inner)), g.next, inner.g.next + |names|)
  {
    LoopNumbers(NumbersAll(inner.ops), g.next, |names|, inner.g.next);
  }

  /** Block arguments, body and results are numbered in this order. */
  lemma LoopNumbers(inner: seq<Value>, first: Value, n: nat, results: Value)
    requires first + 1 + n <= results && InOrder(inner, first + 1 + n, results)
    ensures InOrder(Consecutive(first, 1 + n) + inner + Consecutive(results, n), first, results + n)
  {
    InOrderThen(Consecutive(first, 1 + n), inner, first, first + 1 + n, results);
    InOrderThen(Consecutive(first, 1 + n) + inner, Consecutive(results, n), first, results, results + n);
  }

  lemma OneOp(op: Op, visible: set<Value>)
    requires OpScoped(op, visible)
    ensures WellScoped([op], visible) && DefinesAll([op]) == Defines(op) && NumbersAll([op]) == Numbers(op)
  {
    assert [op][1..] == [];
  }

  lemma ForScoped(x: string, lb: Expr, ub: Expr, step: Expr, body: seq<Stmt>, c: Bounds, inner: Out, g: Gen,
                  visible: set<Value>)
    requires Live(g, visible) && GenBounds(lb, ub, step, g) == Some(c)
    requires var g1, names := Gen(g.scope, c.next), IterNames(body, g.scope.env.Keys);
             (forall y :: y in names ==> y in inner.g.scope.env) &&
             Safe(inner.ops, BodyGen(g1, x, names), inner.g,
                  visible + DefinesAll(Lift(c.ins)) + Range(c.next, 1 + |names|))
    ensures var g1, names := Gen(g.scope, c.next), IterNames(body, g.scope.env.Keys);
            Safe(Lift(c.ins) + [LoopOp(c, g1, names, inner)], g, AfterLoop(g1, names, inner.g), visible)
  {
    var g1, names := Gen(g.scope, c.next), IterNames(body, g.scope.env.Keys);
    BoundsScoped(lb, ub, step, g, visible);
    LoopScoped(c, g1, names, inner, x, visible + DefinesAll(Lift(c.ins)));
    SafeAppend(Lift(c.ins), [LoopOp(c, g1, names, inner)], g, g1, AfterLoop(g1, names, inner.g), visible);
  }

  /**
   For every program, vector lengths included: translated statements only use values that are visible where
   they are used, no two values have the same number, and what the builder remembers afterwards is visible after them.
   */
  lemma {:induction false} BlockScoped(ss: seq<Stmt>, g: Gen, visible: set<Value>)
    requires Live(g, visible) && GenBlock(ss, g).Some?
    ensures var out := GenBlock(ss, g).value; Safe(out.ops, g, out.g, visible)
    decreases ss, 0
  {
    if ss == [] {
      assert visible + {} == visible;
    } else {
      var a := GenStmt(ss[0], g).value;
      StmtScoped(ss[0], g, visible);
      BlockScoped(ss[1..], a.g, visible + DefinesAll(a.ops));
      SafeAppend(a.ops, GenBlock(ss[1..], a.g).value.ops, g, a.g, GenBlock(ss, g).value.g, visible);
    }
  }

  lemma {:induction false} StmtScoped(t: Stmt, g: Gen, visible: set<Value>)
    requires Live(g, visible) && GenStmt(t, g).Some?
    ensures var out := GenStmt(t, g).value; Safe(out.ops, g, out.g, visible)
    decreases t, 1
  {
    match t
    case Assign(x, e) => AssignScoped(x, e, g, visible);
    case Store(buf, idx, val) => StoreScoped(buf, idx, val, g, visible);
    case VStore(buf, idx, val) => VStoreScoped(buf, idx, val, g, visible);
    case Vconfig(target, avl, lmul) => VconfigScoped(target, avl, lmul, g, visible);
    case For(x, lb, ub, step, body) =>
      var c := GenBounds(lb, ub, step, g).value;
      var g1, names := Gen(g.scope, c.next), IterNames(body, g.scope.env.Keys);
      var inner := GenBlock(body, BodyGen(g1, x, names)).value;
      var before := visible + DefinesAll(Lift(c.ins));
      BoundsScoped(lb, ub, step, g, visible);
      BodyLive(x, names, g1, before);
      BlockScoped(body, BodyGen(g1, x, names), before + Range(c.next, 1 + |names|));
      ForScoped(x, lb, ub, step, body, c, inner, g, visible);
  }
}
