/**
 Which kernels the two loop compilers accept (language/smt_rvisa/codegen.py, language/smt_rvisa/llvm_direct.py): those
 that read no name before it is known, and use no vector operation before a vconfig. Everything else is translated.
 */
module Accepted {
  import opened Wrappers
  import opened KernelLang
  import opened Ssa
  import opened ScfLowering
  import opened CfgLowering
  import opened ScfVector

  // ------------------------------------------------------------------
  // The structured form
  // ------------------------------------------------------------------

  predicate ExprOk(e: Expr, names: set<string>, vectors: bool) {
    match e
    case Var(x) => x in names
    case Const(_) => true
    case Bin(_, l, r) => ExprOk(l, names, vectors) && ExprOk(r, names, vectors)
    case Load(_, idx) => ExprOk(idx, names, vectors)
    case VLoad(_, idx) => vectors && ExprOk(idx, names, vectors)
  }

  /** The names that an assignment at this level binds; those of a loop are forgotten behind it. */
  function Binds(ss: seq<Stmt>): set<string> {
    if ss == [] then {} else (if ss[0].Assign? then {ss[0].name} else {}) + Binds(ss[1..])
  }

  /** The results of vconfigs at any level, which stay known. */
  function Configures(ss: seq<Stmt>): set<string> {
    if ss == [] then {} else ConfiguredBy(ss[0]) + Configures(ss[1..])
  }

  function ConfiguredBy(t: Stmt): set<string> {
    match t
    case Vconfig(Some(x), _, _) => {x}
    case For(_, _, _, _, body) => Configures(body)
    case _ => {}
  }

  predicate BlockOk(ss: seq<Stmt>, names: set<string>, vectors: bool)
    decreases ss, 0
  {
    ss == [] ||
    (StmtOk(ss[0], names, vectors) &&
     BlockOk(ss[1..], names + Binds([ss[0]]) + ConfiguredBy(ss[0]), vectors || ss[0].Vconfig?))
  }

  predicate StmtOk(t: Stmt, names: set<string>, vectors: bool)
    decreases t, 1
  {
    match t
    case Assign(_, e) => ExprOk(e, names, vectors)
    case Store(_, idx, val) => ExprOk(idx, names, vectors) && ExprOk(val, names, vectors)
    case VStore(_, idx, val) => ExprOk(idx, names, vectors) && ExprOk(val, names, vectors)
    case Vconfig(_, avl, _) => FullLiteral(avl) || ExprOk(avl, names, true)
    case For(x, lb, ub, step, body) =>
      && ExprOk(lb, names, vectors) && ExprOk(ub, names, vectors) && ExprOk(step, names, vectors)
      && BlockOk(body, names + {x}, vectors)
  }

  function Names(sc: Scope): set<string> { sc.env.Keys + sc.consts.Keys }

  lemma {:induction false} ExprAccepted(e: Expr, sc: Scope, next: Value)
    ensures GenExpr(e, sc, next).Some? <==> ExprOk(e, Names(sc), sc.vl.Some?)
  {
    match e
    case Bin(_, l, r) =>
      ExprAccepted(l, sc, next);
      if GenExpr(l, sc, next).Some? { ExprAccepted(r, sc, GenExpr(l, sc, next).value.next); }
    case Load(_, idx) => ExprAccepted(idx, sc, next);
    case VLoad(_, idx) => ExprAccepted(idx, sc, next);
    case _ =>
  }

  predicate PairOk(l: Expr, r: Expr, sc: Scope, next: Value) {
    GenExpr(l, sc, next).Some? && GenExpr(r, sc, GenExpr(l, sc, next).value.next).Some?
  }

  lemma PairAccepted(l: Expr, r: Expr, sc: Scope, next: Value)
    ensures PairOk(l, r, sc, next) <==> ExprOk(l, Names(sc), sc.vl.Some?) && ExprOk(r, Names(sc), sc.vl.Some?)
  {
    ExprAccepted(l, sc, next);
    if GenExpr(l, sc, next).Some? { ExprAccepted(r, sc, GenExpr(l, sc, next).value.next); }
  }

  lemma BoundsAccepted(lb: Expr, ub: Expr, step: Expr, g: Gen)
    ensures var names, vectors := Names(g.scope), g.scope.vl.Some?;
            GenBounds(lb, ub, step, g).Some?
            <==> ExprOk(lb, names, vectors) && ExprOk(ub, names, vectors) && ExprOk(step, names, vectors)
  {
    PairAccepted(lb, ub, g.scope, g.next);
    if PairOk(lb, ub, g.scope, g.next) {
      ExprAccepted(step, g.scope, GenExpr(ub, g.scope, GenExpr(lb, g.scope, g.next).value.next).value.next);
    }
  }

  /** The names and the vector length known behind translated statements. */
  ghost predicate Knows(g: Gen, g': Gen, bound: set<string>, configured: set<string>, vectors: bool) {
    && g'.scope.env.Keys == g.scope.env.Keys + bound
    && g'.scope.consts.Keys == g.scope.consts.Keys + configured
    && (g'.scope.vl.Some? <==> g.scope.vl.Some? || vectors)
  }

  predicate HasVconfig(ss: seq<Stmt>) { exists i :: 0 <= i < |ss| && ss[i].Vconfig? }

  lemma VconfigAccepted(target: Option<string>, avl: Expr, lmul: nat, g: Gen)
    ensures GenVconfig(target, avl, lmul, g).Some? <==> FullLiteral(avl) || ExprOk(avl, Names(g.scope), true)
    ensures GenVconfig(target, avl, lmul, g).Some? ==>
              Knows(g, GenVconfig(target, avl, lmul, g).value.g, {}, ConfiguredBy(Vconfig(target, avl, lmul)), true)
  {
    ExprAccepted(avl, g.scope.(vl := Some(VlMax(lmul))), g.next);
  }

  /** A kernel is translated exactly when it reads known names only, and vectors only behind a vconfig. */
  lemma {:induction false} BlockAccepted(ss: seq<Stmt>, g: Gen)
    ensures GenBlock(ss, g).Some? <==> BlockOk(ss, Names(g.scope), g.scope.vl.Some?)
    ensures GenBlock(ss, g).Some? ==> Knows(g, GenBlock(ss, g).value.g, Binds(ss), Configures(ss), HasVconfig(ss))
    decreases ss, 0
  {
    if ss != [] {
      StmtAccepted(ss[0], g);
      if GenStmt(ss[0], g).Some? {
        var g1 := GenStmt(ss[0], g).value.g;
        BlockAccepted(ss[1..], g1);
        assert Names(g1.scope) == Names(g.scope) + Binds([ss[0]]) + ConfiguredBy(ss[0]);
        VconfigSplits(ss);
      }
    }
  }

  lemma VconfigSplits(ss: seq<Stmt>)
    requires ss != []
    ensures HasVconfig(ss) <==> ss[0].Vconfig? || HasVconfig(ss[1..])
    ensures Binds(ss) == Binds([ss[0]]) + Binds(ss[1..])
  {
    assert [ss[0]][1..] == [];
    if HasVconfig(ss) && !ss[0].Vconfig? {
      var i :| 0 <= i < |ss| && ss[i].Vconfig?;
      assert ss[1..][i - 1].Vconfig?;
    }
    if HasVconfig(ss[1..]) {
      var i :| 0 <= i < |ss[1..]| && ss[1..][i].Vconfig?;
      assert ss[i + 1].Vconfig?;
    }
  }

  lemma {:induction false} StmtAccepted(t: Stmt, g: Gen)
    ensures GenStmt(t, g).Some? <==> StmtOk(t, Names(g.scope), g.scope.vl.Some?)
    ensures GenStmt(t, g).Some? ==> Knows(g, GenStmt(t, g).value.g, Binds([t]), ConfiguredBy(t), t.Vconfig?)
    decreases t, 1
  {
    assert [t][1..] == [];
    match t
    case Assign(_, e) => ExprAccepted(e, g.scope, g.next);
    case Store(_, idx, val) => PairAccepted(idx, val, g.scope, g.next);
    case VStore(_, idx, val) => PairAccepted(val, idx, g.scope, g.next);
    case Vconfig(target, avl, lmul) => VconfigAccepted(target, avl, lmul, g);
    case For(x, lb, ub, step, body) =>
      BoundsAccepted(lb, ub, step, g);
      if GenBounds(lb, ub, step, g).Some? { LoopAccepted(x, body, GenBounds(lb, ub, step, g).value, g); }
  }

  lemma {:induction false} LoopAccepted(x: string, body: seq<Stmt>, c: Bounds, g: Gen)
    ensures GenLoop(x, body, c, Gen(g.scope, c.next)).Some? <==> BlockOk(body, Names(g.scope) + {x}, g.scope.vl.Some?)
    ensures GenLoop(x, body, c, Gen(g.scope, c.next)).Some? ==>
              Knows(g, GenLoop(x, body, c, Gen(g.scope, c.next)).value.1, {}, Configures(body), false)
    decreases body, 2
  {
    var inside := BodyGen(Gen(g.scope, c.next), x, IterNames(body, g.scope.env.Keys));
    BlockAccepted(body, inside);
    assert Names(inside.scope) == Names(g.scope) + {x};
  }

  // ------------------------------------------------------------------
  // The control-flow form
  // ------------------------------------------------------------------

  predicate BlockOkC(ss: seq<Stmt>, names: set<string>)
    decreases ss, 0
  {
    ss == [] || (StmtOkC(ss[0], names) && BlockOkC(ss[1..], names + AssignedBy(ss[0])))
  }

  /** No vectors; and everything a loop binds stays bound. */
  predicate StmtOkC(t: Stmt, names: set<string>)
    decreases t, 1
  {
    match t
    case Assign(_, e) => ExprOk(e, names, false)
    case Store(_, idx, val) => ExprOk(idx, names, false) && ExprOk(val, names, false)
    case For(x, lb, ub, step, body) =>
      && ExprOk(lb, names, false) && ExprOk(ub, names, false) && ExprOk(step, names, false)
      && BlockOkC(body, names + {x})
    case _ => false
  }

  lemma {:induction false} BlockAcceptedC(ss: seq<Stmt>, g: CGen)
    requires g.Open()
    ensures GenBlockC(ss, g).Some? <==> BlockOkC(ss, g.env.Keys)
    ensures GenBlockC(ss, g).Some? ==> GenBlockC(ss, g).value.env.Keys == g.env.Keys + Assigned(ss)
    decreases ss, 0
  {
    if ss != [] {
      StmtAcceptedC(ss[0], g);
      if GenStmtC(ss[0], g).Some? { BlockAcceptedC(ss[1..], GenStmtC(ss[0], g).value); }
    }
  }

  lemma {:induction false} StmtAcceptedC(t: Stmt, g: CGen)
    requires g.Open()
    ensures GenStmtC(t, g).Some? <==> StmtOkC(t, g.env.Keys)
    ensures GenStmtC(t, g).Some? ==> GenStmtC(t, g).value.env.Keys == g.env.Keys + AssignedBy(t)
    decreases t, 1
  {
    assert Names(g.Scope()) == g.env.Keys;
    match t
    case Assign(_, e) => ExprAccepted(e, g.Scope(), g.next);
    case Store(_, idx, val) => PairAccepted(idx, val, g.Scope(), g.next);
    case For(x, lb, ub, step, body) =>
      BoundsAccepted(lb, ub, step, Gen(g.Scope(), g.next));
      var c := GenBounds(lb, ub, step, Gen(g.Scope(), g.next));
      if c.Some? { LoopAcceptedC(x, body, c.value, g); }
    case _ =>
  }

  lemma {:induction false} LoopAcceptedC(x: string, body: seq<Stmt>, c: Bounds, g: CGen)
    requires g.Open() && g.next <= c.next
    ensures GenLoopC(x, body, c, g).Some? <==> BlockOkC(body, g.env.Keys + {x})
    ensures GenLoopC(x, body, c, g).Some? ==>
              GenLoopC(x, body, c, g).value.env.Keys == g.env.Keys + {x} + Assigned(body)
    decreases body, 2
  {
    var entered := EnterLoopC(x, FindReassigned(body, g.env.Keys), c, g);
    assert entered.env.Keys == g.env.Keys + {x};
    BlockAcceptedC(body, entered);
  }
}
