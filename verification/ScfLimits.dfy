/**
 Where the structured lowering does not mean what the program means (language/smt_rvisa/codegen.py): an outer
 variable that only a nested loop assigns is not carried by the loop around it.
 */
module ScfLimits {
  import opened Wrappers
  import opened KernelLang
  import opened Ssa
  import opened ScfLowering

  /** Translated expressions define new values only. */
  lemma {:induction false} ExprKeeps(e: Expr, sc: Scope, next: Value, s: Regs, w: World)
    requires GenExpr(e, sc, next).Some?
    ensures Keeps(s.vals, RunCode(GenExpr(e, sc, next).value.ins, s, w).vals, next)
  {
    var code := GenExpr(e, sc, next).value;
    match e
    case Var(x) =>
    case Const(n) =>
    case Bin(op, l, r) =>
      var a := GenExpr(l, sc, next).value;
      var b := GenExpr(r, sc, a.next).value;
      ExprKeeps(l, sc, next, s, w);
      ExprKeeps(r, sc, a.next, RunCode(a.ins, s, w), w);
      RunCodeAppend(a.ins + b.ins, [IBin(b.next, op, a.val, b.val)], s, w);
      RunCodeAppend(a.ins, b.ins, s, w);
    case Load(buf, idx) =>
      var i := GenExpr(idx, sc, next).value;
      ExprKeeps(idx, sc, next, s, w);
      RunCodeAppend(i.ins, [ILoad(i.next, buf, i.val)], s, w);
    case VLoad(buf, idx) =>
      var i := GenExpr(idx, sc, next).value;
      ExprKeeps(idx, sc, next, s, w);
      RunCodeAppend(i.ins, [IVLoad(i.next, buf, i.val, sc.vl.value, sc.valid)], s, w);
  }

  lemma BoundsKeep(lb: Expr, ub: Expr, step: Expr, g: Gen, s: Regs, w: World)
    requires GenBounds(lb, ub, step, g).Some?
    ensures Keeps(s.vals, RunCode(GenBounds(lb, ub, step, g).value.ins, s, w).vals, g.next)
  {
    var a := GenExpr(lb, g.scope, g.next).value;
    var b := GenExpr(ub, g.scope, a.next).value;
    var d := GenExpr(step, g.scope, b.next).value;
    ExprKeeps(lb, g.scope, g.next, s, w);
    ExprKeeps(ub, g.scope, a.next, RunCode(a.ins, s, w), w);
    ExprKeeps(step, g.scope, b.next, RunCode(b.ins, RunCode(a.ins, s, w), w), w);
    RunCodeAppend(a.ins + b.ins, d.ins, s, w);
    RunCodeAppend(a.ins, b.ins, s, w);
  }

  /** A loop changes no value that is bound to a name its body does not assign directly. */
  lemma LoopLeaves(x: string, lb: Expr, ub: Expr, step: Expr, body: seq<Stmt>, g: Gen, s: Regs, y: string, w: World)
    requires GenStmt(For(x, lb, ub, step, body), g).Some?
    requires y in g.scope.env && y !in Direct(body) && g.scope.env[y] < g.next && g.scope.env[y] in s.vals
    ensures var out := GenStmt(For(x, lb, ub, step, body), g).value;
            y in out.g.scope.env && RunOps(out.ops, s, w).Get(out.g.scope.env[y]) == s.Get(g.scope.env[y])
  {
    var c := GenBounds(lb, ub, step, g).value;
    var g1, names, s1 := Gen(g.scope, c.next), IterNames(body, g.scope.env.Keys), RunCode(c.ins, s, w);
    var inner := GenBlock(body, BodyGen(g1, x, names)).value;
    var op := LoopOp(c, g1, names, inner);
    BoundsKeep(lb, ub, step, g, s, w);
    RunLift(c.ins, s, w);
    RunAppend(Lift(c.ins), [op], s, w);
    assert RunOps([op], s1, w) == RunOp(op, s1, w);
    var out := RunLoop(op.iv, op.body, op.outs, s1.Get(op.lb), s1.Get(op.ub), s1.Get(op.step), Values(s1, op.inits),
                       s1, w);
    BindKeeps(s1.vals, inner.g.next, out.0, g.next);
  }

  /**
   After a loop, a variable that was bound before it and is not assigned by the body itself has the Python
   value exactly when the Python loop left it unchanged.
   */
  lemma NestedOnlyExact(x: string, lb: Expr, ub: Expr, step: Expr, body: seq<Stmt>, g: Gen, st: State, s: Regs,
                        y: string, w: World)
    requires GenStmt(For(x, lb, ub, step, body), g).Some? && Matches(g, st, s, w)
    requires ExecStmt(For(x, lb, ub, step, body), st, w).Some?
    requires y in g.scope.env && y !in Direct(body)
    ensures var out := GenStmt(For(x, lb, ub, step, body), g).value;
            var st' := ExecStmt(For(x, lb, ub, step, body), st, w).value;
            y in out.g.scope.env && y in st'.env &&
            (RunOps(out.ops, s, w).Get(out.g.scope.env[y]) == st'.env[y] <==> st'.env[y] == st.env[y])
  {
    LoopLeaves(x, lb, ub, step, body, g, s, y, w);
    StmtKeepsNames(For(x, lb, ub, step, body), st, w);
  }

  lemma {:induction false} StmtKeepsNames(t: Stmt, st: State, w: World)
    requires ExecStmt(t, st, w).Some?
    ensures st.env.Keys <= ExecStmt(t, st, w).value.env.Keys
    decreases t, 2, 0
  {
    if t.For? {
      IterateKeepsNames(t.loopVar, t.body, Eval(t.lb, st, w).value, Eval(t.ub, st, w).value, Eval(t.step, st, w).value,
                        st, w);
    }
  }

  lemma {:induction false} IterateKeepsNames(x: string, body: seq<Stmt>, i: int, ub: int, step: int, st: State,
                                             w: World)
    requires step > 0 && Iterate(x, body, i, ub, step, st, w).Some?
    ensures st.env.Keys <= Iterate(x, body, i, ub, step, st, w).value.env.Keys
    decreases body, 1, ub - i
  {
    if i < ub {
      var st1 := st.(env := st.env[x := i]);
      BlockKeepsNames(body, st1, w);
      IterateKeepsNames(x, body, i + step, ub, step, Exec(body, st1, w).value, w);
    }
  }

  lemma {:induction false} BlockKeepsNames(ss: seq<Stmt>, st: State, w: World)
    requires Exec(ss, st, w).Some?
    ensures st.env.Keys <= Exec(ss, st, w).value.env.Keys
    decreases ss, 0, 0
  {
    if ss != [] {
      StmtKeepsNames(ss[0], st, w);
      BlockKeepsNames(ss[1..], ExecStmt(ss[0], st, w).value, w);
    }
  }

  // for i in range(n): for j in range(n): acc = acc + 1
  const BUMP := Assign("acc", Bin(Plus, Var("acc"), Const(1)))
  const INNER := For("j", Const(0), Var("n"), Const(1), [BUMP])
  const OUTER := For("i", Const(0), Var("n"), Const(1), [INNER])

  lemma {:induction false} InnerCounts(i: int, n: int, st: State, w: World)
    requires "acc" in st.env && "n" in st.env && st.env["n"] == n && i <= n
    ensures Iterate("j", [BUMP], i, n, 1, st, w).Some?
    ensures var env := Iterate("j", [BUMP], i, n, 1, st, w).value.env;
            "acc" in env && "n" in env && env["n"] == n && env["acc"] == st.env["acc"] + (n - i)
    ensures Iterate("j", [BUMP], i, n, 1, st, w).value.trace == st.trace
    decreases n - i
  {
    if i < n {
      var st1 := st.(env := st.env["j" := i]);
      var st2 := st1.(env := st1.env["acc" := st.env["acc"] + 1]);
      assert Eval(BUMP.value, st1, w) == Some(st.env["acc"] + 1);
      assert ExecStmt(BUMP, st1, w) == Some(st2);
      assert [BUMP][1..] == [] && Exec([], st2, w) == Some(st2);
      assert Exec([BUMP], st1, w) == Some(st2);
      InnerCounts(i + 1, n, st2, w);
    }
  }

  lemma {:induction false} OuterCounts(i: int, n: int, st: State, w: World)
    requires "acc" in st.env && "n" in st.env && st.env["n"] == n && 0 <= i <= n
    ensures Iterate("i", [INNER], i, n, 1, st, w).Some?
    ensures var env := Iterate("i", [INNER], i, n, 1, st, w).value.env;
            "acc" in env && env["acc"] == st.env["acc"] + (n - i) * n
    decreases n - i
  {
    if i < n {
      var st1 := st.(env := st.env["i" := i]);
      InnerCounts(0, n, st1, w);
      var st2 := Iterate("j", [BUMP], 0, n, 1, st1, w).value;
      assert ExecStmt(INNER, st1, w) == Some(st2);
      assert [INNER][1..] == [] && Exec([], st2, w) == Some(st2);
      assert Exec([INNER], st1, w) == Some(st2);
      OuterCounts(i + 1, n, st2, w);
      assert (n - i) * n == n + (n - (i + 1)) * n;
    }
  }

  /** Python counts to n * n; the translated loops leave the variable as it was. They agree exactly for n == 0. */
  lemma NestedCounterExact(n: nat, g: Gen, st: State, s: Regs, w: World)
    requires Matches(g, st, s, w) && GenStmt(OUTER, g).Some?
    requires "acc" in g.scope.env && "n" in g.scope.env && st.env["n"] == n
    ensures var out := GenStmt(OUTER, g).value;
            && ExecStmt(OUTER, st, w).Some? && "acc" in out.g.scope.env && "acc" in ExecStmt(OUTER, st, w).value.env
            && ExecStmt(OUTER, st, w).value.env["acc"] == st.env["acc"] + n * n
            && RunOps(out.ops, s, w).Get(out.g.scope.env["acc"]) == st.env["acc"]
            && (RunOps(out.ops, s, w).Get(out.g.scope.env["acc"]) == ExecStmt(OUTER, st, w).value.env["acc"]
                <==> n == 0)
  {
    OuterCounts(0, n, st, w);
    assert ExecStmt(OUTER, st, w) == Iterate("i", [INNER], 0, n, 1, st, w);
    assert [INNER][1..] == [];
    assert "acc" !in Direct([INNER]);
    LoopLeaves("i", Const(0), Var("n"), Const(1), [INNER], g, s, "acc", w);
    assert n * n == 0 <==> n == 0;
  }
}
