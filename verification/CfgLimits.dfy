/**
 Where the control-flow lowering does not mean what the program means (language/smt_rvisa/llvm_direct.py): the loop
 variable stays bound behind its loop, to the header's argument and not to Python's last value; and an outer variable
 that only a nested loop assigns starts every iteration with the value it had in front of the outer loop.
 */
module CfgLimits {
  import opened Wrappers
  import opened KernelLang
  import opened Ssa
  import opened ScfLowering
  import opened CfgLowering
  import opened CfgSound
  import opened ScfLimits

  /** Python leaves the last value below the bound, if the loop has run at all. */
  lemma {:induction false} LastBelow(x: string, body: seq<Stmt>, i: int, ub: int, step: int, st: State, w: World)
    requires step > 0 && i < ub && x !in Assigned(body) && Iterate(x, body, i, ub, step, st, w).Some?
    ensures var env := Iterate(x, body, i, ub, step, st, w).value.env; x in env && env[x] < ub
    decreases ub - i
  {
    var st1 := st.(env := st.env[x := i]);
    var st2 := Exec(body, st1, w).value;
    ExecFrame(body, st1, w, x);
    if i + step < ub {
      LastBelow(x, body, i + step, ub, step, st2, w);
    } else {
      assert Iterate(x, body, i + step, ub, step, st2, w) == Some(st2);
    }
  }

  /**
   Reading the loop variable behind its loop gives the Python value only if the loop never runs: the header
   has counted it to the bound or past it.
   */
  lemma LoopVariableBehind(x: string, lb: Expr, ub: Expr, step: Expr, body: seq<Stmt>, g: CGen, dead: set<string>,
                           st: State, s: Regs, f: Cfg, w: World) returns (s': Regs)
    requires g.Open() && StmtScopedC(For(x, lb, ub, step, body), g.env.Keys - dead, dead)
    requires PlainStmt(For(x, lb, ub, step, body)) && MatchesC(g, dead, st, s, w) && x !in Assigned(body)
    requires GenStmtC(For(x, lb, ub, step, body), g).Some? && ExecStmt(For(x, lb, ub, step, body), st, w).Some?
    requires Completes(GenStmtC(For(x, lb, ub, step, body), g).value.blocks, f)
    requires Eval(lb, st, w).value < Eval(ub, st, w).value
    ensures var g' := GenStmtC(For(x, lb, ub, step, body), g).value;
            var st' := ExecStmt(For(x, lb, ub, step, body), st, w).value;
            && Reaches(f, At(g, s), At(g', s'), w)
            && x in g'.env && x in st'.env && s'.Get(g'.env[x]) > st'.env[x]
  {
    var c := GenBounds(lb, ub, step, Gen(g.Scope(), g.next)).value;
    var g', st' := GenStmtC(For(x, lb, ub, step, body), g).value, ExecStmt(For(x, lb, ub, step, body), st, w).value;
    s' := ForC(x, lb, ub, step, body, c, g, g', dead, st, s, st', f, w);
    LastBelow(x, body, Eval(lb, st, w).value, Eval(ub, st, w).value, Eval(step, st, w).value, st, w);
    LoopVariableBound(x, body, c, g);
  }

  lemma LoopVariableBound(x: string, body: seq<Stmt>, c: Bounds, g: CGen)
    requires g.Open() && g.next <= c.next && GenLoopC(x, body, c, g).Some? && x !in Assigned(body)
    ensures var env := GenLoopC(x, body, c, g).value.env; x in env && env[x] == c.next
  {
    var names := FindReassigned(body, g.env.Keys);
    DirectAssigned(body);
    assert x !in names;
    EnvFrame(body, EnterLoopC(x, names, c, g), x);
  }

  // ------------------------------------------------------------------
  // A variable that only a nested loop assigns
  // ------------------------------------------------------------------

  /** The state in which an iteration starts: what the body assigns itself is carried, the rest is as in `st`. */
  function Restart(st: State, after: State, carried: set<string>): State {
    State(map y | y in st.env :: if y in carried && y in after.env then after.env[y] else st.env[y], after.trace)
  }

  /** The iterations of the blocks: like KernelLang.Iterate, but only the carried names go round. */
  function RestartIterate(x: string, body: seq<Stmt>, i: int, ub: int, step: int, st: State, w: World): Option<State>
    requires step > 0
    decreases ub - i
  {
    if i >= ub then Some(st)
    else
      var next := Exec(body, Enter(st, x, i), w);
      if next.None? then None
      else RestartIterate(x, body, i + step, ub, step, Restart(st, next.value, Direct(body)), w)
  }

  lemma RestartCarries(l: Loop, ub: int, step: int, st: State, i: int, r: Regs, st2: State, r2: Regs, w: World)
    requires l.Translated() && l.BodyOk() && HeaderOk(l, ub, step, st, i, r, w)
    requires MatchesC(l.inner, DeadAfter(l.body, l.Usable() + {l.x}, l.dead - {l.x}), st2, r2, w)
    requires Keeps(r.vals, r2.vals, l.c.next)
    ensures Carried(l.Live(), l.Names(), Restart(st, st2, Direct(l.body)), Bumped(l, r2), Outs(l, r2), w)
  {
    var next, gl, names := Restart(st, st2, Direct(l.body)), l.Live(), l.Names();
    NamesUsable(l);
    forall j | 0 <= j < |names| ensures names[j] in next.env && Outs(l, r2)[j] == next.env[names[j]] {
      CarriedBound(l, st2, r2, names[j], w);
      BoundBefore(l, ub, step, st, i, r, names[j], w);
    }
    forall y | y in gl.scope.env && y !in names
      ensures y in next.env && gl.scope.env[y] in Bumped(l, r2).vals
      ensures Bumped(l, r2).vals[gl.scope.env[y]] == next.env[y]
    {
      assert BodyGen(gl, l.x, names).scope.env[y] == gl.scope.env[y];
    }
    forall y | y in gl.scope.env ensures y in next.env {
      if y in names { BoundBefore(l, ub, step, st, i, r, y, w); }
    }
  }

  lemma BoundBefore(l: Loop, ub: int, step: int, st: State, i: int, r: Regs, y: string, w: World)
    requires l.Fits() && HeaderOk(l, ub, step, st, i, r, w) && y in l.Usable()
    ensures y in st.env
  {
    assert y in BodyGen(l.Live(), l.x, l.Names()).scope.env;
  }

  /** Once around the loop. */
  lemma RestartTrip(l: Loop, f: Cfg, ub: int, step: int, st: State, i: int, next: int, r: Regs, st2: State, w: World)
    returns (r': Regs)
    requires l.Translated() && HasLoop(l, f) && l.BodyOk()
    requires HeaderOk(l, ub, step, st, i, r, w) && i < ub && next == i + step
    requires Exec(l.body, Enter(st, l.x, i), w) == Some(st2)
    ensures Reaches(f, Point(l.Header(), 0, r), Point(l.Header(), 0, r'), w)
    ensures HeaderOk(l, ub, step, Restart(st, st2, Direct(l.body)), next, r', w)
  {
    var r2 := BodyRuns(l, f, ub, step, st, i, r, st2, w);
    BoundsSurvive(l, ub, step, st, i, r, r2, w);
    RestartCarries(l, ub, step, st, i, r, st2, r2, w);
    NextTrip(l, f, ub, step, Restart(st, st2, Direct(l.body)), next, r, r2, w);
    r' := Looped(l, r2);
  }

  /** The first of the remaining iterations. */
  lemma RestartUnfolds(x: string, body: seq<Stmt>, i: int, ub: int, step: int, st: State, st': State, w: World)
    requires step > 0 && i < ub && RestartIterate(x, body, i, ub, step, st, w) == Some(st')
    ensures Exec(body, Enter(st, x, i), w).Some?
    ensures RestartIterate(x, body, i + step, ub, step,
                           Restart(st, Exec(body, Enter(st, x, i), w).value, Direct(body)), w) == Some(st')
  {
  }

  lemma {:induction false} RestartTrips(l: Loop, f: Cfg, ub: int, step: int, st: State, i: int, r: Regs, st': State,
                                        w: World) returns (r': Regs, i': int)
    requires l.Translated() && HasLoop(l, f) && l.BodyOk() && step > 0
    requires HeaderOk(l, ub, step, st, i, r, w) && RestartIterate(l.x, l.body, i, ub, step, st, w) == Some(st')
    ensures Reaches(f, Point(l.Header(), 0, r), Point(l.Header(), 0, r'), w)
    ensures HeaderOk(l, ub, step, st', i', r', w) && i' >= ub
    decreases ub - i
  {
    if i >= ub {
      r', i' := r, i;
      ReachesStep(f, Point(l.Header(), 0, r), w);
    } else {
      RestartUnfolds(l.x, l.body, i, ub, step, st, st', w);
      var st2, k := Exec(l.body, Enter(st, l.x, i), w).value, i + step;
      var r1 := RestartTrip(l, f, ub, step, st, i, k, r, st2, w);
      var next := Restart(st, st2, Direct(l.body));
      r', i' := RestartTrips(l, f, ub, step, next, k, r1, st', w);
      ReachesThen(f, Point(l.Header(), 0, r), Point(l.Header(), 0, r1), Point(l.Header(), 0, r'), w);
    }
  }

  /** A name that the inner loops do not assign behind the body's back. */
  predicate Followed(y: string, body: seq<Stmt>) { y in Assigned(body) ==> y in Direct(body) }

  /** The loops whose body runs faithfully, whatever its inner loops assign. */
  predicate RoundScopedC(x: string, lb: Expr, ub: Expr, step: Expr, body: seq<Stmt>, names: set<string>,
                         dead: set<string>) {
    && Reads(lb) !! dead && Reads(ub) !! dead && Reads(step) !! dead
    && x !in names && Direct(body) !! dead && ScopedC(body, names + {x}, dead - {x})
  }

  /** Such a loop with its three bounds evaluated. */
  ghost predicate RestartsTo(x: string, lb: Expr, ub: Expr, step: Expr, body: seq<Stmt>, st: State, st': State,
                             w: World) {
    && Eval(lb, st, w).Some? && Eval(ub, st, w).Some? && Eval(step, st, w).Some? && Eval(step, st, w).value > 0
    && RestartIterate(x, body, Eval(lb, st, w).value, Eval(ub, st, w).value, Eval(step, st, w).value, st, w)
       == Some(st')
  }

  /**
   Such a loop makes the stores of `RestartIterate` and leaves its values: names that only inner loops assign have
   the value from in front of the loop at the start of every iteration.
   */
  lemma NestedOnlyC(x: string, lb: Expr, ub: Expr, step: Expr, body: seq<Stmt>, g: CGen, g': CGen, dead: set<string>,
                    st: State, s: Regs, st': State, f: Cfg, w: World) returns (s': Regs)
    requires g.Open() && MatchesC(g, dead, st, s, w) && PlainStmt(For(x, lb, ub, step, body))
    requires RoundScopedC(x, lb, ub, step, body, g.env.Keys - dead, dead)
    requires RestartsTo(x, lb, ub, step, body, st, st', w)
    requires GenStmtC(For(x, lb, ub, step, body), g) == Some(g') && Completes(g'.blocks, f)
    ensures Reaches(f, At(g, s), At(g', s'), w) && s'.trace == st'.trace
    ensures forall y :: y in g.env.Keys - dead && Followed(y, body) ==>
              y in g'.env && y in st'.env && s'.Get(g'.env[y]) == st'.env[y]
  {
    var c := GenBounds(lb, ub, step, Gen(g.Scope(), g.next)).value;
    BoundsC(lb, ub, step, c, g, dead, st, s, w);
    s' := RestartFor(x, body, c, g, g', dead, st, s, RunCode(c.ins, s, w), st', f, w);
  }

  lemma RestartFor(x: string, body: seq<Stmt>, c: Bounds, g: CGen, g': CGen, dead: set<string>, st: State, s: Regs,
                   s1: Regs, st': State, f: Cfg, w: World) returns (s': Regs)
    requires g.Open() && Plain(body) && g.next <= c.next && c.ub < c.next && c.step < c.next
    requires x !in g.env.Keys - dead && Direct(body) !! dead && ScopedC(body, g.env.Keys - dead + {x}, dead - {x})
    requires GenLoopC(x, body, c, g) == Some(g') && Completes(g'.blocks, f)
    requires s1 == RunCode(c.ins, s, w) && Keeps(s.vals, s1.vals, g.next) && c.ub in s1.vals && c.step in s1.vals
    requires Matches(Gen(LiveGen(g, dead).scope, c.next), st, s1, w) && s1.Get(c.step) > 0
    requires RestartIterate(x, body, s1.Get(c.lb), s1.Get(c.ub), s1.Get(c.step), st, w) == Some(st')
    ensures Reaches(f, At(g, s), At(g', s'), w) && s'.trace == st'.trace
    ensures forall y :: y in g.env.Keys - dead && Followed(y, body) ==>
              y in g'.env && y in st'.env && s'.Get(g'.env[y]) == st'.env[y]
  {
    var l := Loop(x, body, c, g, dead, GenBlockC(body, EnterLoopC(x, FindReassigned(body, g.env.Keys), c, g)).value);
    LoopBlocks(l, f);
    s' := RestartThrough(l, f, s1.Get(c.lb), s1.Get(c.ub), s1.Get(c.step), st, s, st', w);
  }

  lemma RestartThrough(l: Loop, f: Cfg, lb: int, ub: int, step: int, st: State, s: Regs, st': State, w: World)
    returns (s': Regs)
    requires l.Translated() && HasLoop(l, f) && l.BodyOk() && step > 0
    requires Matches(l.Live(), st, RunCode(l.c.ins, s, w), w) && Keeps(s.vals, RunCode(l.c.ins, s, w).vals, l.g.next)
    requires var s1 := RunCode(l.c.ins, s, w);
             && l.c.ub in s1.vals && s1.vals[l.c.ub] == ub && l.c.step in s1.vals && s1.vals[l.c.step] == step
             && s1.Get(l.c.lb) == lb
    requires RestartIterate(l.x, l.body, lb, ub, step, st, w) == Some(st')
    ensures Reaches(f, At(l.g, s), At(l.Finished(), s'), w) && s'.trace == st'.trace
    ensures forall y :: y in l.Usable() && Followed(y, l.body) ==>
              y in l.Finished().env && y in st'.env && s'.Get(l.Finished().env[y]) == st'.env[y]
  {
    var r := ReachHeader(l, f, ub, step, st, s, w);
    var r1, i := RestartTrips(l, f, ub, step, st, lb, r, st', w);
    s' := RestartExit(l, f, ub, step, st', i, r1, w);
    ReachesThen(f, At(l.g, s), Point(l.Header(), 0, r), Point(l.Header(), 0, r1), w);
    ReachesThen(f, At(l.g, s), Point(l.Header(), 0, r1), At(l.Finished(), s'), w);
  }

  lemma RestartExit(l: Loop, f: Cfg, ub: int, step: int, st: State, i: int, r: Regs, w: World) returns (s': Regs)
    requires l.Translated() && HasLoop(l, f) && l.BodyOk() && HeaderOk(l, ub, step, st, i, r, w) && i >= ub
    ensures Reaches(f, Point(l.Header(), 0, r), At(l.Finished(), s'), w) && s'.trace == st.trace
    ensures forall y :: y in l.Usable() && Followed(y, l.body) ==>
              y in l.Finished().env && y in st.env && s'.Get(l.Finished().env[y]) == st.env[y]
  {
    AtHeader(l, ub, step, st, i, r, w);
    s' := HeaderTest(l, f, r, w);
    ExitEmpty(l);
    forall y | y in l.Usable() && Followed(y, l.body)
      ensures y in l.Finished().env && y in st.env && s'.Get(l.Finished().env[y]) == st.env[y]
    {
      ExitName(l, ub, step, st, i, r, 0, y, w);
    }
  }

  // for i in range(n):
  //   for j in range(n): acc = acc + 1
  //   out[i] = acc
  const REPORT := Store("out", Var("i"), Var("acc"))
  const ROUND := [INNER, REPORT]
  const LOGGING := For("i", Const(0), Var("n"), Const(1), ROUND)

  /** What Python stores, and what the blocks store. */
  function Counted(acc: int, n: nat): seq<Event> { seq(n, i => Event("out", i, acc + n * (i + 1))) }

  function Restarted(acc: int, n: nat): seq<Event> { seq(n, i => Event("out", i, acc + n)) }

  /** One iteration of the outer loop, wherever it starts. */
  lemma RoundRuns(i: int, n: nat, st: State, w: World)
    requires "acc" in st.env && "n" in st.env && st.env["n"] == n
    ensures Exec(ROUND, Enter(st, "i", i), w).Some?
    ensures var st2 := Exec(ROUND, Enter(st, "i", i), w).value;
            && "acc" in st2.env && "n" in st2.env && st2.env["n"] == n && st2.env["acc"] == st.env["acc"] + n
            && st2.trace == st.trace + [Event("out", i, st.env["acc"] + n)]
  {
    var st1 := Enter(st, "i", i);
    InnerCounts(0, n, st1, w);
    var mid := Iterate("j", [BUMP], 0, n, 1, st1, w).value;
    assert ExecStmt(INNER, st1, w) == Some(mid);
    assert Assigned([BUMP]) == {"acc"} by { assert [BUMP][1..] == [] && AssignedBy(BUMP) == {"acc"}; }
    IterateFrame("j", [BUMP], 0, n, 1, st1, w, "i");
    assert ROUND[1..] == [REPORT] && [REPORT][1..] == [];
    var st2 := ExecStmt(REPORT, mid, w).value;
    assert Exec([REPORT], mid, w) == Exec([], st2, w) == Some(st2);
  }

  lemma {:induction false} PythonCounts(i: nat, n: nat, acc: int, st: State, w: World)
    requires "acc" in st.env && "n" in st.env && st.env["n"] == n && i <= n && st.env["acc"] == acc + n * i
    ensures Iterate("i", ROUND, i, n, 1, st, w).Some?
    ensures Iterate("i", ROUND, i, n, 1, st, w).value.trace == st.trace + Counted(acc, n)[i..]
    decreases n - i
  {
    if i < n {
      RoundRuns(i, n, st, w);
      var st2 := Exec(ROUND, Enter(st, "i", i), w).value;
      assert n * (i + 1) == n * i + n;
      PythonCounts(i + 1, n, acc, st2, w);
      assert Counted(acc, n)[i..] == [Counted(acc, n)[i]] + Counted(acc, n)[i + 1..];
    }
  }

  lemma {:induction false} BlocksCount(i: nat, n: nat, acc: int, st: State, w: World)
    requires "acc" in st.env && "n" in st.env && st.env["n"] == n && i <= n && st.env["acc"] == acc
    ensures RestartIterate("i", ROUND, i, n, 1, st, w).Some?
    ensures RestartIterate("i", ROUND, i, n, 1, st, w).value.trace == st.trace + Restarted(acc, n)[i..]
    decreases n - i
  {
    if i < n {
      RoundRuns(i, n, st, w);
      RoundDirect();
      BlocksCount(i + 1, n, acc, Restart(st, Exec(ROUND, Enter(st, "i", i), w).value, Direct(ROUND)), w);
      assert Restarted(acc, n)[i..] == [Restarted(acc, n)[i]] + Restarted(acc, n)[i + 1..];
    }
  }

  lemma RoundDirect()
    ensures Direct(ROUND) == {}
  {
    assert ROUND[1..] == [REPORT] && [REPORT][1..] == [];
    assert Direct([]) == {} && Direct([REPORT]) == {};
  }

  /** The body is one that runs faithfully. */
  lemma RoundScoped(names: set<string>)
    requires {"i", "acc", "n"} <= names && "j" !in names
    ensures Plain(ROUND) && ScopedC(ROUND, names, {})
  {
    assert ROUND[1..] == [REPORT] && [REPORT][1..] == [] && [BUMP][1..] == [];
    assert Plain([]) && Plain([BUMP]) && Plain([REPORT]) && PlainStmt(INNER);
    assert Direct([]) == {} && Assigned([]) == {} && AssignedBy(BUMP) == {"acc"};
    assert Direct([BUMP]) == {"acc"} && Assigned([BUMP]) == {"acc"};
    assert ScopedC([], StmtNames(BUMP, names + {"j"}), StmtDead(BUMP, names + {"j"}, {"j"} - {"j"}));
    assert ScopedC([BUMP], names + {"j"}, {} - {"j"});
    assert StmtDead(INNER, names, {}) == {"j"};
    assert ScopedC([], names, {"j"}) && ScopedC([REPORT], names, {"j"});
  }

  lemma LoggingScoped(g: CGen)
    requires "acc" in g.env && "n" in g.env && "i" !in g.env && "j" !in g.env
    ensures PlainStmt(LOGGING) && RoundScopedC("i", Const(0), Var("n"), Const(1), ROUND, g.env.Keys - {}, {})
  {
    RoundDirect();
    assert g.env.Keys - {} == g.env.Keys && {} - {"i"} == {};
    RoundScoped(g.env.Keys + {"i"});
  }

  /**
   Two nested counting loops that report after each round: Python stores n, 2 * n, 3 * n and so on more, the blocks
   n more each time, because every iteration of the outer loop starts the counter over. The same is stored exactly
   for n <= 1.
   */
  lemma NestedCounterC(n: nat, g: CGen, g': CGen, st: State, s: Regs, f: Cfg, w: World) returns (s': Regs)
    requires g.Open() && "acc" in g.env && "n" in g.env && "i" !in g.env && "j" !in g.env
    requires MatchesC(g, {}, st, s, w) && st.env["n"] == n
    requires GenStmtC(LOGGING, g) == Some(g') && Completes(g'.blocks, f)
    ensures Reaches(f, At(g, s), At(g', s'), w) && s'.trace == st.trace + Restarted(st.env["acc"], n)
    ensures ExecStmt(LOGGING, st, w).Some?
    ensures ExecStmt(LOGGING, st, w).value.trace == st.trace + Counted(st.env["acc"], n)
    ensures s'.trace == ExecStmt(LOGGING, st, w).value.trace <==> n <= 1
  {
    assert "acc" in g.env - {} && "n" in g.env - {};
    var acc := st.env["acc"];
    PythonCounts(0, n, acc, st, w);
    assert ExecStmt(LOGGING, st, w) == Iterate("i", ROUND, 0, n, 1, st, w);
    BlocksCount(0, n, acc, st, w);
    LoggingScoped(g);
    s' := NestedOnlyC("i", Const(0), Var("n"), Const(1), ROUND, g, g', {}, st, s,
                      RestartIterate("i", ROUND, 0, n, 1, st, w).value, f, w);
    SameReports(st.trace, acc, n);
  }

  lemma SameReports(before: seq<Event>, acc: int, n: nat)
    ensures before + Restarted(acc, n) == before + Counted(acc, n) <==> n <= 1
  {
    if n > 1 {
      var k := |before| + 1;
      assert (before + Restarted(acc, n))[k] == Event("out", 1, acc + n);
      assert (before + Counted(acc, n))[k] == Event("out", 1, acc + n * 2);
    }
  }
}
