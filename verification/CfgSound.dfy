/**
 The control-flow lowering keeps the meaning of a kernel (language/smt_rvisa/llvm_direct.py), and so agrees
 with the structured lowering (language/smt_rvisa/codegen.py).
 */
module CfgSound {
  import opened Wrappers
  import opened KernelLang
  import opened Ssa
  import opened ScfLowering
  import opened CfgLowering

  // ------------------------------------------------------------------
  // Names that are not usable any more
  // ------------------------------------------------------------------

  function Reads(e: Expr): set<string> {
    match e
    case Var(x) => {x}
    case Const(_) => {}
    case Bin(_, l, r) => Reads(l) + Reads(r)
    case Load(_, idx) => Reads(idx)
    case VLoad(_, idx) => Reads(idx)
  }

  function StmtNames(s: Stmt, names: set<string>): set<string> {
    if s.Assign? then names + {s.name} else names
  }

  /** A loop leaves its variable and the names its body introduces dead; an assignment revives a name. */
  function StmtDead(s: Stmt, names: set<string>, dead: set<string>): set<string> {
    match s
    case Assign(x, _) => dead - {x}
    case For(x, _, _, _, body) => dead + {x} + (Assigned(body) - names)
    case _ => dead
  }

  function DeadAfter(ss: seq<Stmt>, names: set<string>, dead: set<string>): set<string> {
    if ss == [] then dead else DeadAfter(ss[1..], StmtNames(ss[0], names), StmtDead(ss[0], names, dead))
  }

  /**
   The programs that are translated faithfully. As for the structured form a loop variable is fresh and an
   outer variable that a body assigns is assigned by the body itself. A dead name is not read, and not assigned
   in another loop, before it is assigned again.
   */
  predicate ScopedC(ss: seq<Stmt>, names: set<string>, dead: set<string>)
    decreases ss, 0
  {
    ss == [] ||
    (StmtScopedC(ss[0], names, dead) && ScopedC(ss[1..], StmtNames(ss[0], names), StmtDead(ss[0], names, dead)))
  }

  predicate StmtScopedC(s: Stmt, names: set<string>, dead: set<string>)
    decreases s, 1
  {
    match s
    case Assign(x, e) => Reads(e) !! dead
    case Store(_, idx, val) => Reads(idx) !! dead && Reads(val) !! dead
    case For(x, lb, ub, step, body) =>
      && Reads(lb) !! dead && Reads(ub) !! dead && Reads(step) !! dead
      && x !in names && Assigned(body) * names <= Direct(body) && Direct(body) !! dead
      && ScopedC(body, names + {x}, dead - {x})
    case _ => false
  }

  /** A usable name stays usable. */
  lemma {:induction false} StaysLive(ss: seq<Stmt>, names: set<string>, dead: set<string>, y: string)
    requires y in names && y !in dead && ScopedC(ss, names, dead)
    ensures y !in DeadAfter(ss, names, dead)
  {
    if ss != [] { StaysLive(ss[1..], StmtNames(ss[0], names), StmtDead(ss[0], names, dead), y); }
  }

  lemma {:induction false} DeadGrows(ss: seq<Stmt>, names: set<string>, dead: set<string>)
    ensures DeadAfter(ss, names, dead) <= dead + Assigned(ss)
  {
    if ss != [] { DeadGrows(ss[1..], StmtNames(ss[0], names), StmtDead(ss[0], names, dead)); }
  }

  /** Dead names make no difference to an expression that does not read them. */
  lemma {:induction false} ExprLive(e: Expr, env: map<string, Value>, dead: set<string>, next: Value)
    requires Reads(e) !! dead
    ensures GenExpr(e, Scope(env, map[], None, None), next) == GenExpr(e, Scope(env - dead, map[], None, None), next)
  {
    match e
    case Bin(_, l, r) =>
      ExprLive(l, env, dead, next);
      var a := GenExpr(l, Scope(env, map[], None, None), next);
      if a.Some? { ExprLive(r, env, dead, a.value.next); }
    case Load(_, idx) => ExprLive(idx, env, dead, next);
    case _ =>
  }

  // ------------------------------------------------------------------
  // Running the blocks of a finished function
  // ------------------------------------------------------------------

  /** The finished function has the blocks built so far, possibly filled further where they are still open. */
  ghost predicate Completes(g: Cfg, f: Cfg) {
    |g| <= |f| && forall i :: 0 <= i < |g| ==> BlockCompletes(g[i], f[i])
  }

  ghost predicate BlockCompletes(b: Block, c: Block) {
    c.first == b.first && b.code <= c.code && (b.term.Some? ==> c == b)
  }

  lemma CompletesBack(g: CGen, g': CGen, f: Cfg)
    requires g.Open() && Extends(g, g') && Completes(g'.blocks, f)
    ensures Completes(g.blocks, f)
  {
    forall i | 0 <= i < |g.blocks| ensures BlockCompletes(g.blocks[i], f[i]) {
      assert BlockCompletes(g'.blocks[i], f[i]);
    }
  }

  /** Where the translation stands, as a point of the finished function. */
  function At(g: CGen, s: Regs): Point
    requires g.Open()
  {
    Point(g.cur, |g.blocks[g.cur].code|, s)
  }

  lemma RunAdded(g: CGen, code: seq<Ins>, s: Regs, f: Cfg, w: World)
    requires g.Open() && g.cur < |f| && g.blocks[g.cur].code + code <= f[g.cur].code
    ensures Reaches(f, At(g, s), Point(g.cur, |g.blocks[g.cur].code| + |code|, RunCode(code, s, w)), w)
  {
    ReachesCode(f, g.cur, |g.blocks[g.cur].code|, code, s, w);
  }

  // ------------------------------------------------------------------
  // Statements without loops
  // ------------------------------------------------------------------

  /** The translation state without the dead names. */
  function LiveGen(g: CGen, dead: set<string>): Gen {
    Gen(Scope(g.env - dead, map[], None, None), g.next)
  }

  ghost predicate MatchesC(g: CGen, dead: set<string>, st: State, s: Regs, w: World) {
    Matches(LiveGen(g, dead), st, s, w)
  }

  lemma Revive(env: map<string, Value>, dead: set<string>, x: string, v: Value)
    ensures env[x := v] - (dead - {x}) == (env - dead)[x := v]
  {
  }

  lemma AssignC(x: string, e: Expr, g: CGen, dead: set<string>, st: State, s: Regs, f: Cfg, w: World) returns (s': Regs)
    requires g.Open() && PlainExpr(e) && Reads(e) !! dead && MatchesC(g, dead, st, s, w)
    requires GenStmtC(Assign(x, e), g).Some? && Completes(GenStmtC(Assign(x, e), g).value.blocks, f)
    ensures ExecStmt(Assign(x, e), st, w).Some?
    ensures var g' := GenStmtC(Assign(x, e), g).value;
            && Reaches(f, At(g, s), At(g', s'), w) && Keeps(s.vals, s'.vals, g.next)
            && MatchesC(g', dead - {x}, ExecStmt(Assign(x, e), st, w).value, s', w)
  {
    var c := GenExpr(e, g.Scope(), g.next).value;
    var g' := GenStmtC(Assign(x, e), g).value;
    var live := LiveGen(g, dead);
    ExprLive(e, g.env, dead, g.next);
    ExprSound(e, live.scope, g.next, st, s, w);
    s' := RunCode(c.ins, s, w);
    assert BlockCompletes(g'.blocks[g.cur], f[g.cur]);
    RunAdded(g, c.ins, s, f, w);
    Revive(g.env, dead, x, c.val);
    AgreeKept(live.scope.env, g.next, c.next, st.env, s.vals, s'.vals, map[]);
  }

  lemma StoreC(buf: string, idx: Expr, val: Expr, g: CGen, dead: set<string>, st: State, s: Regs, f: Cfg, w: World)
    returns (s': Regs)
    requires g.Open() && PlainExpr(idx) && PlainExpr(val) && Reads(idx) !! dead && Reads(val) !! dead
    requires MatchesC(g, dead, st, s, w)
    requires GenStmtC(Store(buf, idx, val), g).Some? && Completes(GenStmtC(Store(buf, idx, val), g).value.blocks, f)
    ensures ExecStmt(Store(buf, idx, val), st, w).Some?
    ensures var g' := GenStmtC(Store(buf, idx, val), g).value;
            && Reaches(f, At(g, s), At(g', s'), w) && Keeps(s.vals, s'.vals, g.next)
            && MatchesC(g', dead, ExecStmt(Store(buf, idx, val), st, w).value, s', w)
  {
    var i := GenExpr(idx, g.Scope(), g.next).value;
    var v := GenExpr(val, g.Scope(), i.next).value;
    var last := [IStore(buf, i.val, v.val)];
    var g' := GenStmtC(Store(buf, idx, val), g).value;
    var live := LiveGen(g, dead);
    ExprLive(idx, g.env, dead, g.next);
    ExprLive(val, g.env, dead, i.next);
    PairSound(idx, val, live.scope, g.next, st, s, w);
    RunCodeAppend(i.ins + v.ins, last, s, w);
    s' := RunCode(i.ins + v.ins + last, s, w);
    assert BlockCompletes(g'.blocks[g.cur], f[g.cur]);
    RunAdded(g, i.ins + v.ins + last, s, f, w);
  }

  // ------------------------------------------------------------------
  // Loops
  // ------------------------------------------------------------------

  /** A loop being translated: its bounds, the state in front of it, and the state behind its body. */
  datatype Loop = Loop(x: string, body: seq<Stmt>, c: Bounds, g: CGen, dead: set<string>, inner: CGen)
  {
    function Names(): seq<string> { FindReassigned(body, g.env.Keys) }

    function Header(): nat { |g.blocks| }

    /** The state in front of the loop with the usable names only. */
    function Live(): Gen { Gen(Scope(g.env - dead, map[], None, None), c.next) }

    function Usable(): set<string> { g.env.Keys - dead }

    ghost predicate Translated() {
      && g.Open() && g.next <= c.next && c.ub < c.next && c.step < c.next
      && GenBlockC(body, EnterLoopC(x, Names(), c, g)) == Some(inner)
    }

    /** Enough to reach the header and the body. */
    predicate Fits() { x !in Usable() && Direct(body) !! dead }

    /** One run of the body is translated faithfully. */
    predicate BodyOk() { Fits() && Plain(body) && ScopedC(body, Usable() + {x}, dead - {x}) }

    /** All runs are: what the body assigns is carried to the next one. */
    predicate Ok() { BodyOk() && Assigned(body) * Usable() <= Direct(body) }

    function Finished(): CGen
      requires inner.Open() && forall y :: y in Names() ==> y in inner.env
    {
      LeaveLoopC(Names(), c, Header(), inner)
    }
  }

  /** The blocks of a loop in the finished function. */
  ghost predicate HasLoop(l: Loop, f: Cfg)
    requires l.Translated()
  {
    var h, names, k := l.Header(), l.Names(), l.c.next + 1 + |l.Names()|;
    && h + 2 < |f| && l.inner.cur < |f|
    && l.g.blocks[l.g.cur].code + l.c.ins == f[l.g.cur].code
    && f[l.g.cur].term == Some(Br([l.c.lb] + Lookup(l.g.env, names), h))
    && f[h] == Block(l.c.next, [ICmpLt(k, l.c.next, l.c.ub)], Some(CondBr(k, h + 1, h + 2)))
    && f[l.inner.cur].code == l.inner.blocks[l.inner.cur].code + [IBin(l.inner.next, Plus, l.c.next, l.c.step)]
    && f[l.inner.cur].term == Some(Br([l.inner.next] + Lookup(l.inner.env, names), h))
    && Completes(l.inner.blocks, f)
  }

  lemma LoopBlocks(l: Loop, f: Cfg)
    requires l.Translated() && Completes(l.Finished().blocks, f)
    ensures HasLoop(l, f)
  {
    var entered, done := EnterLoopC(l.x, l.Names(), l.c, l.g), l.Finished();
    var h := l.Header();
    assert entered.blocks[l.g.cur] == done.blocks[l.g.cur];
    assert entered.blocks[h] == done.blocks[h];
    assert BlockCompletes(done.blocks[l.g.cur], f[l.g.cur]);
    assert BlockCompletes(done.blocks[h], f[h]);
    assert BlockCompletes(done.blocks[l.inner.cur], f[l.inner.cur]);
    forall i | 0 <= i < |l.inner.blocks| ensures BlockCompletes(l.inner.blocks[i], f[i]) {
      assert BlockCompletes(done.blocks[i], f[i]);
    }
  }

  lemma NamesUsable(l: Loop)
    requires l.Fits()
    ensures Distinct(l.Names())
    ensures forall y :: y in l.Names() <==> y in l.Usable() && y in Direct(l.body)
  {
  }

  /** At the header: the arguments hold the induction variable and the carried names, the bounds are intact. */
  ghost predicate HeaderOk(l: Loop, ub: int, step: int, st: State, i: int, r: Regs, w: World) {
    && Matches(BodyGen(l.Live(), l.x, l.Names()), Enter(st, l.x, i), r, w)
    && l.c.ub in r.vals && r.vals[l.c.ub] == ub && l.c.step in r.vals && r.vals[l.c.step] == step
    && forall y :: y in l.Live().scope.env ==> l.Live().scope.env[y] < l.c.next
  }

  /** The body is translated under the names of the header's arguments. */
  lemma BodyEnv(l: Loop)
    requires l.Translated() && l.Fits()
    ensures EnterLoopC(l.x, l.Names(), l.c, l.g).env - (l.dead - {l.x}) == BodyGen(l.Live(), l.x, l.Names()).scope.env
    ensures EnterLoopC(l.x, l.Names(), l.c, l.g).env.Keys - (l.dead - {l.x}) == l.Usable() + {l.x}
  {
    NamesUsable(l);
    BoundEnv(l.g.env, l.dead, l.x, l.c.next, l.Names());
  }

  lemma BoundEnv(env: map<string, Value>, dead: set<string>, x: string, iv: Value, names: seq<string>)
    requires x !in env.Keys - dead && forall y :: y in names ==> y in env && y !in dead
    ensures BindNames(env[x := iv], names, iv + 1) - (dead - {x}) == BindNames(env - dead, names, iv + 1)[x := iv]
  {
  }

  lemma {:induction false} BindFirst(vals: map<Value, int>, first: Value, i: int, xs: seq<int>)
    ensures Bind(vals, first, [i] + xs) == Bind(vals[first := i], first + 1, xs)
  {
    var n := |xs|;
    assert ([i] + xs)[..n] == if n == 0 then [] else [i] + xs[..n - 1];
    if n > 0 { BindFirst(vals, first, i, xs[..n - 1]); }
  }

  /** Branching to the header binds its arguments. */
  lemma EnterHeader(l: Loop, ub: int, step: int, st: State, i: int, xs: seq<int>, r: Regs, w: World)
    requires l.x !in l.Usable() && l.c.ub < l.c.next && l.c.step < l.c.next
    requires Carried(l.Live(), l.Names(), st, r, xs, w)
    requires l.c.ub in r.vals && r.vals[l.c.ub] == ub && l.c.step in r.vals && r.vals[l.c.step] == step
    ensures HeaderOk(l, ub, step, st, i, r.(vals := Bind(r.vals, l.c.next, [i] + xs)), w)
    ensures Keeps(r.vals, Bind(r.vals, l.c.next, [i] + xs), l.c.next)
  {
    BindFirst(r.vals, l.c.next, i, xs);
    EnterBody(l.x, l.Names(), l.Live(), i, st, r, xs, w);
    BindKeeps(r.vals, l.c.next, [i] + xs, l.c.next);
  }

  /** The header compares and branches. */
  lemma HeaderTest(l: Loop, f: Cfg, r: Regs, w: World) returns (r1: Regs)
    requires l.Translated() && HasLoop(l, f)
    ensures r1 == r.Set(l.c.next + 1 + |l.Names()|, if r.Get(l.c.next) < r.Get(l.c.ub) then 1 else 0)
    ensures Reaches(f, Point(l.Header(), 0, r),
                    Point(if r.Get(l.c.next) < r.Get(l.c.ub) then l.Header() + 1 else l.Header() + 2, 0, r1), w)
  {
    var p := Point(l.Header(), 0, r);
    r1 := RunIns(f[l.Header()].code[0], r, w);
    var q := Point(l.Header(), 1, r1);
    ReachesStep(f, p, w);
    ReachesStep(f, q, w);
    assert Step(f, p, w) == q;
    ReachesThen(f, p, q, Step(f, q, w), w);
  }

  /** In front of the body. */
  lemma BodyStart(l: Loop, ub: int, step: int, st: State, i: int, r: Regs, n: int, w: World)
    requires l.Translated() && l.Fits() && HeaderOk(l, ub, step, st, i, r, w)
    ensures var r1 := r.Set(l.c.next + 1 + |l.Names()|, n);
            && MatchesC(EnterLoopC(l.x, l.Names(), l.c, l.g), l.dead - {l.x}, Enter(st, l.x, i), r1, w)
            && Keeps(r.vals, r1.vals, l.c.next)
  {
    var r1 := r.Set(l.c.next + 1 + |l.Names()|, n);
    BodyEnv(l);
    var body := BodyGen(l.Live(), l.x, l.Names());
    AgreeKept(body.scope.env, body.next, body.next + 1, Enter(st, l.x, i).env, r.vals, r1.vals, map[]);
  }

  /** The registers behind the last instruction of the body. */
  function Bumped(l: Loop, r2: Regs): Regs { r2.Set(l.inner.next, r2.Get(l.c.next) + r2.Get(l.c.step)) }

  /** What the body hands to the next iteration. */
  function Outs(l: Loop, r2: Regs): seq<int>
    requires l.Translated()
  {
    Values(Bumped(l, r2), Lookup(l.inner.env, l.Names()))
  }

  /** The registers back at the header. */
  function Looped(l: Loop, r2: Regs): Regs
    requires l.Translated()
  {
    var r3 := Bumped(l, r2);
    r3.(vals := Bind(r3.vals, l.c.next, [r3.Get(l.inner.next)] + Outs(l, r2)))
  }

  /** From the end of the body back to the header. */
  lemma BackEdge(l: Loop, f: Cfg, r2: Regs, w: World)
    requires l.Translated() && HasLoop(l, f)
    ensures Reaches(f, At(l.inner, r2), Point(l.Header(), 0, Looped(l, r2)), w)
  {
    var p, q := At(l.inner, r2), AfterBump(l, r2);
    ReachesStep(f, p, w);
    ReachesStep(f, q, w);
    CountUp(l, f, r2, w);
    BranchBack(l, f, r2, w);
    ReachesThen(f, p, q, Step(f, q, w), w);
  }

  /** At the branch back to the header. */
  function AfterBump(l: Loop, r2: Regs): Point
    requires l.Translated()
  {
    Point(l.inner.cur, |l.inner.blocks[l.inner.cur].code| + 1, Bumped(l, r2))
  }

  lemma CountUp(l: Loop, f: Cfg, r2: Regs, w: World)
    requires l.Translated() && HasLoop(l, f)
    ensures Step(f, At(l.inner, r2), w) == AfterBump(l, r2)
  {
  }

  lemma BranchBack(l: Loop, f: Cfg, r2: Regs, w: World)
    requires l.Translated() && HasLoop(l, f)
    ensures Step(f, AfterBump(l, r2), w) == Point(l.Header(), 0, Looped(l, r2))
  {
    var r3, names := Bumped(l, r2), Lookup(l.inner.env, l.Names());
    assert Values(r3, [l.inner.next] + names) == [r3.Get(l.inner.next)] + Outs(l, r2);
  }

  /** A usable name that the loop does not carry keeps its value through the body. */
  lemma OthersStay(l: Loop, ub: int, step: int, st: State, i: int, r: Regs, st2: State, r2: Regs, y: string, w: World)
    requires l.Ok() && HeaderOk(l, ub, step, st, i, r, w)
    requires Exec(l.body, Enter(st, l.x, i), w) == Some(st2) && Keeps(r.vals, r2.vals, l.c.next)
    requires y in l.Live().scope.env && y !in l.Names()
    ensures y in st2.env && l.Live().scope.env[y] in r2.vals && r2.vals[l.Live().scope.env[y]] == st2.env[y]
  {
    NamesUsable(l);
    assert BodyGen(l.Live(), l.x, l.Names()).scope.env[y] == l.Live().scope.env[y];
    DirectAssigned(l.body);
    ExecFrame(l.body, Enter(st, l.x, i), w, y);
  }

  /** A carried name is bound behind the body. */
  lemma CarriedBound(l: Loop, st2: State, r2: Regs, y: string, w: World)
    requires l.Translated() && l.BodyOk() && y in l.Names()
    requires MatchesC(l.inner, DeadAfter(l.body, l.Usable() + {l.x}, l.dead - {l.x}), st2, r2, w)
    ensures y in st2.env && l.inner.env[y] < l.inner.next && r2.Get(l.inner.env[y]) == st2.env[y]
  {
    NamesUsable(l);
    StaysLive(l.body, l.Usable() + {l.x}, l.dead - {l.x}, y);
    assert y in l.inner.env - DeadAfter(l.body, l.Usable() + {l.x}, l.dead - {l.x});
  }

  /** What the body leaves is what the next iteration starts from. */
  lemma BodyCarries(l: Loop, ub: int, step: int, st: State, i: int, r: Regs, st2: State, r2: Regs, w: World)
    requires l.Translated() && l.Ok() && HeaderOk(l, ub, step, st, i, r, w)
    requires Exec(l.body, Enter(st, l.x, i), w) == Some(st2)
    requires MatchesC(l.inner, DeadAfter(l.body, l.Usable() + {l.x}, l.dead - {l.x}), st2, r2, w)
    requires Keeps(r.vals, r2.vals, l.c.next)
    ensures Carried(l.Live(), l.Names(), st2, Bumped(l, r2), Outs(l, r2), w)
  {
    var gl, names := l.Live(), l.Names();
    forall j | 0 <= j < |names| ensures names[j] in st2.env && Outs(l, r2)[j] == st2.env[names[j]] {
      CarriedBound(l, st2, r2, names[j], w);
    }
    forall y | y in gl.scope.env && y !in names
      ensures y in st2.env && gl.scope.env[y] in Bumped(l, r2).vals && Bumped(l, r2).vals[gl.scope.env[y]] == st2.env[y]
    {
      OthersStay(l, ub, step, st, i, r, st2, r2, y, w);
    }
    forall y | y in gl.scope.env ensures y in st2.env {
      if y in names { CarriedBound(l, st2, r2, y, w); }
    }
  }

  /** Translation binds no name that the statements do not assign, and leaves the value number of the others. */
  lemma {:induction false} EnvFrame(ss: seq<Stmt>, g: CGen, y: string)
    requires g.Open() && GenBlockC(ss, g).Some? && y !in Assigned(ss)
    ensures var env := GenBlockC(ss, g).value.env;
            (y in env <==> y in g.env) && (y in env ==> env[y] == g.env[y])
    decreases ss, 0
  {
    if ss != [] {
      StmtEnvFrame(ss[0], g, y);
      EnvFrame(ss[1..], GenStmtC(ss[0], g).value, y);
    }
  }

  lemma {:induction false} StmtEnvFrame(t: Stmt, g: CGen, y: string)
    requires g.Open() && GenStmtC(t, g).Some? && y !in AssignedBy(t)
    ensures var env := GenStmtC(t, g).value.env;
            (y in env <==> y in g.env) && (y in env ==> env[y] == g.env[y])
    decreases t, 2
  {
    if t.For? {
      LoopEnvFrame(t.loopVar, t.body, GenBounds(t.lb, t.ub, t.step, Gen(g.Scope(), g.next)).value, g, y);
    }
  }

  lemma {:induction false} LoopEnvFrame(x: string, body: seq<Stmt>, c: Bounds, g: CGen, y: string)
    requires g.Open() && g.next <= c.next && GenLoopC(x, body, c, g).Some? && y != x && y !in Assigned(body)
    ensures var env := GenLoopC(x, body, c, g).value.env;
            (y in env <==> y in g.env) && (y in env ==> env[y] == g.env[y])
    decreases body, 1
  {
    var names := FindReassigned(body, g.env.Keys);
    DirectAssigned(body);
    assert y !in names;
    EnvFrame(body, EnterLoopC(x, names, c, g), y);
  }

  function LoopDead(l: Loop): set<string> { l.dead + {l.x} + (Assigned(l.body) - l.Usable()) }

  /** The names that are usable behind the loop are those that were usable in front of it. */
  lemma UsableBehind(l: Loop)
    requires l.Translated() && l.Ok()
    ensures l.Finished().env.Keys - LoopDead(l) == l.Usable()
  {
    forall y | y in l.Finished().env.Keys - LoopDead(l) ensures y in l.Usable() {
      if y !in Assigned(l.body) { EnvFrame(l.body, EnterLoopC(l.x, l.Names(), l.c, l.g), y); }
    }
  }

  lemma NumberBehind(l: Loop, y: string)
    requires l.Translated() && l.BodyOk() && y in l.Usable() && (y in Assigned(l.body) ==> y in Direct(l.body))
    ensures y in l.Finished().env
    ensures l.Finished().env[y] == BodyGen(l.Live(), l.x, l.Names()).scope.env[y]
    ensures y in l.Names() ==> l.Finished().env[y] < l.c.next + 1 + |l.Names()|
  {
    NamesUsable(l);
    if y !in l.Names() { EnvFrame(l.body, EnterLoopC(l.x, l.Names(), l.c, l.g), y); }
  }

  /** Behind the loop: the carried names are found in the header's arguments. */
  lemma LoopExit(l: Loop, ub: int, step: int, st: State, i: int, r: Regs, n: int, w: World)
    requires l.Translated() && l.Ok() && HeaderOk(l, ub, step, st, i, r, w)
    ensures var r1 := r.Set(l.c.next + 1 + |l.Names()|, n);
            MatchesC(l.Finished(), LoopDead(l), st, r1, w) && Keeps(r.vals, r1.vals, l.c.next)
  {
    var r1 := r.Set(l.c.next + 1 + |l.Names()|, n);
    UsableBehind(l);
    forall y | y in LiveGen(l.Finished(), LoopDead(l)).scope.env
      ensures EnteredName(LiveGen(l.Finished(), LoopDead(l)), st.env, r1.vals, y)
    {
      assert y in l.Finished().env.Keys - LoopDead(l);
      ExitName(l, ub, step, st, i, r, n, y, w);
    }
  }

  lemma ExitName(l: Loop, ub: int, step: int, st: State, i: int, r: Regs, n: int, y: string, w: World)
    requires l.Translated() && l.BodyOk() && HeaderOk(l, ub, step, st, i, r, w)
    requires y in l.Usable() && (y in Assigned(l.body) ==> y in Direct(l.body))
    ensures y in l.Finished().env && y in st.env && l.Finished().env[y] < l.Finished().next
    ensures var r1 := r.Set(l.c.next + 1 + |l.Names()|, n);
            l.Finished().env[y] in r1.vals && r1.vals[l.Finished().env[y]] == st.env[y]
  {
    NumberBehind(l, y);
    assert y in BodyGen(l.Live(), l.x, l.Names()).scope.env;
  }

  /** Translation and execution of statements that are related in the finished function. */
  ghost predicate Agrees(g: CGen, s: Regs, g': CGen, dead': set<string>, st': State, s': Regs, f: Cfg, w: World)
    requires g.Open() && g'.Open()
  {
    Reaches(f, At(g, s), At(g', s'), w) && MatchesC(g', dead', st', s', w) && Keeps(s.vals, s'.vals, g.next)
  }

  /** Running the blocks of translated statements ends with the values and the stores of the Python run. */
  lemma {:induction false} BlockC(ss: seq<Stmt>, g: CGen, g': CGen, names: set<string>, dead: set<string>,
                                  st: State, s: Regs, st': State, f: Cfg, w: World) returns (s': Regs)
    requires g.Open() && Plain(ss) && names == g.env.Keys - dead && ScopedC(ss, names, dead)
    requires MatchesC(g, dead, st, s, w) && GenBlockC(ss, g) == Some(g') && Exec(ss, st, w) == Some(st')
    requires Completes(g'.blocks, f)
    ensures Agrees(g, s, g', DeadAfter(ss, names, dead), st', s', f, w)
    decreases ss, 0, 0
  {
    if ss == [] {
      s' := s;
      ReachesStep(f, At(g, s), w);
    } else {
      var g1, st1 := GenStmtC(ss[0], g).value, ExecStmt(ss[0], st, w).value;
      CompletesBack(g1, g', f);
      var s1 := StmtC(ss[0], g, g1, dead, st, s, st1, f, w);
      s' := BlockC(ss[1..], g1, g', StmtNames(ss[0], names), StmtDead(ss[0], names, dead), st1, s1, st', f, w);
      ReachesThen(f, At(g, s), At(g1, s1), At(g', s'), w);
    }
  }

  lemma {:induction false} StmtC(t: Stmt, g: CGen, g': CGen, dead: set<string>, st: State, s: Regs, st': State,
                                 f: Cfg, w: World) returns (s': Regs)
    requires g.Open() && PlainStmt(t) && StmtScopedC(t, g.env.Keys - dead, dead)
    requires MatchesC(g, dead, st, s, w) && GenStmtC(t, g) == Some(g') && ExecStmt(t, st, w) == Some(st')
    requires Completes(g'.blocks, f)
    ensures Agrees(g, s, g', StmtDead(t, g.env.Keys - dead, dead), st', s', f, w)
    ensures g'.env.Keys - StmtDead(t, g.env.Keys - dead, dead) == StmtNames(t, g.env.Keys - dead)
    decreases t, 4, 0
  {
    match t
    case Assign(x, e) => s' := AssignC(x, e, g, dead, st, s, f, w);
    case Store(buf, idx, val) => s' := StoreC(buf, idx, val, g, dead, st, s, f, w);
    case For(x, lb, ub, step, body) =>
      var c := GenBounds(lb, ub, step, Gen(g.Scope(), g.next)).value;
      s' := ForC(x, lb, ub, step, body, c, g, g', dead, st, s, st', f, w);
  }

  /** The bounds are evaluated in front of the loop, under the usable names. */
  lemma BoundsC(lb: Expr, ub: Expr, step: Expr, c: Bounds, g: CGen, dead: set<string>, st: State, s: Regs, w: World)
    requires PlainExpr(lb) && PlainExpr(ub) && PlainExpr(step) && g.Open() && MatchesC(g, dead, st, s, w)
    requires Reads(lb) !! dead && Reads(ub) !! dead && Reads(step) !! dead
    requires GenBounds(lb, ub, step, Gen(g.Scope(), g.next)) == Some(c)
    ensures var s1 := RunCode(c.ins, s, w);
            && Matches(Gen(LiveGen(g, dead).scope, c.next), st, s1, w) && Keeps(s.vals, s1.vals, g.next)
            && Eval(lb, st, w) == Some(s1.Get(c.lb)) && Eval(ub, st, w) == Some(s1.Get(c.ub))
            && Eval(step, st, w) == Some(s1.Get(c.step))
            && c.ub in s1.vals && c.step in s1.vals && c.ub < c.next && c.step < c.next
  {
    var a := GenExpr(lb, g.Scope(), g.next).value;
    var b := GenExpr(ub, g.Scope(), a.next).value;
    ExprLive(lb, g.env, dead, g.next);
    ExprLive(ub, g.env, dead, a.next);
    ExprLive(step, g.env, dead, b.next);
    BoundsSound(lb, ub, step, LiveGen(g, dead), st, s, w);
  }

  lemma {:induction false} ForC(x: string, lb: Expr, ub: Expr, step: Expr, body: seq<Stmt>, c: Bounds, g: CGen,
                                g': CGen, dead: set<string>, st: State, s: Regs, st': State, f: Cfg, w: World)
    returns (s': Regs)
    requires g.Open() && StmtScopedC(For(x, lb, ub, step, body), g.env.Keys - dead, dead)
    requires PlainStmt(For(x, lb, ub, step, body)) && MatchesC(g, dead, st, s, w)
    requires GenBounds(lb, ub, step, Gen(g.Scope(), g.next)) == Some(c) && GenLoopC(x, body, c, g) == Some(g')
    requires ExecStmt(For(x, lb, ub, step, body), st, w) == Some(st') && Completes(g'.blocks, f)
    ensures Agrees(g, s, g', StmtDead(For(x, lb, ub, step, body), g.env.Keys - dead, dead), st', s', f, w)
    ensures g'.env.Keys - StmtDead(For(x, lb, ub, step, body), g.env.Keys - dead, dead) == g.env.Keys - dead
    ensures s'.Get(c.next) >= Eval(ub, st, w).value
    decreases body, 3, 0
  {
    var inner := GenBlockC(body, EnterLoopC(x, FindReassigned(body, g.env.Keys), c, g)).value;
    var l := Loop(x, body, c, g, dead, inner);
    var s1 := RunCode(c.ins, s, w);
    BoundsC(lb, ub, step, c, g, dead, st, s, w);
    LoopBlocks(l, f);
    UsableBehind(l);
    TripsOk(l, f, s1.Get(c.ub), s1.Get(c.step), w);
    s' := ThroughLoop(l, f, s1.Get(c.lb), s1.Get(c.ub), s1.Get(c.step), st, s, st', w);
  }

  /** A loop from the evaluation of its bounds to its exit block. */
  lemma ThroughLoop(l: Loop, f: Cfg, lb: int, ub: int, step: int, st: State, s: Regs, st': State, w: World)
    returns (s': Regs)
    requires l.Translated() && HasLoop(l, f) && l.Ok()
    requires step > 0 && forall st, i, next, r :: TripOk(l, f, ub, step, st, i, next, r, w)
    requires Matches(l.Live(), st, RunCode(l.c.ins, s, w), w) && Keeps(s.vals, RunCode(l.c.ins, s, w).vals, l.g.next)
    requires var s1 := RunCode(l.c.ins, s, w);
             && l.c.ub in s1.vals && s1.vals[l.c.ub] == ub && l.c.step in s1.vals && s1.vals[l.c.step] == step
             && s1.Get(l.c.lb) == lb
    requires Iterate(l.x, l.body, lb, ub, step, st, w) == Some(st')
    ensures Agrees(l.g, s, l.Finished(), LoopDead(l), st', s', f, w) && s'.Get(l.c.next) >= ub
  {
    var r := ReachHeader(l, f, ub, step, st, s, w);
    var r1, i := LoopC(l, f, ub, step, st, lb, r, st', w);
    s' := LeaveLoop(l, f, ub, step, st', i, r1, w);
    ReachesThen(f, At(l.g, s), Point(l.Header(), 0, r), Point(l.Header(), 0, r1), w);
    ReachesThen(f, At(l.g, s), Point(l.Header(), 0, r1), At(l.Finished(), s'), w);
  }

  lemma AtHeader(l: Loop, ub: int, step: int, st: State, i: int, r: Regs, w: World)
    requires HeaderOk(l, ub, step, st, i, r, w)
    ensures r.Get(l.c.next) == i && r.Get(l.c.ub) == ub && r.Get(l.c.step) == step && l.c.next in r.vals
  {
    assert l.x in BodyGen(l.Live(), l.x, l.Names()).scope.env;
  }

  /** From in front of the loop to its header. */
  lemma ReachHeader(l: Loop, f: Cfg, ub: int, step: int, st: State, s: Regs, w: World) returns (r: Regs)
    requires l.Translated() && HasLoop(l, f) && l.Fits()
    requires Matches(l.Live(), st, RunCode(l.c.ins, s, w), w) && Keeps(s.vals, RunCode(l.c.ins, s, w).vals, l.g.next)
    requires var s1 := RunCode(l.c.ins, s, w);
             l.c.ub in s1.vals && s1.vals[l.c.ub] == ub && l.c.step in s1.vals && s1.vals[l.c.step] == step
    ensures Reaches(f, At(l.g, s), Point(l.Header(), 0, r), w)
    ensures HeaderOk(l, ub, step, st, RunCode(l.c.ins, s, w).Get(l.c.lb), r, w) && Keeps(s.vals, r.vals, l.g.next)
  {
    var s1, names := RunCode(l.c.ins, s, w), l.Names();
    var xs := Values(s1, Lookup(l.g.env, names));
    var q := Point(l.g.cur, |l.g.blocks[l.g.cur].code| + |l.c.ins|, s1);
    RunAdded(l.g, l.c.ins, s, f, w);
    r := s1.(vals := Bind(s1.vals, l.c.next, [s1.Get(l.c.lb)] + xs));
    assert Values(s1, [l.c.lb] + Lookup(l.g.env, names)) == [s1.Get(l.c.lb)] + xs;
    assert Step(f, q, w) == Point(l.Header(), 0, r);
    ReachesStep(f, q, w);
    ReachesThen(f, At(l.g, s), q, Point(l.Header(), 0, r), w);
    NamesUsable(l);
    StartLoop(names, l.Live(), st, s1, w);
    assert Lookup(l.Live().scope.env, names) == Lookup(l.g.env, names);
    EnterHeader(l, ub, step, st, s1.Get(l.c.lb), xs, s1, w);
  }

  /** One trip around the loop, wherever it starts. */
  ghost predicate TripOk(l: Loop, f: Cfg, ub: int, step: int, st: State, i: int, next: int, r: Regs, w: World) {
    HeaderOk(l, ub, step, st, i, r, w) && i < ub && next == i + step && Exec(l.body, Enter(st, l.x, i), w).Some? ==>
      Trips(l, f, ub, step, Exec(l.body, Enter(st, l.x, i), w).value, next, r, w)
  }

  ghost predicate Trips(l: Loop, f: Cfg, ub: int, step: int, st: State, i: int, r: Regs, w: World) {
    exists r' :: TripTo(l, f, ub, step, st, i, r, r', w)
  }

  ghost predicate TripTo(l: Loop, f: Cfg, ub: int, step: int, st: State, i: int, r: Regs, r': Regs, w: World) {
    && Reaches(f, Point(l.Header(), 0, r), Point(l.Header(), 0, r'), w)
    && HeaderOk(l, ub, step, st, i, r', w) && Keeps(r.vals, r'.vals, l.c.next)
  }

  lemma {:induction false} LoopC(l: Loop, f: Cfg, ub: int, step: int, st: State, i: int, r: Regs, st': State, w: World)
    returns (r': Regs, i': int)
    requires step > 0 && forall st, i, next, r :: TripOk(l, f, ub, step, st, i, next, r, w)
    requires HeaderOk(l, ub, step, st, i, r, w) && Iterate(l.x, l.body, i, ub, step, st, w) == Some(st')
    ensures TripTo(l, f, ub, step, st', i', r, r', w) && i' >= ub
    decreases ub - i
  {
    if i >= ub {
      r', i' := r, i;
      ReachesStep(f, Point(l.Header(), 0, r), w);
    } else {
      var st2, next := Exec(l.body, Enter(st, l.x, i), w).value, i + step;
      assert TripOk(l, f, ub, step, st, i, next, r, w);
      var r1 :| TripTo(l, f, ub, step, st2, next, r, r1, w);
      r', i' := LoopC(l, f, ub, step, st2, next, r1, st', w);
      ReachesThen(f, Point(l.Header(), 0, r), Point(l.Header(), 0, r1), Point(l.Header(), 0, r'), w);
    }
  }

  /** From the header into the body. */
  lemma BeforeBody(l: Loop, f: Cfg, ub: int, step: int, st: State, i: int, r: Regs, w: World) returns (r1: Regs)
    requires l.Translated() && HasLoop(l, f) && l.Fits()
    requires HeaderOk(l, ub, step, st, i, r, w) && i < ub
    ensures Reaches(f, Point(l.Header(), 0, r), At(EnterLoopC(l.x, l.Names(), l.c, l.g), r1), w)
    ensures MatchesC(EnterLoopC(l.x, l.Names(), l.c, l.g), l.dead - {l.x}, Enter(st, l.x, i), r1, w)
    ensures Keeps(r.vals, r1.vals, l.c.next) && r1.Get(l.c.next) == i && l.c.next in r1.vals
  {
    AtHeader(l, ub, step, st, i, r, w);
    r1 := HeaderTest(l, f, r, w);
    BodyStart(l, ub, step, st, i, r, 1, w);
  }

  lemma AfterBody(l: Loop, ub: int, step: int, st: State, i: int, next: int, r: Regs, st2: State, r2: Regs, w: World)
    requires next == i + step && l.Translated() && l.Ok()
    requires HeaderOk(l, ub, step, st, i, r, w) && Exec(l.body, Enter(st, l.x, i), w) == Some(st2)
    requires MatchesC(l.inner, DeadAfter(l.body, l.Usable() + {l.x}, l.dead - {l.x}), st2, r2, w)
    requires Keeps(r.vals, r2.vals, l.c.next) && r2.Get(l.c.next) == i
    ensures BodyLeaves(l, ub, step, st2, next, r, r2, w)
  {
    BoundsSurvive(l, ub, step, st, i, r, r2, w);
    BodyCarries(l, ub, step, st, i, r, st2, r2, w);
  }

  lemma BoundsSurvive(l: Loop, ub: int, step: int, st: State, i: int, r: Regs, r2: Regs, w: World)
    requires l.Translated() && HeaderOk(l, ub, step, st, i, r, w) && Keeps(r.vals, r2.vals, l.c.next)
    requires r2.Get(l.c.next) == i
    ensures Bumped(l, r2).Get(l.inner.next) == i + step && Keeps(r.vals, Bumped(l, r2).vals, l.c.next)
    ensures l.c.ub in Bumped(l, r2).vals && Bumped(l, r2).vals[l.c.ub] == ub
    ensures l.c.step in Bumped(l, r2).vals && Bumped(l, r2).vals[l.c.step] == step
  {
  }

  /** What the body leaves makes the next trip possible. */
  ghost predicate BodyLeaves(l: Loop, ub: int, step: int, st: State, i: int, r: Regs, r2: Regs, w: World)
    requires l.Translated()
  {
    && Carried(l.Live(), l.Names(), st, Bumped(l, r2), Outs(l, r2), w)
    && Bumped(l, r2).Get(l.inner.next) == i && Keeps(r.vals, Bumped(l, r2).vals, l.c.next)
    && l.c.ub in Bumped(l, r2).vals && Bumped(l, r2).vals[l.c.ub] == ub
    && l.c.step in Bumped(l, r2).vals && Bumped(l, r2).vals[l.c.step] == step
  }

  lemma NextTrip(l: Loop, f: Cfg, ub: int, step: int, st: State, i: int, r: Regs, r2: Regs, w: World)
    requires l.Translated() && HasLoop(l, f) && l.x !in l.Usable()
    requires BodyLeaves(l, ub, step, st, i, r, r2, w) && Reaches(f, Point(l.Header(), 0, r), At(l.inner, r2), w)
    ensures TripTo(l, f, ub, step, st, i, r, Looped(l, r2), w)
  {
    BackEdge(l, f, r2, w);
    EnterHeader(l, ub, step, st, i, Outs(l, r2), Bumped(l, r2), w);
    ReachesThen(f, Point(l.Header(), 0, r), At(l.inner, r2), Point(l.Header(), 0, Looped(l, r2)), w);
  }

  /** From the header through the body. */
  lemma {:induction false} BodyRuns(l: Loop, f: Cfg, ub: int, step: int, st: State, i: int, r: Regs, st2: State,
                                    w: World)
    returns (r2: Regs)
    requires l.Translated() && HasLoop(l, f) && l.BodyOk()
    requires HeaderOk(l, ub, step, st, i, r, w) && i < ub && Exec(l.body, Enter(st, l.x, i), w) == Some(st2)
    ensures Reaches(f, Point(l.Header(), 0, r), At(l.inner, r2), w)
    ensures MatchesC(l.inner, DeadAfter(l.body, l.Usable() + {l.x}, l.dead - {l.x}), st2, r2, w)
    ensures Keeps(r.vals, r2.vals, l.c.next) && r2.Get(l.c.next) == i
    decreases l.body, 1, 0
  {
    var entered := EnterLoopC(l.x, l.Names(), l.c, l.g);
    var r1 := BeforeBody(l, f, ub, step, st, i, r, w);
    BodyEnv(l);
    r2 := BlockC(l.body, entered, l.inner, l.Usable() + {l.x}, l.dead - {l.x}, Enter(st, l.x, i), r1, st2, f, w);
    ReachesThen(f, Point(l.Header(), 0, r), At(entered, r1), At(l.inner, r2), w);
  }

  lemma {:induction false} IterationC(l: Loop, f: Cfg, ub: int, step: int, st: State, i: int, next: int, r: Regs,
                                      st2: State, w: World) returns (r': Regs)
    requires next == i + step && l.Translated() && HasLoop(l, f) && l.Ok()
    requires HeaderOk(l, ub, step, st, i, r, w) && i < ub && Exec(l.body, Enter(st, l.x, i), w) == Some(st2)
    ensures TripTo(l, f, ub, step, st2, next, r, r', w)
    decreases l.body, 2, 0
  {
    var r2 := BodyRuns(l, f, ub, step, st, i, r, st2, w);
    AfterBody(l, ub, step, st, i, next, r, st2, r2, w);
    NextTrip(l, f, ub, step, st2, next, r, r2, w);
    r' := Looped(l, r2);
  }

  lemma {:induction false} TripsOk(l: Loop, f: Cfg, ub: int, step: int, w: World)
    requires l.Translated() && HasLoop(l, f) && l.Ok()
    ensures forall st, i, next, r :: TripOk(l, f, ub, step, st, i, next, r, w)
    decreases l.body, 2, 1
  {
    forall st, i, next, r ensures TripOk(l, f, ub, step, st, i, next, r, w) {
      if HeaderOk(l, ub, step, st, i, r, w) && i < ub && next == i + step && Exec(l.body, Enter(st, l.x, i), w).Some? {
        var r' := IterationC(l, f, ub, step, st, i, next, r, Exec(l.body, Enter(st, l.x, i), w).value, w);
      }
    }
  }

  /** From the header out of the loop. */
  lemma LeaveLoop(l: Loop, f: Cfg, ub: int, step: int, st: State, i: int, r: Regs, w: World) returns (s': Regs)
    requires l.Translated() && HasLoop(l, f) && l.Ok()
    requires HeaderOk(l, ub, step, st, i, r, w) && i >= ub
    ensures Reaches(f, Point(l.Header(), 0, r), At(l.Finished(), s'), w)
    ensures MatchesC(l.Finished(), LoopDead(l), st, s', w) && Keeps(r.vals, s'.vals, l.c.next)
    ensures s'.Get(l.c.next) == i
  {
    AtHeader(l, ub, step, st, i, r, w);
    s' := HeaderTest(l, f, r, w);
    LoopExit(l, ub, step, st, i, r, 0, w);
    ExitEmpty(l);
  }

  lemma ExitEmpty(l: Loop)
    requires l.Translated()
    ensures l.Finished().cur == l.Header() + 2 && l.Finished().blocks[l.Header() + 2].code == []
  {
    var entered := EnterLoopC(l.x, l.Names(), l.c, l.g);
    assert entered.blocks[l.Header() + 2] == Block(0, [], None);
    assert l.inner.blocks[l.Header() + 2] == entered.blocks[l.Header() + 2];
  }

  // ------------------------------------------------------------------
  // Whole kernels
  // ------------------------------------------------------------------

  function StartC(params: seq<string>): (g: CGen)
    ensures g.Open()
  {
    CGen(Params(params), |params|, 0, [Block(0, [], None)])
  }

  /** The function with its return. */
  function Finish(g: CGen): Cfg
    requires g.Open()
  {
    g.blocks[g.cur := g.blocks[g.cur].(term := Some(Ret))]
  }

  /** The function, started on the inputs, comes to its return with these registers. */
  ghost predicate Returns(g: CGen, inputs: seq<int>, s: Regs, w: World)
    requires g.Open()
  {
    Reaches(Finish(g), Point(0, 0, StartRegs(inputs)), Point(g.cur, |g.blocks[g.cur].code|, s), w)
  }

  /**
   A translated function returns, with the stores and the values of the Python run. The generator knows no
   module globals, so a function it translates reads none, whatever the module defines.
   */
  lemma KernelC(params: seq<string>, inputs: seq<int>, ss: seq<Stmt>, w: World) returns (s: Regs)
    requires |params| == |inputs|
    requires Plain(ss) && ScopedC(ss, Params(params).Keys, {})
    requires GenBlockC(ss, StartC(params)).Some? && Exec(ss, State(Inputs(params, inputs), []), w).Some?
    ensures var g := GenBlockC(ss, StartC(params)).value;
            var st := Exec(ss, State(Inputs(params, inputs), []), w).value;
            && Returns(g, inputs, s, w) && s.trace == st.trace
            && forall x :: x in g.env && x !in DeadAfter(ss, Params(params).Keys, {}) ==>
                 x in st.env && s.Get(g.env[x]) == st.env[x]
  {
    var g0, g := StartC(params), GenBlockC(ss, StartC(params)).value;
    var st := Exec(ss, State(Inputs(params, inputs), []), w).value;
    StartMatches(params, inputs, w);
    assert g0.env - {} == Params(params);
    forall i | 0 <= i < |g.blocks| ensures BlockCompletes(g.blocks[i], Finish(g)[i]) {
    }
    s := BlockC(ss, g0, g, Params(params).Keys, {}, State(Inputs(params, inputs), []), StartRegs(inputs), st,
                Finish(g), w);
    forall x | x in g.env && x !in DeadAfter(ss, Params(params).Keys, {})
      ensures x in st.env && s.Get(g.env[x]) == st.env[x]
    {
      assert x in g.env - DeadAfter(ss, Params(params).Keys, {});
    }
  }

  /** What the control-flow form needs is enough for the structured one. */
  lemma {:induction false} ScopedBoth(ss: seq<Stmt>, names: set<string>, dead: set<string>)
    requires ScopedC(ss, names, dead)
    ensures Scoped(ss, names)
    decreases ss
  {
    if ss != [] {
      if ss[0].For? { ScopedBoth(ss[0].body, names + {ss[0].loopVar}, dead - {ss[0].loopVar}); }
      ScopedBoth(ss[1..], StmtNames(ss[0], names), StmtDead(ss[0], names, dead));
    }
  }

  /** Both translations of a kernel make the same stores and give its variables the same values. */
  lemma LoweringsAgree(params: seq<string>, inputs: seq<int>, ss: seq<Stmt>, w: World) returns (s: Regs)
    requires |params| == |inputs|
    requires Plain(ss) && ScopedC(ss, Params(params).Keys, {}) && Assigned(ss) !! w.globals.Keys
    requires GenBlock(ss, Start(params, w)).Some? && GenBlockC(ss, StartC(params)).Some?
    requires Exec(ss, State(Inputs(params, inputs), []), w).Some?
    ensures var scf, cfg := GenBlock(ss, Start(params, w)).value, GenBlockC(ss, StartC(params)).value;
            var s' := RunOps(scf.ops, StartRegs(inputs), w);
            && Returns(cfg, inputs, s, w) && s.trace == s'.trace
            && forall x :: x in scf.g.scope.env && x in cfg.env && x !in DeadAfter(ss, Params(params).Keys, {}) ==>
                 s.Get(cfg.env[x]) == s'.Get(scf.g.scope.env[x])
  {
    ScopedBoth(ss, Params(params).Keys, {});
    KernelSound(params, inputs, ss, w);
    s := KernelC(params, inputs, ss, w);
  }
}
