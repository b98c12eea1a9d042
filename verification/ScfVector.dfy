/**
 Vector lengths in the structured lowering (language/smt_rvisa/codegen.py): what a vconfig makes active, what the
 vector loads and stores behind it do, and a strip-mined copy as a whole.
 */
module ScfVector {
  import opened Wrappers
  import opened KernelLang
  import opened Ssa
  import opened ScfLowering

  /** A literal length that means full vectors. */
  predicate FullLiteral(avl: Expr) { avl.Const? && (avl.n >= 64 || avl.n < 0) }

  function Smaller(a: int, b: int): int { if a <= b then a else b }

  function Lanes(n: int): nat { if n > 0 then n else 0 }

  // ------------------------------------------------------------------
  // vconfig
  // ------------------------------------------------------------------

  /** A length that is computed: the active valid length is the smaller of 64 * lmul elements and the requested one. */
  lemma VconfigLength(target: Option<string>, avl: Expr, lmul: nat, g: Gen, st: State, s: Regs, w: World)
    requires Matches(g, st, s, w) && PlainExpr(avl) && !FullLiteral(avl)
    requires GenStmt(Vconfig(target, avl, lmul), g).Some?
    ensures Eval(avl, st, w).Some?
    ensures var out := GenStmt(Vconfig(target, avl, lmul), g).value;
            var s' := RunOps(out.ops, s, w);
            && out.g.scope.vl == Some(lmul * 64) && out.g.scope.valid.Some?
            && out.g.scope.valid.value in s'.vals && g.next <= out.g.scope.valid.value < out.g.next
            && s'.vals[out.g.scope.valid.value] == Smaller(lmul * 64, Eval(avl, st, w).value)
            && s'.trace == s.trace && Keeps(s.vals, s'.vals, g.next) && out.g.scope.env == g.scope.env
  {
    var sc := g.scope.(vl := Some(VlMax(lmul)));
    var a := GenExpr(avl, sc, g.next).value;
    ExprSound(avl, sc, g.next, st, s, w);
    var c, m := a.next, a.next + 1;
    var code := [IConst(c, VlMax(lmul)), IMinSI(m, c, a.val)];
    var s1 := RunCode(a.ins, s, w);
    RunLift(a.ins + code, s, w);
    RunCodeAppend(a.ins, code, s, w);
    MinimumRuns(c, m, a.val, VlMax(lmul), s1, w);
    MinimumEmits(target, avl, lmul, g);
  }

  lemma MinimumEmits(target: Option<string>, avl: Expr, lmul: nat, g: Gen)
    requires !FullLiteral(avl) && GenStmt(Vconfig(target, avl, lmul), g).Some?
    ensures GenExpr(avl, g.scope.(vl := Some(VlMax(lmul))), g.next).Some?
    ensures var a := GenExpr(avl, g.scope.(vl := Some(VlMax(lmul))), g.next).value;
            var out := GenStmt(Vconfig(target, avl, lmul), g).value;
            && out.ops == Lift(a.ins + [IConst(a.next, VlMax(lmul)), IMinSI(a.next + 1, a.next, a.val)])
            && out.g.next == a.next + 2 && out.g.scope.env == g.scope.env
            && out.g.scope.vl == Some(VlMax(lmul)) && out.g.scope.valid == Some(a.next + 1)
  {
  }

  lemma MinimumRuns(c: Value, m: Value, a: Value, vl: int, s: Regs, w: World)
    requires a != c && c < m
    ensures RunCode([IConst(c, vl), IMinSI(m, c, a)], s, w) == s.Set(c, vl).Set(m, Smaller(vl, s.Get(a)))
  {
    var code := [IConst(c, vl), IMinSI(m, c, a)];
    assert code[1..] == [IMinSI(m, c, a)] && code[1..][1..] == [];
    assert RunCode(code[1..], s.Set(c, vl), w) == RunIns(IMinSI(m, c, a), s.Set(c, vl), w);
  }

  /** A literal of 64 or more, or a negative one: nothing is emitted, and vectors are stored as a whole. */
  lemma VconfigFull(target: Option<string>, avl: Expr, lmul: nat, g: Gen)
    requires FullLiteral(avl)
    ensures GenStmt(Vconfig(target, avl, lmul), g).Some?
    ensures var out := GenStmt(Vconfig(target, avl, lmul), g).value;
            && out.ops == [] && out.g.next == g.next && out.g.scope.env == g.scope.env
            && out.g.scope.vl == Some(lmul * 64) && out.g.scope.valid.None?
  {
  }

  /**
   The result of a vconfig is read as the number of elements, unless a variable or parameter of this name is bound
   already: then that is read.
   */
  lemma VconfigTarget(x: string, avl: Expr, lmul: nat, g: Gen, s: Regs, w: World)
    requires GenStmt(Vconfig(Some(x), avl, lmul), g).Some?
    requires x in g.scope.env ==> g.scope.env[x] in s.vals && g.scope.env[x] < g.next
    ensures var out := GenStmt(Vconfig(Some(x), avl, lmul), g).value;
            && GenExpr(Var(x), out.g.scope, out.g.next).Some?
            && var c := GenExpr(Var(x), out.g.scope, out.g.next).value;
               RunCode(c.ins, s, w).Get(c.val) == lmul * 64
               <==> (x !in g.scope.env || s.Get(g.scope.env[x]) == lmul * 64)
  {
    var out := GenStmt(Vconfig(Some(x), avl, lmul), g).value;
    assert out.g.scope.env == g.scope.env && out.g.scope.consts[x] == lmul * 64;
    var c := GenExpr(Var(x), out.g.scope, out.g.next).value;
    if x !in g.scope.env {
      assert c.ins[1..] == [];
      assert RunCode(c.ins, s, w) == s.Set(c.val, lmul * 64);
    }
  }

  /** Behind a loop the vector length is the one in front of it, whatever its body configures. */
  lemma LoopRestoresLength(x: string, lb: Expr, ub: Expr, step: Expr, body: seq<Stmt>, g: Gen)
    requires GenStmt(For(x, lb, ub, step, body), g).Some?
    ensures var sc := GenStmt(For(x, lb, ub, step, body), g).value.g.scope;
            sc.vl == g.scope.vl && sc.valid == g.scope.valid
  {
  }

  // ------------------------------------------------------------------
  // Loads and stores
  // ------------------------------------------------------------------

  /** The active valid length as a number, in registers that hold it. */
  ghost predicate ActiveLength(g: Gen, s: Regs, width: int, n: int) {
    && g.scope.vl == Some(width)
    && match g.scope.valid
       case Some(v) => v < g.next && v in s.vals && s.vals[v] == n
       case None => n == width
  }

  /** What a copy of that many elements stores. */
  function CopyEvents(w: World, trace: seq<Event>, to: string, a: int, from: string, b: int, n: nat): seq<Event> {
    seq(n, k => Event(to, a + k, ReadBuf(w, trace, from, b + k)))
  }

  function CopyStmt(to: string, i: Expr, from: string, j: Expr): Stmt { VStore(to, i, VLoad(from, j)) }

  /** The vector load in the middle: the lanes, and that nothing else has changed. */
  lemma LoadRuns(from: string, j: Expr, width: int, n: int, g: Gen, st: State, s: Regs, w: World)
    requires Matches(g, st, s, w) && PlainExpr(j) && ActiveLength(g, s, width, n)
    requires GenExpr(j, g.scope, g.next).Some?
    ensures Eval(j, st, w).Some?
    ensures var c := GenExpr(j, g.scope, g.next).value;
            var s' := RunIns(IVLoad(c.next, from, c.val, width, g.scope.valid), RunCode(c.ins, s, w), w);
            && s'.Lanes(c.next) == LoadLanes(w, st.trace, from, Eval(j, st, w).value, width, n)
            && Matches(Gen(g.scope, c.next + 1), st, s', w) && ActiveLength(Gen(g.scope, c.next + 1), s', width, n)
            && Keeps(s.vals, s'.vals, g.next)
  {
    var c := GenExpr(j, g.scope, g.next).value;
    var s1 := RunCode(c.ins, s, w);
    ExprSound(j, g.scope, g.next, st, s, w);
    AgreeKept(g.scope.env, g.next, c.next + 1, st.env, s.vals, s1.vals, g.scope.consts);
    assert s1.Length(g.scope.valid, width) == n;
  }

  /** The index of the store, and the store. */
  lemma StoreRuns(to: string, i: Expr, v: Value, lanes: seq<int>, width: int, n: int, g: Gen, st: State, s: Regs,
                  w: World)
    requires Matches(g, st, s, w) && PlainExpr(i) && ActiveLength(g, s, width, n)
    requires s.Lanes(v) == lanes && (g.scope.valid.None? ==> |lanes| == Lanes(n)) && GenExpr(i, g.scope, g.next).Some?
    ensures Eval(i, st, w).Some?
    ensures var c := GenExpr(i, g.scope, g.next).value;
            var s' := RunIns(IVStore(to, c.val, v, g.scope.valid), RunCode(c.ins, s, w), w);
            && s'.trace == st.trace + StoreLanes(to, Eval(i, st, w).value, lanes, n)
            && Keeps(s.vals, s'.vals, g.next)
  {
    var c := GenExpr(i, g.scope, g.next).value;
    ExprSound(i, g.scope, g.next, st, s, w);
    VectorsKept(i, g.scope, g.next, s, w);
  }

  lemma CopyRuns(to: string, i: Expr, from: string, j: Expr, width: int, n: int, g: Gen, st: State, s: Regs, w: World)
    requires Matches(g, st, s, w) && PlainExpr(i) && PlainExpr(j) && ActiveLength(g, s, width, n)
    requires GenExpr(j, g.scope, g.next).Some?
    requires GenExpr(i, g.scope, GenExpr(j, g.scope, g.next).value.next + 1).Some?
    ensures Eval(i, st, w).Some? && Eval(j, st, w).Some?
    ensures var jc := GenExpr(j, g.scope, g.next).value;
            var ic := GenExpr(i, g.scope, jc.next + 1).value;
            var s1 := RunIns(IVLoad(jc.next, from, jc.val, width, g.scope.valid), RunCode(jc.ins, s, w), w);
            var s' := RunIns(IVStore(to, ic.val, jc.next, g.scope.valid), RunCode(ic.ins, s1, w), w);
            && s'.trace == st.trace + CopyEvents(w, st.trace, to, Eval(i, st, w).value, from, Eval(j, st, w).value,
                                                 Lanes(Smaller(width, n)))
            && Keeps(s.vals, s'.vals, g.next)
  {
    var jc := GenExpr(j, g.scope, g.next).value;
    var s1 := RunIns(IVLoad(jc.next, from, jc.val, width, g.scope.valid), RunCode(jc.ins, s, w), w);
    LoadRuns(from, j, width, n, g, st, s, w);
    var lanes := LoadLanes(w, st.trace, from, Eval(j, st, w).value, width, n);
    StoreRuns(to, i, jc.next, lanes, width, n, Gen(g.scope, jc.next + 1), st, s1, w);
    CopiedLanes(w, st.trace, to, Eval(i, st, w).value, from, Eval(j, st, w).value, width, n);
  }

  /** vstore(to, i, vload(from, j)) copies exactly the elements below the active valid length. */
  lemma CopySound(to: string, i: Expr, from: string, j: Expr, width: int, n: int, g: Gen, st: State, s: Regs, w: World)
    requires Matches(g, st, s, w) && PlainExpr(i) && PlainExpr(j) && ActiveLength(g, s, width, n)
    requires GenStmt(CopyStmt(to, i, from, j), g).Some?
    ensures Eval(i, st, w).Some? && Eval(j, st, w).Some?
    ensures var out := GenStmt(CopyStmt(to, i, from, j), g).value;
            var s' := RunOps(out.ops, s, w);
            && s'.trace == st.trace + CopyEvents(w, st.trace, to, Eval(i, st, w).value, from, Eval(j, st, w).value,
                                                 Lanes(Smaller(width, n)))
            && Keeps(s.vals, s'.vals, g.next) && g.next <= out.g.next && out.g.scope == g.scope
  {
    var jc := GenExpr(j, g.scope, g.next).value;
    var load := IVLoad(jc.next, from, jc.val, width, g.scope.valid);
    var ic := GenExpr(i, g.scope, jc.next + 1).value;
    CopyRuns(to, i, from, j, width, n, g, st, s, w);
    EmittedCopy(jc.ins, load, ic.ins, IVStore(to, ic.val, jc.next, g.scope.valid), s, w);
    CopyEmits(to, i, from, j, width, g);
  }

  lemma CopyEmits(to: string, i: Expr, from: string, j: Expr, width: int, g: Gen)
    requires g.scope.vl == Some(width) && GenStmt(CopyStmt(to, i, from, j), g).Some?
    ensures var jc := GenExpr(j, g.scope, g.next).value;
            var ic := GenExpr(i, g.scope, jc.next + 1).value;
            GenStmt(CopyStmt(to, i, from, j), g).value ==
            Out(Lift(jc.ins + [IVLoad(jc.next, from, jc.val, width, g.scope.valid)] + ic.ins
                     + [IVStore(to, ic.val, jc.next, g.scope.valid)]), Gen(g.scope, ic.next))
  {
  }

  lemma {:induction false} VectorsKept(e: Expr, sc: Scope, next: Value, s: Regs, w: World)
    requires PlainExpr(e) && GenExpr(e, sc, next).Some?
    ensures RunCode(GenExpr(e, sc, next).value.ins, s, w).vecs == s.vecs
  {
    match e
    case Bin(op, l, r) =>
      var a := GenExpr(l, sc, next).value;
      var b := GenExpr(r, sc, a.next).value;
      VectorsKept(l, sc, next, s, w);
      VectorsKept(r, sc, a.next, RunCode(a.ins, s, w), w);
      RunCodeAppend(a.ins + b.ins, [IBin(b.next, op, a.val, b.val)], s, w);
      RunCodeAppend(a.ins, b.ins, s, w);
    case Load(buf, idx) =>
      var i := GenExpr(idx, sc, next).value;
      VectorsKept(idx, sc, next, s, w);
      RunCodeAppend(i.ins, [ILoad(i.next, buf, i.val)], s, w);
    case _ =>
  }

  lemma EmittedCopy(a: seq<Ins>, load: Ins, b: seq<Ins>, store: Ins, s: Regs, w: World)
    ensures RunOps(Lift(a + [load] + b + [store]), s, w)
         == RunIns(store, RunCode(b, RunIns(load, RunCode(a, s, w), w), w), w)
  {
    RunLift(a + [load] + b + [store], s, w);
    RunCodeAppend(a + [load] + b, [store], s, w);
    RunCodeAppend(a + [load], b, s, w);
    RunCodeAppend(a, [load], s, w);
  }

  lemma CopiedLanes(w: World, trace: seq<Event>, to: string, a: int, from: string, b: int, width: int, n: int)
    ensures StoreLanes(to, a, LoadLanes(w, trace, from, b, width, n), n)
         == CopyEvents(w, trace, to, a, from, b, Lanes(Smaller(width, n)))
    ensures n == width ==> |LoadLanes(w, trace, from, b, width, n)| == Lanes(width)
  {
  }

  /** A vconfig and a copy: 64 * lmul elements, or as many as were asked for. */
  function TailCopy(avl: Expr, lmul: nat, to: string, i: Expr, from: string, j: Expr): seq<Stmt> {
    [Vconfig(None, avl, lmul), CopyStmt(to, i, from, j)]
  }

  /** How many elements are copied. */
  function TailLength(avl: Expr, lmul: nat, n: int): int {
    if FullLiteral(avl) then lmul * 64 else Smaller(lmul * 64, n)
  }

  lemma TailCopySound(avl: Expr, lmul: nat, to: string, i: Expr, from: string, j: Expr, g: Gen, st: State, s: Regs,
                      w: World)
    requires Matches(g, st, s, w) && PlainExpr(avl) && PlainExpr(i) && PlainExpr(j)
    requires GenBlock(TailCopy(avl, lmul, to, i, from, j), g).Some?
    ensures Eval(avl, st, w).Some? && Eval(i, st, w).Some? && Eval(j, st, w).Some?
    ensures RunOps(GenBlock(TailCopy(avl, lmul, to, i, from, j), g).value.ops, s, w).trace
         == st.trace + CopyEvents(w, st.trace, to, Eval(i, st, w).value, from, Eval(j, st, w).value,
                                  Lanes(TailLength(avl, lmul, Eval(avl, st, w).value)))
  {
    var ss := TailCopy(avl, lmul, to, i, from, j);
    assert ss[1..] == [CopyStmt(to, i, from, j)] && ss[1..][1..] == [];
    var a := GenStmt(ss[0], g).value;
    var b := GenStmt(ss[1], a.g).value;
    assert GenBlock(ss[1..], a.g) == Some(Out(b.ops + [], b.g)) && b.ops + [] == b.ops;
    RunAppend(a.ops, b.ops, s, w);
    var s1 := RunOps(a.ops, s, w);
    if FullLiteral(avl) {
      VconfigFull(None, avl, lmul, g);
      CopySound(to, i, from, j, lmul * 64, lmul * 64, a.g, st, s1, w);
    } else {
      VconfigLength(None, avl, lmul, g, st, s, w);
      AgreeKept(g.scope.env, g.next, a.g.next, st.env, s.vals, s1.vals, g.scope.consts);
      CopySound(to, i, from, j, lmul * 64, Smaller(lmul * 64, Eval(avl, st, w).value), a.g, st, s1, w);
    }
  }

  /**
   The copy has the requested length, where that fits into the vector, except for literals between one register and
   the vector: these copy the whole vector.
   */
  lemma TailLengthExact(avl: Expr, lmul: nat, n: int)
    requires 0 <= n <= lmul * 64 && (avl.Const? ==> avl.n == n)
    ensures TailLength(avl, lmul, n) == n <==> !(avl.Const? && 64 <= n < lmul * 64)
  {
  }

  // ------------------------------------------------------------------
  // A strip-mined copy
  // ------------------------------------------------------------------

  // for i in range(0, n, 64 * lmul): vconfig(n - i, lmul); vstore(to, i, vload(from, i))
  const LEFT := Bin(Minus, Var("n"), Var("i"))

  function StripBody(lmul: nat, to: string, from: string): seq<Stmt> {
    TailCopy(LEFT, lmul, to, Var("i"), from, Var("i"))
  }

  function Strip(lmul: nat, to: string, from: string): Stmt {
    For("i", Const(0), Var("n"), Const(lmul * 64), StripBody(lmul, to, from))
  }

  /** Stores to another buffer are not read. */
  lemma {:induction false} ReadPast(w: World, trace: seq<Event>, more: seq<Event>, buf: string, idx: int)
    requires forall k :: 0 <= k < |more| ==> more[k].buf != buf
    ensures ReadBuf(w, trace + more, buf, idx) == ReadBuf(w, trace, buf, idx)
  {
    if more == [] {
      assert trace + more == trace;
    } else {
      var n := |more| - 1;
      assert (trace + more)[..|trace + more| - 1] == trace + more[..n];
      ReadPast(w, trace, more[..n], buf, idx);
    }
  }

  /** A copy in two parts, the second one behind the stores of the first. */
  lemma CopyInParts(w: World, trace: seq<Event>, to: string, from: string, a: int, m: nat, n: nat)
    requires to != from
    ensures var first := CopyEvents(w, trace, to, a, from, a, m);
            CopyEvents(w, trace, to, a, from, a, m + n)
            == first + CopyEvents(w, trace + first, to, a + m, from, a + m, n)
  {
    var first := CopyEvents(w, trace, to, a, from, a, m);
    var second := CopyEvents(w, trace + first, to, a + m, from, a + m, n);
    var all := CopyEvents(w, trace, to, a, from, a, m + n);
    forall k | 0 <= k < m + n ensures all[k] == (first + second)[k] {
      if k >= m { ReadPast(w, trace, first, from, a + k); }
    }
  }

  lemma StripNames(lmul: nat, to: string, from: string, outer: set<string>)
    ensures IterNames(StripBody(lmul, to, from), outer) == []
  {
    var body := StripBody(lmul, to, from);
    assert body[..1] == [body[0]] && body[..1][..0] == [];
    assert FindReassigned(body[..1], outer) == FindReassigned([], outer) == [];
    assert FindReassigned(body, outer) == [];
  }

  /** One strip, from the state in front of the loop. */
  lemma StripRuns(lmul: nat, to: string, from: string, i: int, n: int, g: Gen, inner: Out, st: State, s: Regs, w: World)
    requires Matches(g, st, s, w) && "n" in g.scope.env && st.env["n"] == n
    requires "i" !in g.scope.env && "i" !in g.scope.consts
    requires GenBlock(StripBody(lmul, to, from), BodyGen(g, "i", [])) == Some(inner)
    ensures RunOps(inner.ops, s.(vals := Bind(s.vals[g.next := i], g.next + 1, [])), w).trace
         == st.trace + CopyEvents(w, st.trace, to, i, from, i, Lanes(Smaller(lmul * 64, n - i)))
  {
    var st1, s1 := Enter(st, "i", i), s.(vals := Bind(s.vals[g.next := i], g.next + 1, []));
    StartLoop([], g, st, s, w);
    EnterBody("i", [], g, i, st, s, [], w);
    TailCopySound(LEFT, lmul, to, Var("i"), from, Var("i"), BodyGen(g, "i", []), st1, s1, w);
    assert Eval(LEFT, st1, w) == Some(n - i) && Eval(Var("i"), st1, w) == Some(i);
  }

  /** One strip, and the rest behind it. */
  lemma StripJoins(w: World, trace: seq<Event>, to: string, from: string, i: int, step: nat, n: int)
    requires to != from && i < n
    ensures var strip := trace + CopyEvents(w, trace, to, i, from, i, Lanes(Smaller(step, n - i)));
            strip + CopyEvents(w, strip, to, i + step, from, i + step, Lanes(n - (i + step)))
            == trace + CopyEvents(w, trace, to, i, from, i, Lanes(n - i))
  {
    var m := Smaller(step, n - i);
    var strip := trace + CopyEvents(w, trace, to, i, from, i, m);
    CopyInParts(w, trace, to, from, i, m, n - i - m);
    if m < step { assert CopyEvents(w, strip, to, i + step, from, i + step, 0) == []; }
  }

  lemma {:induction false} StripsRun(lmul: nat, to: string, from: string, i: int, n: int, g: Gen, inner: Out, st: State,
                                     s: Regs, w: World)
    requires lmul > 0 && to != from && Matches(g, st, s, w) && "n" in g.scope.env && st.env["n"] == n
    requires "i" !in g.scope.env && "i" !in g.scope.consts
    requires GenBlock(StripBody(lmul, to, from), BodyGen(g, "i", [])) == Some(inner)
    ensures RunLoop(g.next, inner.ops, [], i, n, lmul * 64, [], s, w).1
         == st.trace + CopyEvents(w, st.trace, to, i, from, i, Lanes(n - i))
    decreases n - i
  {
    if i < n {
      var trace := st.trace + CopyEvents(w, st.trace, to, i, from, i, Lanes(Smaller(lmul * 64, n - i)));
      StripRuns(lmul, to, from, i, n, g, inner, st, s, w);
      StripsRun(lmul, to, from, i + lmul * 64, n, g, inner, st.(trace := trace), s.(trace := trace), w);
      StripJoins(w, st.trace, to, from, i, lmul * 64, n);
    }
  }

  /** For every n and vector length: exactly the elements 0 .. n - 1 are copied, each once and in order. */
  lemma StripCopies(lmul: nat, to: string, from: string, n: int, g: Gen, st: State, s: Regs, w: World)
    requires lmul > 0 && to != from && Matches(g, st, s, w) && "n" in g.scope.env && st.env["n"] == n
    requires "i" !in g.scope.env && "i" !in g.scope.consts && GenStmt(Strip(lmul, to, from), g).Some?
    ensures RunOps(GenStmt(Strip(lmul, to, from), g).value.ops, s, w).trace
         == st.trace + CopyEvents(w, st.trace, to, 0, from, 0, Lanes(n))
  {
    var c := GenBounds(Const(0), Var("n"), Const(lmul * 64), g).value;
    var g1, s1 := Gen(g.scope, c.next), RunCode(c.ins, s, w);
    BoundsSound(Const(0), Var("n"), Const(lmul * 64), g, st, s, w);
    var inner := StripEmits(lmul, to, from, c, g);
    StripsRun(lmul, to, from, 0, n, g1, inner, st, s1, w);
    LoopBehind(c.ins, LoopOp(c, g1, [], inner), s, w);
  }

  lemma StripEmits(lmul: nat, to: string, from: string, c: Bounds, g: Gen) returns (inner: Out)
    requires GenBounds(Const(0), Var("n"), Const(lmul * 64), g) == Some(c)
    requires GenStmt(Strip(lmul, to, from), g).Some?
    ensures GenBlock(StripBody(lmul, to, from), BodyGen(Gen(g.scope, c.next), "i", [])) == Some(inner)
    ensures GenStmt(Strip(lmul, to, from), g).value.ops
         == Lift(c.ins) + [LoopOp(c, Gen(g.scope, c.next), [], inner)]
  {
    StripNames(lmul, to, from, g.scope.env.Keys);
    inner := GenBlock(StripBody(lmul, to, from), BodyGen(Gen(g.scope, c.next), "i", [])).value;
  }

  lemma LoopBehind(code: seq<Ins>, op: Op, s: Regs, w: World)
    ensures RunOps(Lift(code) + [op], s, w) == RunOp(op, RunCode(code, s, w), w)
  {
    RunLift(code, s, w);
    RunAppend(Lift(code), [op], s, w);
    assert RunOps([op], RunCode(code, s, w), w) == RunOp(op, RunCode(code, s, w), w);
  }
}
