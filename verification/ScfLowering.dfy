/**
 The structured lowering (language/smt_rvisa/codegen.py): a `range` loop becomes an scf.for whose iter-args
 are the outer variables that the body assigns directly. The emitted code computes what Python computes.
 */
module ScfLowering {
  import opened Wrappers
  import opened KernelLang
  import opened Ssa

  /** The block arguments of a loop are `iv` and the values behind it; its results start at `results`. */
  datatype Op =
    | Simple(ins: Ins)
    | ScfFor(lb: Value, ub: Value, step: Value, inits: seq<Value>, iv: Value,
             body: seq<Op>, outs: seq<Value>, results: Value)

  // ------------------------------------------------------------------
  // What structured code does
  // ------------------------------------------------------------------

  /** The values `first`, `first + 1`, ... hold the numbers of the list. */
  function Bind(vals: map<Value, int>, first: Value, xs: seq<int>): map<Value, int> {
    if xs == [] then vals
    else Bind(vals, first, xs[..|xs| - 1])[first + |xs| - 1 := xs[|xs| - 1]]
  }

  lemma {:induction false} BindAt(vals: map<Value, int>, first: Value, xs: seq<int>, v: Value)
    ensures v in Bind(vals, first, xs) <==> v in vals || first <= v < first + |xs|
    ensures v in Bind(vals, first, xs) ==>
              Bind(vals, first, xs)[v] == if first <= v < first + |xs| then xs[v - first] else vals[v]
  {
    if xs != [] { BindAt(vals, first, xs[..|xs| - 1], v); }
  }

  lemma BindKeeps(vals: map<Value, int>, first: Value, xs: seq<int>, next: Value)
    requires next <= first
    ensures Keeps(vals, Bind(vals, first, xs), next)
  {
    forall v | v in vals && v < next ensures v in Bind(vals, first, xs) && Bind(vals, first, xs)[v] == vals[v] {
      BindAt(vals, first, xs, v);
    }
  }

  function Values(s: Regs, vs: seq<Value>): (xs: seq<int>)
    ensures |xs| == |vs| && forall i :: 0 <= i < |xs| ==> xs[i] == s.Get(vs[i])
  {
    seq(|vs|, i requires 0 <= i < |vs| => s.Get(vs[i]))
  }

  function RunOps(ops: seq<Op>, s: Regs, w: World): Regs
    decreases ops, 0, 0
  {
    if ops == [] then s else RunOps(ops[1..], RunOp(ops[0], s, w), w)
  }

  /** After a loop only its results and its stores remain. */
  function RunOp(op: Op, s: Regs, w: World): Regs
    decreases op, 2, 0
  {
    match op
    case Simple(i) => RunIns(i, s, w)
    case ScfFor(lb, ub, step, inits, iv, body, outs, results) =>
      var out := RunLoop(iv, body, outs, s.Get(lb), s.Get(ub), s.Get(step), Values(s, inits), s, w);
      s.(vals := Bind(s.vals, results, out.0), trace := out.1)
  }

  /** The remaining iterations: the final iter-args and the stores. A step must be positive. */
  function RunLoop(iv: Value, body: seq<Op>, outs: seq<Value>, i: int, ub: int, step: int,
                   xs: seq<int>, s: Regs, w: World): (seq<int>, seq<Event>)
    decreases body, 1, ub - i
  {
    if step <= 0 || i >= ub then (xs, s.trace)
    else
      var r := RunOps(body, s.(vals := Bind(s.vals[iv := i], iv + 1, xs)), w);
      RunLoop(iv, body, outs, i + step, ub, step, Values(r, outs), s.(trace := r.trace), w)
  }

  lemma {:induction false} RunAppend(a: seq<Op>, b: seq<Op>, s: Regs, w: World)
    ensures RunOps(a + b, s, w) == RunOps(b, RunOps(a, s, w), w)
  {
    if a == [] {
      assert a + b == b;
    } else {
      assert (a + b)[1..] == a[1..] + b;
      RunAppend(a[1..], b, RunOp(a[0], s, w), w);
    }
  }

  function Lift(code: seq<Ins>): (ops: seq<Op>)
    ensures |ops| == |code|
  {
    seq(|code|, i requires 0 <= i < |code| => Simple(code[i]))
  }

  lemma {:induction false} RunLift(code: seq<Ins>, s: Regs, w: World)
    ensures RunOps(Lift(code), s, w) == RunCode(code, s, w)
  {
    if code != [] {
      assert Lift(code)[1..] == Lift(code[1..]);
      RunLift(code[1..], RunIns(code[0], s, w), w);
    }
  }

  // ------------------------------------------------------------------
  // The translation
  // ------------------------------------------------------------------

  datatype Gen = Gen(scope: Scope, next: Value)

  datatype Out = Out(ops: seq<Op>, g: Gen)

  /** VLMAX for f16 elements on 1024-bit registers. */
  function VlMax(lmul: nat): int { lmul * 1024 / 16 }

  function NameLess(a: string, b: string): bool {
    if b == "" then false
    else if a == "" then true
    else if a[0] != b[0] then a[0] < b[0]
    else NameLess(a[1..], b[1..])
  }

  function InsertName(x: string, sorted: seq<string>): (r: seq<string>)
    ensures |r| == |sorted| + 1 && forall y :: y in r <==> y == x || y in sorted
  {
    if sorted == [] || NameLess(x, sorted[0]) then [x] + sorted else [sorted[0]] + InsertName(x, sorted[1..])
  }

  function SortNames(names: seq<string>): (r: seq<string>)
    ensures |r| == |names| && forall y :: y in r <==> y in names
  {
    if names == [] then [] else InsertName(names[0], SortNames(names[1..]))
  }

  predicate Distinct(names: seq<string>) {
    forall i, j :: 0 <= i < j < |names| ==> names[i] != names[j]
  }

  lemma {:induction false} InsertDistinct(x: string, sorted: seq<string>)
    requires Distinct(sorted) && x !in sorted
    ensures Distinct(InsertName(x, sorted))
  {
    if sorted != [] && !NameLess(x, sorted[0]) {
      InsertDistinct(x, sorted[1..]);
      var rest := InsertName(x, sorted[1..]);
      assert forall j :: 0 <= j < |rest| ==> rest[j] in rest;
    }
  }

  lemma {:induction false} SortDistinct(names: seq<string>)
    requires Distinct(names)
    ensures Distinct(SortNames(names))
  {
    if names != [] {
      SortDistinct(names[1..]);
      InsertDistinct(names[0], SortNames(names[1..]));
    }
  }

  lemma {:induction false} NameLessTotal(a: string, b: string)
    ensures a == b || NameLess(a, b) || NameLess(b, a)
  {
    if a != "" && b != "" && a[0] == b[0] {
      NameLessTotal(a[1..], b[1..]);
      assert a == [a[0]] + a[1..] && b == [b[0]] + b[1..];
    }
  }

  lemma {:induction false} NameLessTransitive(a: string, b: string, c: string)
    requires NameLess(a, b) && NameLess(b, c)
    ensures NameLess(a, c)
  {
    if a != "" && a[0] == b[0] == c[0] { NameLessTransitive(a[1..], b[1..], c[1..]); }
  }

  predicate Sorted(names: seq<string>) {
    forall i, j :: 0 <= i < j < |names| ==> NameLess(names[i], names[j])
  }

  lemma {:induction false} InsertSorted(x: string, sorted: seq<string>)
    requires Sorted(sorted) && x !in sorted
    ensures Sorted(InsertName(x, sorted))
  {
    if sorted != [] {
      NameLessTotal(x, sorted[0]);
      if NameLess(x, sorted[0]) {
        forall j | 0 < j < |sorted| ensures NameLess(x, sorted[j]) {
          NameLessTransitive(x, sorted[0], sorted[j]);
        }
      } else {
        var rest := InsertName(x, sorted[1..]);
        InsertSorted(x, sorted[1..]);
        forall j | 0 <= j < |rest| ensures NameLess(sorted[0], rest[j]) {
          assert rest[j] in rest;
        }
      }
    }
  }

  lemma {:induction false} SortSorted(names: seq<string>)
    requires Distinct(names)
    ensures Sorted(SortNames(names))
  {
    if names != [] {
      SortSorted(names[1..]);
      InsertSorted(names[0], SortNames(names[1..]));
    }
  }

  /** The iter-args of a loop, in the order of their names. */
  function IterNames(body: seq<Stmt>, outer: set<string>): (names: seq<string>)
    ensures Sorted(names) && Distinct(names)
    ensures forall x :: x in names <==> x in outer && x in Direct(body)
  {
    SortDistinct(FindReassigned(body, outer));
    SortSorted(FindReassigned(body, outer));
    SortNames(FindReassigned(body, outer))
  }

  function Position(names: seq<string>, x: string): (i: nat)
    requires x in names
    ensures i < |names| && names[i] == x
  {
    if names[0] == x then 0 else 1 + Position(names[1..], x)
  }

  lemma PositionOf(names: seq<string>, i: nat)
    requires Distinct(names) && i < |names|
    ensures Position(names, names[i]) == i
  {
  }

  /** The names bound to consecutive values. */
  function BindNames(env: map<string, Value>, names: seq<string>, first: Value): (r: map<string, Value>)
    ensures r.Keys == env.Keys
  {
    map x | x in env :: if x in names then first + Position(names, x) else env[x]
  }

  function Lookup(env: map<string, Value>, names: seq<string>): (vs: seq<Value>)
    requires forall x :: x in names ==> x in env
    ensures |vs| == |names| && forall i :: 0 <= i < |vs| ==> vs[i] == env[names[i]]
  {
    seq(|names|, i requires 0 <= i < |names| => env[names[i]])
  }

  predicate Grows(g: Gen, g': Gen) {
    g.next <= g'.next && g.scope.env.Keys <= g'.scope.env.Keys
  }

  function GenBlock(ss: seq<Stmt>, g: Gen): (r: Option<Out>)
    ensures r.Some? ==> Grows(g, r.value.g)
    decreases ss, 0
  {
    if ss == [] then Some(Out([], g))
    else
      var a := GenStmt(ss[0], g);
      if a.None? then None
      else
        var b := GenBlock(ss[1..], a.value.g);
        if b.None? then None else Some(Out(a.value.ops + b.value.ops, b.value.g))
  }

  function GenStmt(s: Stmt, g: Gen): (r: Option<Out>)
    ensures r.Some? ==> Grows(g, r.value.g)
    decreases s, 2
  {
    match s
    case Assign(x, e) =>
      var c := GenExpr(e, g.scope, g.next);
      if c.None? then None
      else Some(Out(Lift(c.value.ins), Gen(g.scope.(env := g.scope.env[x := c.value.val]), c.value.next)))
    case Store(buf, idx, val) => GenStore(buf, idx, val, g)
    case VStore(buf, idx, val) => GenVStore(buf, idx, val, g)
    case Vconfig(target, avl, lmul) => GenVconfig(target, avl, lmul, g)
    case For(x, lb, ub, step, body) =>
      var c := GenBounds(lb, ub, step, g);
      if c.None? then None
      else
        var loop := GenLoop(x, body, c.value, Gen(g.scope, c.value.next));
        if loop.None? then None
        else Some(Out(Lift(c.value.ins) + [loop.value.0], loop.value.1))
  }

  /** The scf.for once its bounds are known, and the state behind it. */
  function GenLoop(x: string, body: seq<Stmt>, c: Bounds, g: Gen): (r: Option<(Op, Gen)>)
    ensures r.Some? ==> Grows(g, r.value.1)
    decreases body, 1
  {
    var names := IterNames(body, g.scope.env.Keys);
    var inner := GenBlock(body, BodyGen(g, x, names));
    if inner.None? then None
    else Some((LoopOp(c, g, names, inner.value), AfterLoop(g, names, inner.value.g)))
  }

  function GenStore(buf: string, idx: Expr, val: Expr, g: Gen): (r: Option<Out>)
    ensures r.Some? ==> Grows(g, r.value.g)
  {
    var i := GenExpr(idx, g.scope, g.next);
    if i.None? then None
    else
      var v := GenExpr(val, g.scope, i.value.next);
      if v.None? then None
      else Some(Out(Lift(i.value.ins + v.value.ins + [IStore(buf, i.value.val, v.value.val)]),
                    Gen(g.scope, v.value.next)))
  }

  function GenVStore(buf: string, idx: Expr, val: Expr, g: Gen): (r: Option<Out>)
    ensures r.Some? ==> Grows(g, r.value.g)
  {
    var v := GenExpr(val, g.scope, g.next);
    if v.None? then None
    else
      var i := GenExpr(idx, g.scope, v.value.next);
      if i.None? then None
      else Some(Out(Lift(v.value.ins + i.value.ins + [IVStore(buf, i.value.val, v.value.val, g.scope.valid)]),
                    Gen(g.scope, i.value.next)))
  }

  /**
   vconfig: the new vector length is active before the length expression is translated. A literal length of at least
   one register, or a negative one, means full vectors.
   */
  function GenVconfig(target: Option<string>, avl: Expr, lmul: nat, g: Gen): (r: Option<Out>)
    ensures r.Some? ==> Grows(g, r.value.g)
  {
    var vl := VlMax(lmul);
    var sc := g.scope.(vl := Some(vl),
                       consts := if target.Some? then g.scope.consts[target.value := vl] else g.scope.consts);
    if avl.Const? && (avl.n >= VlMax(1) || avl.n < 0) then Some(Out([], Gen(sc.(valid := None), g.next)))
    else
      var a := GenExpr(avl, g.scope.(vl := Some(vl)), g.next);
      if a.None? then None
      else
        var c, m := a.value.next, a.value.next + 1;
        Some(Out(Lift(a.value.ins + [IConst(c, vl), IMinSI(m, c, a.value.val)]), Gen(sc.(valid := Some(m)), m + 1)))
  }

  datatype Bounds = Bounds(ins: seq<Ins>, lb: Value, ub: Value, step: Value, next: Value)

  function GenBounds(lb: Expr, ub: Expr, step: Expr, g: Gen): (r: Option<Bounds>)
    ensures r.Some? ==> g.next <= r.value.next
  {
    var a := GenExpr(lb, g.scope, g.next);
    if a.None? then None
    else
      var b := GenExpr(ub, g.scope, a.value.next);
      if b.None? then None
      else
        var d := GenExpr(step, g.scope, b.value.next);
        if d.None? then None
        else Some(Bounds(a.value.ins + b.value.ins + d.value.ins, a.value.val, b.value.val, d.value.val, d.value.next))
  }

  /** Inside the body the iter-args are block arguments and the loop variable is the induction variable. */
  function BodyGen(g: Gen, x: string, names: seq<string>): Gen {
    Gen(g.scope.(env := BindNames(g.scope.env, names, g.next + 1)[x := g.next]), g.next + 1 + |names|)
  }

  function LoopOp(b: Bounds, g: Gen, names: seq<string>, inner: Out): Op
    requires forall x :: x in names ==> x in g.scope.env && x in inner.g.scope.env
  {
    ScfFor(b.lb, b.ub, b.step, Lookup(g.scope.env, names), g.next,
           inner.ops, Lookup(inner.g.scope.env, names), inner.g.next)
  }

  /** Behind the loop its locals are forgotten, the iter-args are its results, the vector length is restored. */
  function AfterLoop(g: Gen, names: seq<string>, inner: Gen): Gen {
    Gen(Scope(BindNames(g.scope.env, names, inner.next), inner.scope.consts, g.scope.vl, g.scope.valid),
        inner.next + |names|)
  }

  // ------------------------------------------------------------------
  // The code means what the program means
  // ------------------------------------------------------------------

  /**
   The programs that are translated faithfully: a loop variable is a fresh name, and an outer variable that
   a body assigns anywhere is also assigned by a statement of the body itself.
   */
  predicate Scoped(ss: seq<Stmt>, names: set<string>) {
    ss == [] ||
    match ss[0]
    case Assign(x, _) => Scoped(ss[1..], names + {x})
    case For(x, _, _, _, body) =>
      x !in names && Assigned(body) * names <= Direct(body) && Scoped(body, names + {x}) && Scoped(ss[1..], names)
    case _ => Scoped(ss[1..], names)
  }

  ghost predicate Matches(g: Gen, st: State, s: Regs, w: World) {
    Agree(g.scope.env, g.next, st.env, s.vals, g.scope.consts) && s.trace == st.trace && AreGlobals(g.scope.consts, w)
  }

  /** Two expressions one after the other: the second does not disturb the value of the first. */
  lemma PairSound(l: Expr, r: Expr, sc: Scope, next: Value, st: State, s: Regs, w: World)
    requires PlainExpr(l) && PlainExpr(r) && AreGlobals(sc.consts, w)
    requires Agree(sc.env, next, st.env, s.vals, sc.consts) && s.trace == st.trace
    requires GenExpr(l, sc, next).Some? && GenExpr(r, sc, GenExpr(l, sc, next).value.next).Some?
    ensures var a := GenExpr(l, sc, next).value;
            var b := GenExpr(r, sc, a.next).value;
            var s' := RunCode(a.ins + b.ins, s, w);
            && s'.trace == s.trace && Keeps(s.vals, s'.vals, next) && Agree(sc.env, b.next, st.env, s'.vals, sc.consts)
            && a.val in s'.vals && b.val in s'.vals && a.val < b.next && b.val < b.next
            && Eval(l, st, w) == Some(s'.vals[a.val]) && Eval(r, st, w) == Some(s'.vals[b.val])
  {
    var a := GenExpr(l, sc, next).value;
    var b := GenExpr(r, sc, a.next).value;
    var s1 := RunCode(a.ins, s, w);
    ExprSound(l, sc, next, st, s, w);
    AgreeKept(sc.env, next, a.next, st.env, s.vals, s1.vals, sc.consts);
    ExprSound(r, sc, a.next, st, s1, w);
    AgreeKept(sc.env, a.next, b.next, st.env, s1.vals, RunCode(b.ins, s1, w).vals, sc.consts);
    RunCodeAppend(a.ins, b.ins, s, w);
  }

  lemma BoundsSound(lb: Expr, ub: Expr, step: Expr, g: Gen, st: State, s: Regs, w: World)
    requires PlainExpr(lb) && PlainExpr(ub) && PlainExpr(step) && Matches(g, st, s, w)
    requires GenBounds(lb, ub, step, g).Some?
    ensures var c := GenBounds(lb, ub, step, g).value;
            var s' := RunCode(c.ins, s, w);
            && Matches(Gen(g.scope, c.next), st, s', w) && Keeps(s.vals, s'.vals, g.next)
            && Eval(lb, st, w) == Some(s'.Get(c.lb)) && Eval(ub, st, w) == Some(s'.Get(c.ub))
            && Eval(step, st, w) == Some(s'.Get(c.step))
            && c.ub in s'.vals && c.step in s'.vals && c.ub < c.next && c.step < c.next
  {
    var a := GenExpr(lb, g.scope, g.next).value;
    var b := GenExpr(ub, g.scope, a.next).value;
    var d := GenExpr(step, g.scope, b.next).value;
    var s1 := RunCode(a.ins + b.ins, s, w);
    PairSound(lb, ub, g.scope, g.next, st, s, w);
    ExprSound(step, g.scope, b.next, st, s1, w);
    AgreeKept(g.scope.env, b.next, d.next, st.env, s1.vals, RunCode(d.ins, s1, w).vals, g.scope.consts);
    RunCodeAppend(a.ins + b.ins, d.ins, s, w);
  }

  lemma AssignSound(x: string, e: Expr, g: Gen, st: State, s: Regs, w: World)
    requires PlainExpr(e) && Matches(g, st, s, w) && x !in g.scope.consts
    requires GenStmt(Assign(x, e), g).Some?
    ensures var out := GenStmt(Assign(x, e), g).value;
            var s' := RunOps(out.ops, s, w);
            && ExecStmt(Assign(x, e), st, w).Some?
            && Matches(out.g, ExecStmt(Assign(x, e), st, w).value, s', w) && Keeps(s.vals, s'.vals, g.next)
  {
    var c := GenExpr(e, g.scope, g.next).value;
    ExprSound(e, g.scope, g.next, st, s, w);
    RunLift(c.ins, s, w);
  }

  lemma StoreSound(buf: string, idx: Expr, val: Expr, g: Gen, st: State, s: Regs, w: World)
    requires PlainExpr(idx) && PlainExpr(val) && Matches(g, st, s, w)
    requires GenStore(buf, idx, val, g).Some?
    ensures var out := GenStore(buf, idx, val, g).value;
            var s' := RunOps(out.ops, s, w);
            && ExecStmt(Store(buf, idx, val), st, w).Some?
            && Matches(out.g, ExecStmt(Store(buf, idx, val), st, w).value, s', w) && Keeps(s.vals, s'.vals, g.next)
  {
    var i := GenExpr(idx, g.scope, g.next).value;
    var v := GenExpr(val, g.scope, i.next).value;
    var last := [IStore(buf, i.val, v.val)];
    PairSound(idx, val, g.scope, g.next, st, s, w);
    RunCodeAppend(i.ins + v.ins, last, s, w);
    RunLift(i.ins + v.ins + last, s, w);
  }

  /** Between iterations: the iter-args hold the carried variables, everything else is as it was. */
  ghost predicate Carried(g: Gen, names: seq<string>, st: State, s: Regs, xs: seq<int>, w: World) {
    && |xs| == |names| && s.trace == st.trace && AreGlobals(g.scope.consts, w)
    && (forall i :: 0 <= i < |names| ==> names[i] in st.env && xs[i] == st.env[names[i]])
    && (forall y :: y in g.scope.env ==> y in st.env && g.scope.env[y] < g.next)
    && (forall y :: y in g.scope.env && y !in names ==>
          g.scope.env[y] in s.vals && s.vals[g.scope.env[y]] == st.env[y])
    && (forall y :: y in st.env && y in g.scope.consts ==> y in g.scope.env)
  }

  /** What a loop has to satisfy where it stands. */
  ghost predicate LoopOk(x: string, body: seq<Stmt>, g: Gen) {
    && Plain(body) && x !in g.scope.env && Scoped(body, g.scope.env.Keys + {x})
    && Assigned(body) * g.scope.env.Keys <= Direct(body)
    && ({x} + Assigned(body)) !! g.scope.consts.Keys
  }

  /** A bound name is found where its value has been put; the others where they were. */
  lemma BoundName(env: map<string, Value>, names: seq<string>, first: Value, vals: map<Value, int>, xs: seq<int>,
                  y: string)
    requires y in env && env[y] < first && |xs| == |names|
    ensures var v := BindNames(env, names, first)[y];
            && v < first + |xs|
            && (y in names || env[y] in vals ==> v in Bind(vals, first, xs))
            && (y in names ==> Bind(vals, first, xs)[v] == xs[Position(names, y)])
            && (y !in names && env[y] in vals ==> Bind(vals, first, xs)[v] == vals[env[y]])
  {
    BindAt(vals, first, xs, BindNames(env, names, first)[y]);
  }

  lemma EnterBody(x: string, names: seq<string>, g: Gen, i: int, st: State, s: Regs, xs: seq<int>, w: World)
    requires Carried(g, names, st, s, xs, w) && x !in g.scope.env && x !in g.scope.consts
    ensures Matches(BodyGen(g, x, names), st.(env := st.env[x := i]),
                    s.(vals := Bind(s.vals[g.next := i], g.next + 1, xs)), w)
  {
    forall y | y in BodyGen(g, x, names).scope.env
      ensures EnteredName(BodyGen(g, x, names), st.env[x := i], Bind(s.vals[g.next := i], g.next + 1, xs), y)
    {
      EnterName(x, names, g, i, st, s, xs, y, w);
    }
  }

  /** A bound name and where its value is. */
  predicate EnteredName(g: Gen, vars: map<string, int>, vals: map<Value, int>, y: string)
    requires y in g.scope.env
  {
    y in vars && g.scope.env[y] < g.next && g.scope.env[y] in vals && vals[g.scope.env[y]] == vars[y]
  }

  lemma EnterName(x: string, names: seq<string>, g: Gen, i: int, st: State, s: Regs, xs: seq<int>, y: string, w: World)
    requires Carried(g, names, st, s, xs, w) && x !in g.scope.env && y in BodyGen(g, x, names).scope.env
    ensures EnteredName(BodyGen(g, x, names), st.env[x := i], Bind(s.vals[g.next := i], g.next + 1, xs), y)
  {
    if y == x {
      BindAt(s.vals[g.next := i], g.next + 1, xs, g.next);
    } else {
      BoundName(g.scope.env, names, g.next + 1, s.vals[g.next := i], xs, y);
    }
  }

  lemma LeaveBody(x: string, body: seq<Stmt>, names: seq<string>, g: Gen, i: int, st: State, s: Regs, xs: seq<int>,
                  st2: State, s2: Regs, inner: Out, w: World)
    requires Carried(g, names, st, s, xs, w) && LoopOk(x, body, g) && names == IterNames(body, g.scope.env.Keys)
    requires Exec(body, st.(env := st.env[x := i]), w) == Some(st2)
    requires Matches(inner.g, st2, s2, w) && g.scope.env.Keys <= inner.g.scope.env.Keys
    ensures Carried(g, names, st2, s.(trace := s2.trace), Values(s2, Lookup(inner.g.scope.env, names)), w)
  {
    var st1 := st.(env := st.env[x := i]);
    DirectAssigned(body);
    forall y | y in g.scope.env && y !in names ensures y in st2.env && st2.env[y] == st.env[y] {
      ExecFrame(body, st1, w, y);
    }
    ExecNames(body, st1, w);
  }

  lemma ScopedParts(ss: seq<Stmt>, g: Gen)
    requires ss != [] && Scoped(ss, g.scope.env.Keys) && GenStmt(ss[0], g).Some?
    ensures Scoped([ss[0]], g.scope.env.Keys) && Scoped(ss[1..], GenStmt(ss[0], g).value.g.scope.env.Keys)
  {
    assert [ss[0]][1..] == [];
    if ss[0].Assign? {
      assert GenStmt(ss[0], g).value.g.scope.env.Keys == g.scope.env.Keys + {ss[0].name};
    }
  }

  lemma {:induction false} BlockSound(ss: seq<Stmt>, g: Gen, st: State, s: Regs, w: World)
    requires Plain(ss) && Scoped(ss, g.scope.env.Keys) && Assigned(ss) !! g.scope.consts.Keys
    requires Matches(g, st, s, w) && GenBlock(ss, g).Some? && Exec(ss, st, w).Some?
    ensures var out := GenBlock(ss, g).value;
            var s' := RunOps(out.ops, s, w);
            Matches(out.g, Exec(ss, st, w).value, s', w) && Keeps(s.vals, s'.vals, g.next)
    decreases ss, 0, 0
  {
    if ss != [] {
      var a := GenStmt(ss[0], g).value;
      ScopedParts(ss, g);
      StmtConsts(ss[0], g);
      StmtSound(ss[0], g, st, s, w);
      var s1 := RunOps(a.ops, s, w);
      var b := GenBlock(ss[1..], a.g).value;
      BlockSound(ss[1..], a.g, ExecStmt(ss[0], st, w).value, s1, w);
      RunAppend(a.ops, b.ops, s, w);
    }
  }

  lemma {:induction false} StmtSound(t: Stmt, g: Gen, st: State, s: Regs, w: World)
    requires PlainStmt(t) && Scoped([t], g.scope.env.Keys) && AssignedBy(t) !! g.scope.consts.Keys
    requires Matches(g, st, s, w) && GenStmt(t, g).Some? && ExecStmt(t, st, w).Some?
    ensures var out := GenStmt(t, g).value;
            var s' := RunOps(out.ops, s, w);
            Matches(out.g, ExecStmt(t, st, w).value, s', w) && Keeps(s.vals, s'.vals, g.next)
    decreases t, 2, 0
  {
    match t
    case Assign(x, e) => AssignSound(x, e, g, st, s, w);
    case Store(buf, idx, val) => StoreSound(buf, idx, val, g, st, s, w);
    case For(x, lb, ub, step, body) =>
      var c := GenBounds(lb, ub, step, g).value;
      BoundsSound(lb, ub, step, g, st, s, w);
      var g1, names, s1 := Gen(g.scope, c.next), IterNames(body, g.scope.env.Keys), RunCode(c.ins, s, w);
      var inner := GenBlock(body, BodyGen(g1, x, names)).value;
      ForSound(x, body, c, g1, names, inner, st, s1, ExecStmt(t, st, w).value, w);
      RunLift(c.ins, s, w);
      RunAppend(Lift(c.ins), [LoopOp(c, g1, names, inner)], s, w);
      assert RunOps([LoopOp(c, g1, names, inner)], s1, w) == RunOp(LoopOp(c, g1, names, inner), s1, w);
  }

  lemma StartLoop(names: seq<string>, g: Gen, st: State, s: Regs, w: World)
    requires Matches(g, st, s, w) && forall x :: x in names ==> x in g.scope.env
    ensures Carried(g, names, st, s, Values(s, Lookup(g.scope.env, names)), w)
  {
    var xs := Values(s, Lookup(g.scope.env, names));
    forall i | 0 <= i < |names| ensures names[i] in st.env && xs[i] == st.env[names[i]] {
      assert names[i] in g.scope.env;
    }
  }

  lemma {:induction false} ForSound(x: string, body: seq<Stmt>, c: Bounds, g: Gen, names: seq<string>, inner: Out,
                                    st: State, s: Regs, st': State, w: World)
    requires LoopOk(x, body, g) && Matches(g, st, s, w) && s.Get(c.step) > 0
    requires names == IterNames(body, g.scope.env.Keys) && GenBlock(body, BodyGen(g, x, names)) == Some(inner)
    requires Iterate(x, body, s.Get(c.lb), s.Get(c.ub), s.Get(c.step), st, w) == Some(st')
    ensures var s' := RunOp(LoopOp(c, g, names, inner), s, w);
            Matches(AfterLoop(g, names, inner.g), st', s', w) && Keeps(s.vals, s'.vals, g.next)
    decreases body, 3, 0
  {
    var xs, outs := Values(s, Lookup(g.scope.env, names)), Lookup(inner.g.scope.env, names);
    StartLoop(names, g, st, s, w);
    BodyIterates(x, body, names, g, inner, w);
    LoopSound(x, body, names, g, inner.ops, outs, s.Get(c.lb), s.Get(c.ub), s.Get(c.step), st, s, xs, st', w);
    var out := RunLoop(g.next, inner.ops, outs, s.Get(c.lb), s.Get(c.ub), s.Get(c.step), xs, s, w);
    BlockConsts(body, BodyGen(g, x, names));
    LoopResults(names, g, inner.g, st', s, out.0, out.1, w);
  }

  lemma {:induction false} BlockConsts(ss: seq<Stmt>, g: Gen)
    requires Plain(ss) && GenBlock(ss, g).Some?
    ensures GenBlock(ss, g).value.g.scope.consts == g.scope.consts
    decreases ss, 0
  {
    if ss != [] {
      StmtConsts(ss[0], g);
      BlockConsts(ss[1..], GenStmt(ss[0], g).value.g);
    }
  }

  lemma {:induction false} StmtConsts(t: Stmt, g: Gen)
    requires PlainStmt(t) && GenStmt(t, g).Some?
    ensures GenStmt(t, g).value.g.scope.consts == g.scope.consts
    decreases t, 1
  {
    if t.For? {
      var g1 := Gen(g.scope, GenBounds(t.lb, t.ub, t.step, g).value.next);
      BlockConsts(t.body, BodyGen(g1, t.loopVar, IterNames(t.body, g.scope.env.Keys)));
    }
  }

  lemma LoopResults(names: seq<string>, g: Gen, inner: Gen, st: State, s: Regs, xs: seq<int>, trace: seq<Event>,
                    w: World)
    requires Carried(g, names, st, s.(trace := trace), xs, w) && g.next <= inner.next
    requires inner.scope.consts == g.scope.consts
    ensures Matches(AfterLoop(g, names, inner), st, s.(vals := Bind(s.vals, inner.next, xs), trace := trace), w)
    ensures Keeps(s.vals, Bind(s.vals, inner.next, xs), g.next)
  {
    var after, vals := AfterLoop(g, names, inner), Bind(s.vals, inner.next, xs);
    BindKeeps(s.vals, inner.next, xs, g.next);
    forall y | y in after.scope.env
      ensures after.scope.env[y] < after.next && after.scope.env[y] in vals && vals[after.scope.env[y]] == st.env[y]
    {
      BoundName(g.scope.env, names, inner.next, s.vals, xs, y);
    }
  }

  /** One run of the body carries the variables from one iteration to the next. */
  ghost predicate Iterates(x: string, body: seq<Stmt>, names: seq<string>, g: Gen, ops: seq<Op>, outs: seq<Value>,
                           w: World) {
    forall i, st, s, xs :: IterationKeeps(x, body, names, g, ops, outs, i, st, s, xs, w)
  }

  ghost predicate IterationKeeps(x: string, body: seq<Stmt>, names: seq<string>, g: Gen, ops: seq<Op>, outs: seq<Value>,
                                 i: int, st: State, s: Regs, xs: seq<int>, w: World) {
    Carried(g, names, st, s, xs, w) && Exec(body, Enter(st, x, i), w).Some? ==>
      var s2 := RunOps(ops, s.(vals := Bind(s.vals[g.next := i], g.next + 1, xs)), w);
      Carried(g, names, Exec(body, Enter(st, x, i), w).value, s.(trace := s2.trace), Values(s2, outs), w)
  }

  function Enter(st: State, x: string, i: int): State { st.(env := st.env[x := i]) }

  lemma {:induction false} LoopSound(x: string, body: seq<Stmt>, names: seq<string>, g: Gen, ops: seq<Op>,
                                     outs: seq<Value>, i: int, ub: int, step: int, st: State, s: Regs, xs: seq<int>,
                                     st': State, w: World)
    requires Iterates(x, body, names, g, ops, outs, w) && step > 0
    requires Carried(g, names, st, s, xs, w) && Iterate(x, body, i, ub, step, st, w) == Some(st')
    ensures var out := RunLoop(g.next, ops, outs, i, ub, step, xs, s, w);
            Carried(g, names, st', s.(trace := out.1), out.0, w)
    decreases ub - i
  {
    if i < ub {
      var s2 := RunOps(ops, s.(vals := Bind(s.vals[g.next := i], g.next + 1, xs)), w);
      assert IterationKeeps(x, body, names, g, ops, outs, i, st, s, xs, w);
      LoopSound(x, body, names, g, ops, outs, i + step, ub, step, Exec(body, Enter(st, x, i), w).value,
                s.(trace := s2.trace), Values(s2, outs), st', w);
    }
  }

  lemma {:induction false} BodyIterates(x: string, body: seq<Stmt>, names: seq<string>, g: Gen, inner: Out, w: World)
    requires LoopOk(x, body, g) && names == IterNames(body, g.scope.env.Keys)
    requires GenBlock(body, BodyGen(g, x, names)) == Some(inner)
    ensures Iterates(x, body, names, g, inner.ops, Lookup(inner.g.scope.env, names), w)
    decreases body, 2, 0
  {
    forall i, st, s, xs
      ensures IterationKeeps(x, body, names, g, inner.ops, Lookup(inner.g.scope.env, names), i, st, s, xs, w)
    {
      if Carried(g, names, st, s, xs, w) && Exec(body, Enter(st, x, i), w).Some? {
        IterationSound(x, body, names, g, inner, i, st, s, xs, Exec(body, Enter(st, x, i), w).value, w);
      }
    }
  }

  lemma {:induction false} IterationSound(x: string, body: seq<Stmt>, names: seq<string>, g: Gen, inner: Out, i: int,
                                          st: State, s: Regs, xs: seq<int>, st2: State, w: World)
    requires LoopOk(x, body, g) && names == IterNames(body, g.scope.env.Keys)
    requires GenBlock(body, BodyGen(g, x, names)) == Some(inner)
    requires Carried(g, names, st, s, xs, w) && Exec(body, st.(env := st.env[x := i]), w) == Some(st2)
    ensures var s2 := RunOps(inner.ops, s.(vals := Bind(s.vals[g.next := i], g.next + 1, xs)), w);
            Carried(g, names, st2, s.(trace := s2.trace), Values(s2, Lookup(inner.g.scope.env, names)), w)
    decreases body, 1, 0
  {
    var s1 := s.(vals := Bind(s.vals[g.next := i], g.next + 1, xs));
    EnterBody(x, names, g, i, st, s, xs, w);
    assert BodyGen(g, x, names).scope.env.Keys == g.scope.env.Keys + {x};
    BlockSound(body, BodyGen(g, x, names), st.(env := st.env[x := i]), s1, w);
    LeaveBody(x, body, names, g, i, st, s, xs, st2, RunOps(inner.ops, s1, w), inner, w);
  }

  // ------------------------------------------------------------------
  // Whole kernels
  // ------------------------------------------------------------------

  function Params(params: seq<string>): map<string, Value> { map x | x in params :: Position(params, x) }

  function Inputs(params: seq<string>, inputs: seq<int>): map<string, int>
    requires |params| == |inputs|
  {
    map x | x in params :: inputs[Position(params, x)]
  }

  /** Parameters are bound to the block arguments 0, 1, ... */
  function Start(params: seq<string>, w: World): Gen {
    Gen(Scope(Params(params), w.globals, None, None), |params|)
  }

  function StartRegs(inputs: seq<int>): Regs { Regs(Bind(map[], 0, inputs), map[], []) }

  /** A translated kernel makes the same stores in the same order and leaves the same values in its variables. */
  lemma KernelSound(params: seq<string>, inputs: seq<int>, ss: seq<Stmt>, w: World)
    requires |params| == |inputs|
    requires Plain(ss) && Scoped(ss, Params(params).Keys) && Assigned(ss) !! w.globals.Keys
    requires GenBlock(ss, Start(params, w)).Some? && Exec(ss, State(Inputs(params, inputs), []), w).Some?
    ensures var out := GenBlock(ss, Start(params, w)).value;
            var s' := RunOps(out.ops, StartRegs(inputs), w);
            var st' := Exec(ss, State(Inputs(params, inputs), []), w).value;
            && s'.trace == st'.trace
            && forall x :: x in out.g.scope.env ==> x in st'.env && s'.Get(out.g.scope.env[x]) == st'.env[x]
  {
    StartMatches(params, inputs, w);
    BlockSound(ss, Start(params, w), State(Inputs(params, inputs), []), StartRegs(inputs), w);
  }

  lemma StartMatches(params: seq<string>, inputs: seq<int>, w: World)
    requires |params| == |inputs|
    ensures Matches(Start(params, w), State(Inputs(params, inputs), []), StartRegs(inputs), w)
  {
    forall x | x in params
      ensures Params(params)[x] in StartRegs(inputs).vals &&
                StartRegs(inputs).vals[Params(params)[x]] == Inputs(params, inputs)[x]
    {
      BindAt(map[], 0, inputs, Position(params, x));
    }
  }
}
