/**
 Straight-line SSA code and the translation of expressions, which both loop compilers share
 (language/smt_rvisa/codegen.py, language/smt_rvisa/llvm_direct.py).
 */
module Ssa {
  import opened Wrappers
  import opened KernelLang

  /** An SSA value. Values are numbered in the order in which they are defined. */
  type Value = nat

  datatype Ins =
    | IConst(dst: Value, n: int)
    | IBin(dst: Value, op: BinOp, a: Value, b: Value)
    | ICmpLt(dst: Value, a: Value, b: Value)
    | IMinSI(dst: Value, a: Value, b: Value)
    | ILoad(dst: Value, buf: string, idx: Value)
    | IStore(buf: string, idx: Value, val: Value)
    | IVLoad(dst: Value, buf: string, idx: Value, width: int, valid: Option<Value>)
    | IVStore(buf: string, idx: Value, val: Value, valid: Option<Value>)
  {
    function Defs(): set<Value> {
      match this
      case IStore(_, _, _) => {}
      case IVStore(_, _, _, _) => {}
      case _ => {dst}
    }

    function Uses(): set<Value> {
      match this
      case IConst(_, _) => {}
      case IBin(_, _, a, b) => {a, b}
      case ICmpLt(_, a, b) => {a, b}
      case IMinSI(_, a, b) => {a, b}
      case ILoad(_, _, i) => {i}
      case IStore(_, i, v) => {i, v}
      case IVLoad(_, _, i, _, valid) => {i} + if valid.Some? then {valid.value} else {}
      case IVStore(_, i, v, valid) => {i, v} + if valid.Some? then {valid.value} else {}
    }
  }

  /** Scalars and vectors defined so far, and the stores so far. */
  datatype Regs = Regs(vals: map<Value, int>, vecs: map<Value, seq<int>>, trace: seq<Event>)
  {
    function Get(v: Value): int { if v in vals then vals[v] else 0 }

    function Lanes(v: Value): seq<int> { if v in vecs then vecs[v] else [] }

    /** The valid length of a vector operation: a register, or the whole width. */
    function Length(valid: Option<Value>, width: int): int { if valid.Some? then Get(valid.value) else width }

    function Set(v: Value, n: int): Regs { this.(vals := vals[v := n]) }
  }

  /** A vector load: the lanes behind the valid length are filled with zeros. */
  function LoadLanes(w: World, trace: seq<Event>, buf: string, idx: int, width: int, n: int): seq<int> {
    seq(if width > 0 then width else 0, k => if k < n then ReadBuf(w, trace, buf, idx + k) else 0)
  }

  /** A vector store: one event for each lane below the valid length, in order. */
  function StoreLanes(buf: string, idx: int, lanes: seq<int>, n: int): seq<Event> {
    var len := if n <= 0 then 0 else if n <= |lanes| then n else |lanes|;
    seq(len, k requires 0 <= k < len => Event(buf, idx + k, lanes[k]))
  }

  function RunIns(i: Ins, s: Regs, w: World): Regs {
    match i
    case IConst(d, n) => s.Set(d, n)
    case IBin(d, op, a, b) => s.Set(d, Apply(op, s.Get(a), s.Get(b)))
    case ICmpLt(d, a, b) => s.Set(d, if s.Get(a) < s.Get(b) then 1 else 0)
    case IMinSI(d, a, b) => s.Set(d, if s.Get(a) <= s.Get(b) then s.Get(a) else s.Get(b))
    case ILoad(d, buf, idx) => s.Set(d, ReadBuf(w, s.trace, buf, s.Get(idx)))
    case IStore(buf, idx, v) => s.(trace := s.trace + [Event(buf, s.Get(idx), s.Get(v))])
    case IVLoad(d, buf, idx, width, valid) =>
      s.(vecs := s.vecs[d := LoadLanes(w, s.trace, buf, s.Get(idx), width, s.Length(valid, width))])
    case IVStore(buf, idx, v, valid) =>
      s.(trace := s.trace + StoreLanes(buf, s.Get(idx), s.Lanes(v), s.Length(valid, |s.Lanes(v)|)))
  }

  function RunCode(code: seq<Ins>, s: Regs, w: World): Regs {
    if code == [] then s else RunCode(code[1..], RunIns(code[0], s, w), w)
  }

  lemma {:induction false} RunCodeAppend(a: seq<Ins>, b: seq<Ins>, s: Regs, w: World)
    ensures RunCode(a + b, s, w) == RunCode(b, RunCode(a, s, w), w)
  {
    if a == [] {
      assert a + b == b;
    } else {
      assert (a + b)[1..] == a[1..] + b;
      RunCodeAppend(a[1..], b, RunIns(a[0], s, w), w);
    }
  }

  // ------------------------------------------------------------------
  // Expressions
  // ------------------------------------------------------------------

  /** What an expression is translated under: bound names, known integers, the active vector length. */
  datatype Scope = Scope(env: map<string, Value>, consts: map<string, int>, vl: Option<int>, valid: Option<Value>)

  /** Instructions, the value they leave, and the next free number. */
  datatype Code = Code(ins: seq<Ins>, val: Value, next: Value)

  /** None when a name is undefined or a vector operation comes before any vconfig. */
  function GenExpr(e: Expr, sc: Scope, next: Value): (r: Option<Code>)
    ensures r.Some? ==> r.value.next >= next
  {
    match e
    case Var(x) =>
      if x in sc.env then Some(Code([], sc.env[x], next))
      else if x in sc.consts then Some(Code([IConst(next, sc.consts[x])], next, next + 1))
      else None
    case Const(n) => Some(Code([IConst(next, n)], next, next + 1))
    case Bin(op, l, r) =>
      var a := GenExpr(l, sc, next);
      if a.None? then None
      else
        var b := GenExpr(r, sc, a.value.next);
        if b.None? then None
        else Some(Code(a.value.ins + b.value.ins + [IBin(b.value.next, op, a.value.val, b.value.val)],
                       b.value.next, b.value.next + 1))
    case Load(buf, idx) =>
      var i := GenExpr(idx, sc, next);
      if i.None? then None
      else Some(Code(i.value.ins + [ILoad(i.value.next, buf, i.value.val)], i.value.next, i.value.next + 1))
    case VLoad(buf, idx) =>
      if sc.vl.None? then None
      else
        var i := GenExpr(idx, sc, next);
        if i.None? then None
        else Some(Code(i.value.ins + [IVLoad(i.value.next, buf, i.value.val, sc.vl.value, sc.valid)],
                       i.value.next, i.value.next + 1))
  }

  predicate PlainExpr(e: Expr) {
    match e
    case Bin(_, l, r) => PlainExpr(l) && PlainExpr(r)
    case Load(_, idx) => PlainExpr(idx)
    case VLoad(_, _) => false
    case _ => true
  }

  predicate Plain(ss: seq<Stmt>) {
    ss == [] || (PlainStmt(ss[0]) && Plain(ss[1..]))
  }

  /** The part of the language with a meaning: no vector instructions. */
  predicate PlainStmt(s: Stmt) {
    match s
    case Assign(_, e) => PlainExpr(e)
    case Store(_, idx, val) => PlainExpr(idx) && PlainExpr(val)
    case For(_, lb, ub, step, body) => PlainExpr(lb) && PlainExpr(ub) && PlainExpr(step) && Plain(body)
    case Vconfig(_, _, _) => false
    case VStore(_, _, _) => false
  }

  // ------------------------------------------------------------------
  // Expressions keep their value
  // ------------------------------------------------------------------

  /** The bound names hold the values of the Python variables; a variable that is not bound hides no known integer. */
  ghost predicate Agree(env: map<string, Value>, next: Value, vars: map<string, int>, vals: map<Value, int>,
                        consts: map<string, int>) {
    && (forall x :: x in env ==> x in vars && env[x] < next && env[x] in vals && vals[env[x]] == vars[x])
    && (forall x :: x in vars && x in consts ==> x in env)
  }

  /** The known integers are globals of the module. */
  ghost predicate AreGlobals(consts: map<string, int>, w: World) {
    forall x :: x in consts ==> x in w.globals && w.globals[x] == consts[x]
  }

  /** Values numbered below `next` are kept. */
  ghost predicate Keeps(before: map<Value, int>, after: map<Value, int>, next: Value) {
    forall v :: v in before && v < next ==> v in after && after[v] == before[v]
  }

  lemma AgreeKept(env: map<string, Value>, next: Value, next': Value, vars: map<string, int>, vals: map<Value, int>,
                  vals': map<Value, int>, consts: map<string, int>)
    requires Agree(env, next, vars, vals, consts) && Keeps(vals, vals', next) && next <= next'
    ensures Agree(env, next', vars, vals', consts)
  {
  }

  /** Translated code never reads an undefined name, and leaves the value of the expression. */
  lemma {:induction false} ExprSound(e: Expr, sc: Scope, next: Value, st: State, s: Regs, w: World)
    requires PlainExpr(e) && GenExpr(e, sc, next).Some? && AreGlobals(sc.consts, w)
    requires Agree(sc.env, next, st.env, s.vals, sc.consts) && s.trace == st.trace
    ensures var code := GenExpr(e, sc, next).value;
            var s' := RunCode(code.ins, s, w);
            && s'.trace == s.trace && Keeps(s.vals, s'.vals, next)
            && code.val in s'.vals && code.val < code.next && Eval(e, st, w) == Some(s'.vals[code.val])
  {
    var code := GenExpr(e, sc, next).value;
    match e
    case Var(x) =>
    case Const(n) =>
    case Bin(op, l, r) =>
      var a := GenExpr(l, sc, next).value;
      var b := GenExpr(r, sc, a.next).value;
      var s1 := RunCode(a.ins, s, w);
      ExprSound(l, sc, next, st, s, w);
      AgreeKept(sc.env, next, a.next, st.env, s.vals, s1.vals, sc.consts);
      ExprSound(r, sc, a.next, st, s1, w);
      var last := [IBin(b.next, op, a.val, b.val)];
      RunCodeAppend(a.ins + b.ins, last, s, w);
      RunCodeAppend(a.ins, b.ins, s, w);
    case Load(buf, idx) =>
      var i := GenExpr(idx, sc, next).value;
      ExprSound(idx, sc, next, st, s, w);
      RunCodeAppend(i.ins, [ILoad(i.next, buf, i.val)], s, w);
  }
}
