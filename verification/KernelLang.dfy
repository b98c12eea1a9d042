/**
 The kernel language that both loop compilers translate (language/smt_rvisa/codegen.py and
 language/smt_rvisa/llvm_direct.py): assignments, stores and nested `range` loops over integer scalars,
 together with what Python does when it runs them.
 */
module KernelLang {
  import opened Wrappers

  datatype BinOp = Plus | Minus | Times

  datatype Expr =
    | Var(name: string)
    | Const(n: int)
    | Bin(op: BinOp, left: Expr, right: Expr)
    | Load(buf: string, idx: Expr)                       // scalar load from a buffer parameter
    | VLoad(buf: string, idx: Expr)                      // vector load of the active length

  datatype Stmt =
    | Assign(name: string, value: Expr)
    | Store(buf: string, idx: Expr, val: Expr)
    | For(loopVar: string, lb: Expr, ub: Expr, step: Expr, body: seq<Stmt>)
    | Vconfig(target: Option<string>, avl: Expr, lmul: nat)
    | VStore(buf: string, idx: Expr, val: Expr)          // vector store of the active length

  datatype Event = Event(buf: string, idx: int, val: int)

  /** What a run starts from: buffer contents and the integer globals of the module. */
  datatype World = World(initial: (string, int) -> int, globals: map<string, int>)

  /** Variables, and the stores so far in order. */
  datatype State = State(env: map<string, int>, trace: seq<Event>)

  /** A buffer element: the last value stored there, or its initial contents. */
  function ReadBuf(w: World, trace: seq<Event>, buf: string, idx: int): int {
    if trace == [] then w.initial(buf, idx)
    else
      var last := trace[|trace| - 1];
      if last.buf == buf && last.idx == idx then last.val else ReadBuf(w, trace[..|trace| - 1], buf, idx)
  }

  function Apply(op: BinOp, a: int, b: int): int {
    match op
    case Plus => a + b
    case Minus => a - b
    case Times => a * b
  }

  // ------------------------------------------------------------------
  // What a program does
  // ------------------------------------------------------------------

  /** The value of an expression; None for a name that is not defined, and for vectors. */
  function Eval(e: Expr, st: State, w: World): Option<int> {
    match e
    case Var(x) =>
      if x in st.env then Some(st.env[x]) else if x in w.globals then Some(w.globals[x]) else None
    case Const(n) => Some(n)
    case Bin(op, l, r) =>
      var a, b := Eval(l, st, w), Eval(r, st, w);
      if a.None? || b.None? then None else Some(Apply(op, a.value, b.value))
    case Load(buf, idx) =>
      var i := Eval(idx, st, w);
      if i.None? then None else Some(ReadBuf(w, st.trace, buf, i.value))
    case VLoad(_, _) => None
  }

  /** Runs statements. None when a name is undefined or a loop does not count upwards. */
  function Exec(ss: seq<Stmt>, st: State, w: World): Option<State>
    decreases ss, 0, 0
  {
    if ss == [] then Some(st)
    else
      var next := ExecStmt(ss[0], st, w);
      if next.None? then None else Exec(ss[1..], next.value, w)
  }

  function ExecStmt(s: Stmt, st: State, w: World): Option<State>
    decreases s, 2, 0
  {
    match s
    case Assign(x, e) =>
      var v := Eval(e, st, w);
      if v.None? then None else Some(st.(env := st.env[x := v.value]))
    case Store(buf, idx, val) =>
      var i, v := Eval(idx, st, w), Eval(val, st, w);
      if i.None? || v.None? then None else Some(st.(trace := st.trace + [Event(buf, i.value, v.value)]))
    case For(x, lb, ub, step, body) =>
      var a, b, d := Eval(lb, st, w), Eval(ub, st, w), Eval(step, st, w);
      if a.None? || b.None? || d.None? || d.value <= 0 then None else Iterate(x, body, a.value, b.value, d.value, st, w)
    case Vconfig(_, _, _) => None
    case VStore(_, _, _) => None
  }

  /** The remaining iterations of a loop. */
  function Iterate(x: string, body: seq<Stmt>, iv: int, ub: int, step: int, st: State, w: World): Option<State>
    requires step > 0
    decreases body, 1, ub - iv
  {
    if iv >= ub then Some(st)
    else
      var next := Exec(body, st.(env := st.env[x := iv]), w);
      if next.None? then None else Iterate(x, body, iv + step, ub, step, next.value, w)
  }

  // ------------------------------------------------------------------
  // Names
  // ------------------------------------------------------------------

  /** Every name that running the statements may bind. */
  function Assigned(ss: seq<Stmt>): set<string> {
    if ss == [] then {} else AssignedBy(ss[0]) + Assigned(ss[1..])
  }

  function AssignedBy(s: Stmt): set<string> {
    match s
    case Assign(x, _) => {x}
    case For(x, _, _, _, body) => {x} + Assigned(body)
    case _ => if Target(s).Some? then {Target(s).value} else {}
  }

  /** The name on the left of an assignment; the result of a vconfig may be assigned too. */
  function Target(s: Stmt): Option<string> {
    match s
    case Assign(x, _) => Some(x)
    case Vconfig(target, _, _) => target
    case _ => None
  }

  /** The outer names that a body assigns directly, in the order of their first assignment. */
  function FindReassigned(body: seq<Stmt>, outer: set<string>): (r: seq<string>)
    ensures forall i :: 0 <= i < |r| ==> r[i] in outer && r[i] in Direct(body)
    ensures forall i, j :: 0 <= i < j < |r| ==> r[i] != r[j]
    ensures forall x :: x in outer && x in Direct(body) ==> x in r
  {
    if body == [] then []
    else
      var front, last := FindReassigned(body[..|body| - 1], outer), body[|body| - 1];
      DirectSplits(body);
      if Target(last).Some? && Target(last).value in outer && Target(last).value !in front then
        front + [Target(last).value]
      else front
  }

  /** The names assigned by the statements of a body itself, not by those of a loop inside it. */
  function Direct(ss: seq<Stmt>): set<string> {
    if ss == [] then {}
    else (if Target(ss[0]).Some? then {Target(ss[0]).value} else {}) + Direct(ss[1..])
  }

  lemma {:induction false} DirectSplits(ss: seq<Stmt>)
    requires ss != []
    ensures var last := ss[|ss| - 1];
            Direct(ss) == Direct(ss[..|ss| - 1]) + if Target(last).Some? then {Target(last).value} else {}
  {
    if |ss| > 1 {
      assert ss[..|ss| - 1][1..] == ss[1..][..|ss| - 2];
      DirectSplits(ss[1..]);
    }
  }

  lemma DirectAssigned(ss: seq<Stmt>)
    ensures Direct(ss) <= Assigned(ss)
  {
  }

  /** Running statements changes only the names they may bind. */
  lemma {:induction false} ExecFrame(ss: seq<Stmt>, st: State, w: World, y: string)
    requires y !in Assigned(ss) && Exec(ss, st, w).Some?
    ensures var env := Exec(ss, st, w).value.env;
            (y in env <==> y in st.env) && (y in env ==> env[y] == st.env[y])
    decreases ss, 0, 0
  {
    if ss != [] {
      StmtFrame(ss[0], st, w, y);
      ExecFrame(ss[1..], ExecStmt(ss[0], st, w).value, w, y);
    }
  }

  lemma {:induction false} StmtFrame(s: Stmt, st: State, w: World, y: string)
    requires y !in AssignedBy(s) && ExecStmt(s, st, w).Some?
    ensures var env := ExecStmt(s, st, w).value.env;
            (y in env <==> y in st.env) && (y in env ==> env[y] == st.env[y])
    decreases s, 2, 0
  {
    if s.For? {
      IterateFrame(s.loopVar, s.body, Eval(s.lb, st, w).value, Eval(s.ub, st, w).value, Eval(s.step, st, w).value, st,
                   w, y);
    }
  }

  lemma {:induction false} IterateFrame(x: string, body: seq<Stmt>, iv: int, ub: int, step: int, st: State, w: World,
                                        y: string)
    requires step > 0 && y != x && y !in Assigned(body) && Iterate(x, body, iv, ub, step, st, w).Some?
    ensures var env := Iterate(x, body, iv, ub, step, st, w).value.env;
            (y in env <==> y in st.env) && (y in env ==> env[y] == st.env[y])
    decreases body, 1, ub - iv
  {
    if iv < ub {
      var st1 := st.(env := st.env[x := iv]);
      ExecFrame(body, st1, w, y);
      IterateFrame(x, body, iv + step, ub, step, Exec(body, st1, w).value, w, y);
    }
  }

  /** Names bound after a run were bound before or are assigned. */
  lemma ExecNames(ss: seq<Stmt>, st: State, w: World)
    requires Exec(ss, st, w).Some?
    ensures Exec(ss, st, w).value.env.Keys <= st.env.Keys + Assigned(ss)
  {
    forall y | y in Exec(ss, st, w).value.env.Keys ensures y in st.env.Keys + Assigned(ss) {
      if y !in Assigned(ss) { ExecFrame(ss, st, w, y); }
    }
  }
}
