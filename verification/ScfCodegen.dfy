/**
 The structured code generator as it runs (language/smt_rvisa/codegen.py): it walks the kernel, updates its
 environment in place, and takes and restores snapshots around the body of a loop. Every method leaves the
 state and emits the operations that ScfLowering computes.
 */
module ScfCodegen {
  import opened Wrappers
  import opened KernelLang
  import S = Ssa
  import opened ScfLowering

  type Value = S.Value

  lemma AddCode(ops: seq<Op>, a: seq<S.Ins>, b: seq<S.Ins>)
    ensures ops + Lift(a) + Lift(b) == ops + Lift(a + b)
  {
    assert Lift(a + b) == Lift(a) + Lift(b);
  }

  lemma Behind(ops: seq<Op>, a: seq<Op>, op: Op)
    ensures ops + a + [op] == ops + (a + [op])
  {
  }

  lemma ForEmits(x: string, lb: Expr, ub: Expr, step: Expr, body: seq<Stmt>, g: Gen)
    requires GenBounds(lb, ub, step, g).Some?
    ensures var c := GenBounds(lb, ub, step, g).value;
            var loop := GenLoop(x, body, c, Gen(g.scope, c.next));
            ScfLowering.GenStmt(For(x, lb, ub, step, body), g) ==
            if loop.None? then None else Some(Out(Lift(c.ins) + [loop.value.0], loop.value.1))
  {
  }

  lemma AddOne(ops: seq<Op>, a: seq<S.Ins>, i: S.Ins)
    ensures ops + Lift(a) + [Simple(i)] == ops + Lift(a + [i])
  {
    assert Lift([i]) == [Simple(i)];
    AddCode(ops, a, [i]);
  }

  /** What is emitted in the end, and the state in the end, when these statements are still to come. */
  function InTheEnd(ops: seq<Op>, ss: seq<Stmt>, g: Gen): Option<Out> {
    var rest := GenBlock(ss, g);
    if rest.None? then None else Some(Out(ops + rest.value.ops, rest.value.g))
  }

  lemma RestStep(ops: seq<Op>, ss: seq<Stmt>, g: Gen)
    requires ss != []
    ensures InTheEnd(ops, ss, g) ==
              if GenStmt(ss[0], g).None? then None
              else InTheEnd(ops + GenStmt(ss[0], g).value.ops, ss[1..], GenStmt(ss[0], g).value.g)
  {
    if GenStmt(ss[0], g).Some? && GenBlock(ss[1..], GenStmt(ss[0], g).value.g).Some? {
      var a, b := GenStmt(ss[0], g).value.ops, GenBlock(ss[1..], GenStmt(ss[0], g).value.g).value.ops;
      assert ops + (a + b) == ops + a + b;
    }
  }

  class SmtMLIRBuilderCodegen {
    var env: map<string, Value>
    var constexprInts: map<string, int>
    var activeVl: Option<int>
    var activeValid: Option<Value>
    var next: Value
    var ops: seq<Op>                                     // the region at the insertion point

    /** Parameters are bound to the block arguments. */
    constructor (params: seq<string>, w: World)
      ensures View() == Start(params, w) && ops == []
    {
      env, constexprInts := Params(params), w.globals;
      activeVl, activeValid := None, None;
      next, ops := |params|, [];
    }

    function View(): Gen
      reads this
    {
      Gen(S.Scope(env, constexprInts, activeVl, activeValid), next)
    }

    method Emit(i: S.Ins)
      modifies `ops
      ensures ops == old(ops) + [Simple(i)]
    {
      ops := ops + [Simple(i)];
    }

    /** A fresh number for the result of the next operation. */
    method Fresh() returns (v: Value)
      modifies `next
      ensures v == old(next) && next == v + 1
    {
      v := next;
      next := next + 1;
    }

    method ConstInt(n: int) returns (v: Value)
      modifies `next, `ops
      ensures v == old(next) && next == v + 1 && ops == old(ops) + [Simple(S.IConst(v, n))]
    {
      v := Fresh();
      Emit(S.IConst(v, n));
    }

    method GenExpr(e: Expr) returns (ok: bool, val: Value)
      modifies `next, `ops
      ensures var c := S.GenExpr(e, old(View()).scope, old(next));
              ok == c.Some? &&
              (ok ==> val == c.value.val && next == c.value.next && ops == old(ops) + Lift(c.value.ins))
      decreases e, 1
    {
      match e
      case Var(x) =>
        ok, val := true, 0;
        if x in env {
          val := env[x];
        } else if x in constexprInts {
          val := ConstInt(constexprInts[x]);
        } else {
          ok := false;
        }
      case Const(n) =>
        val := ConstInt(n);
        ok := true;
      case Bin(op, l, r) => ok, val := GenBinop(op, l, r);
      case Load(buf, idx) =>
        var i;
        val := 0;
        ok, i := GenExpr(idx);
        if !ok { return; }
        val := Fresh();
        Emit(S.ILoad(val, buf, i));
      case VLoad(buf, idx) =>
        if activeVl.None? { return false, 0; }
        var i;
        val := 0;
        ok, i := GenExpr(idx);
        if !ok { return; }
        val := Fresh();
        Emit(S.IVLoad(val, buf, i, activeVl.value, activeValid));
    }

    method GenBinop(op: BinOp, l: Expr, r: Expr) returns (ok: bool, val: Value)
      modifies `next, `ops
      ensures var c := S.GenExpr(Bin(op, l, r), old(View()).scope, old(next));
              ok == c.Some? &&
              (ok ==> val == c.value.val && next == c.value.next && ops == old(ops) + Lift(c.value.ins))
      decreases Bin(op, l, r), 0
    {
      ghost var g, ops0 := View(), ops;
      var a, b;
      val := 0;
      ok, a := GenExpr(l);
      if !ok { return; }
      ghost var ac := S.GenExpr(l, g.scope, g.next).value;
      ok, b := GenExpr(r);
      if !ok { return; }
      ghost var bc := S.GenExpr(r, g.scope, ac.next).value;
      val := Fresh();
      AddCode(ops0, ac.ins, bc.ins);
      Emit(S.IBin(val, op, a, b));
      AddOne(ops0, ac.ins + bc.ins, S.IBin(val, op, a, b));
    }

    method GenStmt(s: Stmt) returns (ok: bool)
      modifies this
      ensures var out := ScfLowering.GenStmt(s, old(View()));
              ok == out.Some? && (ok ==> View() == out.value.g && ops == old(ops) + out.value.ops)
      decreases s, 1
    {
      match s
      case Assign(x, e) =>
        var val;
        ok, val := GenExpr(e);
        if ok { env := env[x := val]; }
      case Store(buf, idx, val) => ok := GenSstore(buf, idx, val);
      case VStore(buf, idx, val) => ok := GenVstore(buf, idx, val);
      case Vconfig(target, avl, lmul) => ok := ApplyVconfig(target, avl, lmul);
      case For(x, lb, ub, step, body) => ok := GenFor(x, lb, ub, step, body);
    }

    method GenSstore(buf: string, idx: Expr, val: Expr) returns (ok: bool)
      modifies `next, `ops
      ensures var out := GenStore(buf, idx, val, old(View()));
              ok == out.Some? && (ok ==> View() == out.value.g && ops == old(ops) + out.value.ops)
    {
      ghost var g, ops0 := View(), ops;
      var i, v;
      ok, i := GenExpr(idx);
      if !ok { return; }
      ghost var a := S.GenExpr(idx, g.scope, g.next).value;
      ok, v := GenExpr(val);
      if !ok { return; }
      ghost var b := S.GenExpr(val, g.scope, a.next).value;
      AddCode(ops0, a.ins, b.ins);
      Emit(S.IStore(buf, i, v));
      AddOne(ops0, a.ins + b.ins, S.IStore(buf, i, v));
    }

    method GenVstore(buf: string, idx: Expr, val: Expr) returns (ok: bool)
      modifies `next, `ops
      ensures var out := GenVStore(buf, idx, val, old(View()));
              ok == out.Some? && (ok ==> View() == out.value.g && ops == old(ops) + out.value.ops)
    {
      ghost var g, ops0 := View(), ops;
      var i, v;
      ok, v := GenExpr(val);
      if !ok { return; }
      ghost var a := S.GenExpr(val, g.scope, g.next).value;
      ok, i := GenExpr(idx);
      if !ok { return; }
      ghost var b := S.GenExpr(idx, g.scope, a.next).value;
      AddCode(ops0, a.ins, b.ins);
      Emit(S.IVStore(buf, i, v, activeValid));
      AddOne(ops0, a.ins + b.ins, S.IVStore(buf, i, v, activeValid));
    }

    method ApplyVconfig(target: Option<string>, avl: Expr, lmul: nat) returns (ok: bool)
      modifies this
      ensures var out := GenVconfig(target, avl, lmul, old(View()));
              ok == out.Some? && (ok ==> View() == out.value.g && ops == old(ops) + out.value.ops)
    {
      var vl := VlMax(lmul);
      ok := true;
      activeVl := Some(vl);
      if avl.Const? && avl.n >= VlMax(1) {
        activeValid := None;
      } else if avl.Const? && avl.n < 0 {
        activeValid := None;
      } else {
        ok := ValidLength(avl, vl);
        if !ok { return; }
      }
      if target.Some? { constexprInts := constexprInts[target.value := vl]; }
    }

    /** The smaller of the vector length and the requested one. */
    method ValidLength(avl: Expr, vl: int) returns (ok: bool)
      modifies `next, `ops, `activeValid
      ensures var a := S.GenExpr(avl, old(View()).scope, old(next));
              ok == a.Some? &&
              (ok ==> activeValid == Some(a.value.next + 1) && next == a.value.next + 2) &&
              (ok ==> ops == old(ops) + Lift(a.value.ins + [S.IConst(a.value.next, vl),
                                                            S.IMinSI(a.value.next + 1, a.value.next, a.value.val)]))
    {
      ghost var g, ops0 := View(), ops;
      var a;
      ok, a := GenExpr(avl);
      if !ok { return; }
      ghost var ins := S.GenExpr(avl, g.scope, g.next).value.ins;
      var c := ConstInt(vl);
      var m := Fresh();
      Emit(S.IMinSI(m, c, a));
      activeValid := Some(m);
      AddCode(ops0, ins, [S.IConst(c, vl), S.IMinSI(m, c, a)]);
      assert Lift([S.IConst(c, vl), S.IMinSI(m, c, a)]) == [Simple(S.IConst(c, vl)), Simple(S.IMinSI(m, c, a))];
    }

    method GenBody(ss: seq<Stmt>) returns (ok: bool)
      modifies this
      ensures var out := GenBlock(ss, old(View()));
              ok == out.Some? && (ok ==> View() == out.value.g && ops == old(ops) + out.value.ops)
      decreases ss, 0
    {
      ghost var g0, ops0 := View(), ops;
      for i := 0 to |ss|
        invariant InTheEnd(ops, ss[i..], View()) == InTheEnd(ops0, ss, g0)
      {
        RestStep(ops, ss[i..], View());
        assert ss[i..][1..] == ss[i + 1..];
        ok := GenStmt(ss[i]);
        if !ok { return; }
      }
      ok := true;
    }

    /** Bind names to consecutive values, one after the other. */
    method Rebind(names: seq<string>, first: Value)
      requires Distinct(names) && forall x :: x in names ==> x in env
      modifies `env
      ensures env == BindNames(old(env), names, first)
    {
      for i := 0 to |names|
        invariant env.Keys == old(env).Keys
        invariant forall x :: x in env ==>
          env[x] == if x in names && Position(names, x) < i then first + Position(names, x) else old(env)[x]
      {
        PositionOf(names, i);
        env := env[names[i] := first + i];
      }
    }

    /** The scan for outer names that the body assigns directly. */
    method FindReassignedNames(body: seq<Stmt>, outer: set<string>) returns (found: seq<string>)
      ensures found == FindReassigned(body, outer)
    {
      found := [];
      for i := 0 to |body|
        invariant found == FindReassigned(body[..i], outer)
      {
        assert body[..i + 1][..i] == body[..i];
        var t := Target(body[i]);
        if t.Some? && t.value in outer && t.value !in found {
          found := found + [t.value];
        }
      }
      assert body[..|body|] == body;
    }

    method GenFor(x: string, lb: Expr, ub: Expr, step: Expr, body: seq<Stmt>) returns (ok: bool)
      modifies this
      ensures var out := ScfLowering.GenStmt(For(x, lb, ub, step, body), old(View()));
              ok == out.Some? && (ok ==> View() == out.value.g && ops == old(ops) + out.value.ops)
      decreases body, 3
    {
      ghost var g, ops0 := View(), ops;
      ghost var c := GenBounds(lb, ub, step, g);
      var lo, hi, inc;
      ok, lo, hi, inc := GenRange(lb, ub, step);
      if !ok { return; }
      assert View() == Gen(g.scope, c.value.next);
      ghost var loop := GenLoop(x, body, c.value, View());
      ok := CreateFor(x, lo, hi, inc, body, c.value.ins);
      ForEmits(x, lb, ub, step, body, g);
      if ok { Behind(ops0, Lift(c.value.ins), loop.value.0); }
    }

    method GenRange(lb: Expr, ub: Expr, step: Expr) returns (ok: bool, lo: Value, hi: Value, inc: Value)
      modifies `next, `ops
      ensures var c := GenBounds(lb, ub, step, old(View()));
              ok == c.Some? &&
              (ok ==> (lo, hi, inc, next) == (c.value.lb, c.value.ub, c.value.step, c.value.next)) &&
              (ok ==> ops == old(ops) + Lift(c.value.ins))
    {
      ghost var g, ops0 := View(), ops;
      lo, hi, inc := 0, 0, 0;
      ok, lo := GenExpr(lb);
      if !ok { return; }
      ghost var a := S.GenExpr(lb, g.scope, g.next).value;
      ok, hi := GenNext(ub, ops0, a.ins);
      if !ok { return; }
      ok, inc := GenNext(step, ops0, a.ins + S.GenExpr(ub, g.scope, a.next).value.ins);
    }

    /** An expression behind code that has been emitted already. */
    method GenNext(e: Expr, ghost ops0: seq<Op>, ghost code: seq<S.Ins>) returns (ok: bool, val: Value)
      requires ops == ops0 + Lift(code)
      modifies `next, `ops
      ensures var c := S.GenExpr(e, View().scope, old(next));
              ok == c.Some? &&
              (ok ==> val == c.value.val && next == c.value.next && ops == ops0 + Lift(code + c.value.ins))
    {
      ok, val := GenExpr(e);
      if ok { AddCode(ops0, code, S.GenExpr(e, View().scope, old(next)).value.ins); }
    }

    /** Build the loop once its bounds are known. */
    method CreateFor(x: string, lb: Value, ub: Value, step: Value, body: seq<Stmt>, ghost ins: seq<S.Ins>)
      returns (ok: bool)
      modifies this
      ensures var loop := GenLoop(x, body, Bounds(ins, lb, ub, step, old(next)), old(View()));
              ok == loop.Some? && (ok ==> View() == loop.value.1 && ops == old(ops) + [loop.value.0])
      decreases body, 2
    {
      var found := FindReassignedNames(body, env.Keys);
      var reassigned := SortNames(found);
      SortDistinct(found);
      var inits := Lookup(env, reassigned);
      var savedVl, savedValid, savedEnv, outerOps, iv := activeVl, activeValid, env, ops, next;
      var outs;
      ok, outs := GenRegion(x, reassigned, body);
      if !ok { return; }
      env := savedEnv;
      var results := next;
      next := next + |reassigned|;
      ops := outerOps + [ScfFor(lb, ub, step, inits, iv, ops, outs, results)];
      activeVl, activeValid := savedVl, savedValid;
      Rebind(reassigned, results);
    }

    /** The region of a loop: block arguments, body, and what it hands to the next iteration. */
    method GenRegion(x: string, names: seq<string>, body: seq<Stmt>) returns (ok: bool, outs: seq<Value>)
      requires Distinct(names) && forall y :: y in names ==> y in env
      modifies this
      ensures var inner := GenBlock(body, BodyGen(old(View()), x, names));
              ok == inner.Some? &&
              (ok ==> View() == inner.value.g && ops == inner.value.ops && outs == Lookup(env, names))
      decreases body, 1
    {
      var iv := next;
      next := next + 1 + |names|;
      ops, outs := [], [];
      Rebind(names, iv + 1);
      env := env[x := iv];
      assert View() == BodyGen(old(View()), x, names);
      ok := GenBody(body);
      if ok { outs := Lookup(env, names); }
    }
  }
}
