/**
 The LLVM code generator as it runs (language/smt_rvisa/llvm_direct.py): it appends blocks and instructions in
 place and rebinds names in one environment that is never restored. Every method leaves the state that
 CfgLowering computes.
 */
module CfgCodegen {
  import opened Wrappers
  import opened KernelLang
  import S = Ssa
  import opened ScfLowering
  import opened CfgLowering

  type Value = S.Value

  class LLVMDirectCodegen {
    var env: map<string, Value>
    var next: Value
    var curBlk: nat
    var blocks: Cfg

    constructor (params: seq<string>)
      ensures View() == CGen(Params(params), |params|, 0, [Block(0, [], None)])
    {
      env, next := Params(params), |params|;
      curBlk, blocks := 0, [Block(0, [], None)];
    }

    function View(): CGen
      reads this
    {
      CGen(env, next, curBlk, blocks)
    }

    /** Append an instruction at the insertion point, the end of the current block. */
    method Emit(i: S.Ins)
      requires View().Open()
      modifies `blocks
      ensures View().Open() && blocks == old(View()).Add([i]).blocks
    {
      blocks := blocks[curBlk := blocks[curBlk].(code := blocks[curBlk].code + [i])];
    }

    method Fresh() returns (v: Value)
      modifies `next
      ensures v == old(next) && next == v + 1
    {
      v := next;
      next := next + 1;
    }

    method GenExpr(e: Expr) returns (ok: bool, val: Value)
      requires View().Open()
      modifies `next, `blocks
      ensures var c := S.GenExpr(e, old(View()).Scope(), old(next));
              ok == c.Some? &&
              (ok ==> val == c.value.val && next == c.value.next && blocks == old(View()).Add(c.value.ins).blocks)
      ensures View().Open()
      decreases e
    {
      ghost var g := View();
      match e
      case Var(x) =>
        ok, val := x in env, 0;
        if ok {
          val := env[x];
          AddNothing(g);
        }
      case Const(n) =>
        val := Fresh();
        Emit(S.IConst(val, n));
        ok := true;
      case Bin(op, l, r) =>
        var a, b;
        val := 0;
        ok, a := GenExpr(l);
        if !ok { return; }
        ghost var ca := S.GenExpr(l, g.Scope(), g.next).value;
        ok, b := GenExpr(r);
        if !ok { return; }
        ghost var cb := S.GenExpr(r, g.Scope(), ca.next).value;
        AddTwice(g, ca.ins, cb.ins);
        val := Fresh();
        Emit(S.IBin(val, op, a, b));
        AddTwice(g, ca.ins + cb.ins, [S.IBin(val, op, a, b)]);
      case Load(buf, idx) =>
        var i;
        val := 0;
        ok, i := GenExpr(idx);
        if !ok { return; }
        ghost var c := S.GenExpr(idx, g.Scope(), g.next).value;
        val := Fresh();
        Emit(S.ILoad(val, buf, i));
        AddTwice(g, c.ins, [S.ILoad(val, buf, i)]);
      case VLoad(_, _) => ok, val := false, 0;
    }

    method GenStmt(s: Stmt) returns (ok: bool)
      requires View().Open()
      modifies this
      ensures var r := GenStmtC(s, old(View())); ok == r.Some? && (ok ==> View() == r.value)
      decreases s, 1
    {
      match s
      case Assign(x, e) =>
        var v;
        ok, v := GenExpr(e);
        if ok { env := env[x := v]; }
      case Store(buf, idx, val) => ok := GenStore(buf, idx, val);
      case For(x, lb, ub, step, body) => ok := GenFor(x, lb, ub, step, body);
      case VStore(_, _, _) => ok := false;
      case Vconfig(_, _, _) => ok := false;
    }

    method GenStore(buf: string, idx: Expr, val: Expr) returns (ok: bool)
      requires View().Open()
      modifies `next, `blocks
      ensures var r := GenStmtC(Store(buf, idx, val), old(View())); ok == r.Some? && (ok ==> View() == r.value)
    {
      ghost var g := View();
      var i, v;
      ok, i := GenExpr(idx);
      if !ok { return; }
      ghost var ci := S.GenExpr(idx, g.Scope(), g.next).value;
      ok, v := GenExpr(val);
      if !ok { return; }
      ghost var cv := S.GenExpr(val, g.Scope(), ci.next).value;
      AddTwice(g, ci.ins, cv.ins);
      Emit(S.IStore(buf, i, v));
      AddTwice(g, ci.ins + cv.ins, [S.IStore(buf, i, v)]);
    }

    method GenBody(ss: seq<Stmt>) returns (ok: bool)
      requires View().Open()
      modifies this
      ensures var r := GenBlockC(ss, old(View())); ok == r.Some? && (ok ==> View() == r.value)
      decreases ss, 0
    {
      ghost var g0 := View();
      for i := 0 to |ss|
        invariant View().Open() && GenBlockC(ss[i..], View()) == GenBlockC(ss, g0)
      {
        assert ss[i..][1..] == ss[i + 1..];
        ok := GenStmt(ss[i]);
        if !ok { return; }
      }
      ok := true;
    }

    /** lb, ub and step, in the block in front of the loop. */
    method GenRange(lb: Expr, ub: Expr, step: Expr) returns (ok: bool, lo: Value, hi: Value, inc: Value)
      requires View().Open()
      modifies `next, `blocks
      ensures var c := GenBounds(lb, ub, step, Gen(old(View()).Scope(), old(next)));
              ok == c.Some? &&
              (ok ==> lo == c.value.lb && hi == c.value.ub && inc == c.value.step && next == c.value.next &&
                      blocks == old(View()).Add(c.value.ins).blocks)
      ensures View().Open()
    {
      ghost var g := View();
      lo, hi, inc := 0, 0, 0;
      ok, lo := GenExpr(lb);
      if !ok { return; }
      ghost var a := S.GenExpr(lb, g.Scope(), g.next).value;
      ok, hi := GenNext(ub, g, a.ins);
      if !ok { return; }
      ghost var b := S.GenExpr(ub, g.Scope(), a.next).value;
      ok, inc := GenNext(step, g, a.ins + b.ins);
    }

    /** An expression behind code that has been appended already. */
    method GenNext(e: Expr, ghost g: CGen, ghost code: seq<S.Ins>) returns (ok: bool, val: Value)
      requires g.Open() && View() == g.Add(code).(next := next)
      modifies `next, `blocks
      ensures var c := S.GenExpr(e, g.Scope(), old(next));
              ok == c.Some? &&
              (ok ==> val == c.value.val && next == c.value.next && blocks == g.Add(code + c.value.ins).blocks)
      ensures View().Open()
    {
      ok, val := GenExpr(e);
      if ok { AddTwice(g, code, S.GenExpr(e, g.Scope(), old(next)).value.ins); }
    }

    method FindReassignedNames(body: seq<Stmt>, outer: set<string>) returns (reassigned: seq<string>)
      ensures reassigned == FindReassigned(body, outer)
    {
      reassigned := [];
      for i := 0 to |body|
        invariant reassigned == FindReassigned(body[..i], outer)
      {
        assert body[..i + 1][..i] == body[..i];
        var t := Target(body[i]);
        if t.Some? && t.value in outer && t.value !in reassigned {
          reassigned := reassigned + [t.value];
        }
      }
      assert body[..|body|] == body;
    }

    /** Bind names to consecutive values, one after the other. */
    method Rebind(names: seq<string>, first: Value)
      requires Distinct(names) && forall x :: x in names ==> x in env
      modifies `env
      ensures env == BindNames(old(env), names, first)
    {
      for i := 0 to |names|
        invariant env.Keys == old(env).Keys
        invariant forall x :: x in env ==>
          env[x] == if x in names && Position(names, x) < i then first + Position(names, x) else old(env)[x]
      {
        PositionOf(names, i);
        env := env[names[i] := first + i];
      }
    }

    method GenFor(x: string, lb: Expr, ub: Expr, step: Expr, body: seq<Stmt>) returns (ok: bool)
      requires View().Open()
      modifies this
      ensures var r := GenStmtC(For(x, lb, ub, step, body), old(View())); ok == r.Some? && (ok ==> View() == r.value)
      decreases body, 2
    {
      ghost var g := View();
      var lo, hi, inc;
      ok, lo, hi, inc := GenRange(lb, ub, step);
      if !ok { return; }
      ghost var c := GenBounds(lb, ub, step, Gen(g.Scope(), g.next)).value;
      ok := GenLoop(x, lo, hi, inc, body, g, c);
    }

    /** Header, body and exit. */
    method GenLoop(x: string, lb: Value, ub: Value, step: Value, body: seq<Stmt>, ghost g: CGen, ghost c: Bounds)
      returns (ok: bool)
      requires View().Open() && g.Open() && g.next <= c.next
      requires View() == g.Add(c.ins).(next := c.next) && lb == c.lb && ub == c.ub && step == c.step
      modifies this
      ensures var r := GenLoopC(x, body, c, g); ok == r.Some? && (ok ==> View() == r.value)
      decreases body, 1
    {
      var reassigned := FindReassignedNames(body, env.Keys);
      var header, iv := |blocks|, next;
      EnterLoop(x, reassigned, lb, ub, g, c);
      ok := GenBody(body);
      if ok { LeaveLoop(reassigned, header, iv, step, c); }
    }

    /** Branch to the header, whose arguments now stand for the loop variable and the reassigned names. */
    method EnterLoop(x: string, names: seq<string>, lb: Value, ub: Value, ghost g: CGen, ghost c: Bounds)
      requires View().Open() && g.Open() && g.next <= c.next && Distinct(names) && forall y :: y in names ==> y in g.env
      requires View() == g.Add(c.ins).(next := c.next) && lb == c.lb && ub == c.ub
      modifies this
      ensures View() == EnterLoopC(x, names, c, g)
    {
      var header, iv := |blocks|, next;
      var cond := iv + 1 + |names|;
      next := cond + 1;
      var entry := blocks[curBlk].(term := Some(Br([lb] + Lookup(env, names), header)));
      blocks := blocks[curBlk := entry] + [
        Block(iv, [S.ICmpLt(cond, iv, ub)], Some(CondBr(cond, header + 1, header + 2))),
        Block(0, [], None),
        Block(0, [], None)];
      env := env[x := iv];
      Rebind(names, iv + 1);
      curBlk := header + 1;
    }

    /** Close the back edge and go on in the exit block. */
    method LeaveLoop(names: seq<string>, header: nat, iv: Value, step: Value, ghost c: Bounds)
      requires View().Open() && iv == c.next && step == c.step && Distinct(names) && forall y :: y in names ==> y in env
      modifies this
      ensures View() == LeaveLoopC(names, c, header, old(View()))
    {
      var nxt := Fresh();
      Emit(S.IBin(nxt, Plus, iv, step));
      blocks := blocks[curBlk := blocks[curBlk].(term := Some(Br([nxt] + Lookup(env, names), header)))];
      curBlk := header + 2;
      Rebind(names, iv + 1);
    }
  }

  lemma AddTwice(g: CGen, a: seq<S.Ins>, b: seq<S.Ins>)
    requires g.Open()
    ensures g.Add(a).Add(b).blocks == g.Add(a + b).blocks
  {
    assert g.blocks[g.cur].code + a + b == g.blocks[g.cur].code + (a + b);
  }

  lemma AddNothing(g: CGen)
    requires g.Open()
    ensures g.Add([]).blocks == g.blocks
  {
    assert g.blocks[g.cur].code + [] == g.blocks[g.cur].code;
  }
}
