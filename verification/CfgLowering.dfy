/**
 The control-flow lowering (language/smt_rvisa/llvm_direct.py): a `range` loop becomes a header block with
 block arguments for the induction variable and the reassigned names, a body, and an exit. Running the blocks
 computes what Python computes.
 */
module CfgLowering {
  import opened Wrappers
  import opened KernelLang
  import opened Ssa
  import opened ScfLowering

  datatype Term = Br(args: seq<Value>, target: nat) | CondBr(cond: Value, onTrue: nat, onFalse: nat) | Ret

  /** A block whose arguments are `first`, `first + 1`, ...; without a terminator it is still being filled. */
  datatype Block = Block(first: Value, code: seq<Ins>, term: Option<Term>)

  type Cfg = seq<Block>

  // ------------------------------------------------------------------
  // What blocks do
  // ------------------------------------------------------------------

  /** A machine state: instruction `pc` of block `blk` is next. */
  datatype Point = Point(blk: nat, pc: nat, regs: Regs)

  function Step(f: Cfg, p: Point, w: World): Point {
    if p.blk >= |f| then p
    else
      var b := f[p.blk];
      if p.pc < |b.code| then Point(p.blk, p.pc + 1, RunIns(b.code[p.pc], p.regs, w))
      else match b.term
        case Some(Br(args, t)) => Point(t, 0, Enters(f, t, Values(p.regs, args), p.regs))
        case Some(CondBr(c, t, e)) => Point(if p.regs.Get(c) != 0 then t else e, 0, p.regs)
        case _ => p
  }

  /** The block arguments receive the branch operands. */
  function Enters(f: Cfg, t: nat, xs: seq<int>, s: Regs): Regs {
    if t < |f| then s.(vals := Bind(s.vals, f[t].first, xs)) else s
  }

  function Run(f: Cfg, p: Point, n: nat, w: World): Point
    decreases n
  {
    if n == 0 then p else Run(f, Step(f, p, w), n - 1, w)
  }

  ghost predicate Reaches(f: Cfg, p: Point, q: Point, w: World) {
    exists n: nat :: Run(f, p, n, w) == q
  }

  lemma {:induction false} RunSplits(f: Cfg, p: Point, m: nat, n: nat, w: World)
    ensures Run(f, p, m + n, w) == Run(f, Run(f, p, m, w), n, w)
    decreases m
  {
    if m > 0 { RunSplits(f, Step(f, p, w), m - 1, n, w); }
  }

  lemma ReachesThen(f: Cfg, p: Point, q: Point, r: Point, w: World)
    requires Reaches(f, p, q, w) && Reaches(f, q, r, w)
    ensures Reaches(f, p, r, w)
  {
    var m: nat :| Run(f, p, m, w) == q;
    var n: nat :| Run(f, q, n, w) == r;
    RunSplits(f, p, m, n, w);
  }

  lemma ReachesStep(f: Cfg, p: Point, w: World)
    ensures Reaches(f, p, Step(f, p, w), w) && Reaches(f, p, p, w)
  {
    assert Run(f, p, 0, w) == p;
    assert Run(f, p, 1, w) == Run(f, Step(f, p, w), 0, w);
  }

  /** Code inside a block runs like straight-line code. */
  lemma {:induction false} ReachesCode(f: Cfg, blk: nat, pc: nat, code: seq<Ins>, s: Regs, w: World)
    requires blk < |f| && pc + |code| <= |f[blk].code| && f[blk].code[pc..pc + |code|] == code
    ensures Reaches(f, Point(blk, pc, s), Point(blk, pc + |code|, RunCode(code, s, w)), w)
    decreases |code|
  {
    ReachesStep(f, Point(blk, pc, s), w);
    if code != [] {
      assert f[blk].code[pc] == code[0];
      assert f[blk].code[pc + 1..pc + 1 + |code[1..]|] == code[1..];
      var s1 := RunIns(code[0], s, w);
      ReachesCode(f, blk, pc + 1, code[1..], s1, w);
      ReachesThen(f, Point(blk, pc, s), Point(blk, pc + 1, s1), Point(blk, pc + |code|, RunCode(code, s, w)), w);
    }
  }

  // ------------------------------------------------------------------
  // The translation
  // ------------------------------------------------------------------

  datatype CGen = CGen(env: map<string, Value>, next: Value, cur: nat, blocks: Cfg)
  {
    predicate Open() { cur < |blocks| && blocks[cur].term.None? }

    function Scope(): Ssa.Scope { Ssa.Scope(env, map[], None, None) }

    /** Append to the current block. */
    function Add(code: seq<Ins>): (g: CGen)
      requires Open()
      ensures g.Open() && Extends(this, g)
    {
      this.(blocks := blocks[cur := blocks[cur].(code := blocks[cur].code + code)])
    }
  }

  /** Translation only fills the current block and appends blocks. */
  predicate Extends(g: CGen, g': CGen)
    requires g.cur < |g.blocks|
  {
    && |g.blocks| <= |g'.blocks| && g.next <= g'.next && g.env.Keys <= g'.env.Keys
    && (forall i :: 0 <= i < |g.blocks| && i != g.cur ==> g'.blocks[i] == g.blocks[i])
    && g'.blocks[g.cur].first == g.blocks[g.cur].first && g.blocks[g.cur].code <= g'.blocks[g.cur].code
    && (g'.cur == g.cur || (g'.blocks[g.cur].term.Some? && g'.cur >= |g.blocks|))
  }

  lemma ExtendsTrans(a: CGen, b: CGen, c: CGen)
    requires a.Open() && b.Open() && Extends(a, b) && Extends(b, c)
    ensures Extends(a, c)
  {
  }

  function GenBlockC(ss: seq<Stmt>, g: CGen): (r: Option<CGen>)
    requires g.Open()
    ensures r.Some? ==> r.value.Open() && Extends(g, r.value)
    decreases ss, 0
  {
    if ss == [] then Some(g)
    else
      var a := GenStmtC(ss[0], g);
      if a.None? then None
      else
        var b := GenBlockC(ss[1..], a.value);
        if b.None? then None
        else
          ExtendsTrans(g, a.value, b.value);
          b
  }

  function GenStmtC(s: Stmt, g: CGen): (r: Option<CGen>)
    requires g.Open()
    ensures r.Some? ==> r.value.Open() && Extends(g, r.value)
    decreases s, 2
  {
    match s
    case Assign(x, e) =>
      var c := GenExpr(e, g.Scope(), g.next);
      if c.None? then None else Some(g.Add(c.value.ins).(env := g.env[x := c.value.val], next := c.value.next))
    case Store(buf, idx, val) =>
      var i := GenExpr(idx, g.Scope(), g.next);
      if i.None? then None
      else
        var v := GenExpr(val, g.Scope(), i.value.next);
        if v.None? then None
        else Some(g.Add(i.value.ins + v.value.ins + [IStore(buf, i.value.val, v.value.val)]).(next := v.value.next))
    case For(x, lb, ub, step, body) =>
      var c := GenBounds(lb, ub, step, Gen(g.Scope(), g.next));
      if c.None? then None else GenLoopC(x, body, c.value, g)
    case _ => None
  }

  /** The blocks of a loop, with the body still empty, and the state in which the body is translated. */
  function EnterLoopC(x: string, names: seq<string>, c: Bounds, g: CGen): (r: CGen)
    requires g.Open() && (forall y :: y in names ==> y in g.env) && g.next <= c.next
    ensures r.Open() && r.cur == |g.blocks| + 1 && |r.blocks| == |g.blocks| + 3
  {
    var header := |g.blocks|;
    var cond := c.next + 1 + |names|;
    var entry := g.blocks[g.cur].(code := g.blocks[g.cur].code + c.ins,
                                  term := Some(Br([c.lb] + Lookup(g.env, names), header)));
    CGen(BindNames(g.env[x := c.next], names, c.next + 1), cond + 1, header + 1,
         g.blocks[g.cur := entry] + [
           Block(c.next, [ICmpLt(cond, c.next, c.ub)], Some(CondBr(cond, header + 1, header + 2))),
           Block(0, [], None),
           Block(0, [], None)])
  }

  /** The back edge, and the state behind the loop: the carried names live on in the header's arguments. */
  function LeaveLoopC(names: seq<string>, c: Bounds, header: nat, inner: CGen): CGen
    requires inner.Open() && forall y :: y in names ==> y in inner.env
  {
    var last := inner.blocks[inner.cur].(
      code := inner.blocks[inner.cur].code + [IBin(inner.next, Plus, c.next, c.step)],
      term := Some(Br([inner.next] + Lookup(inner.env, names), header)));
    CGen(BindNames(inner.env, names, c.next + 1), inner.next + 1, header + 2, inner.blocks[inner.cur := last])
  }

  function GenLoopC(x: string, body: seq<Stmt>, c: Bounds, g: CGen): (r: Option<CGen>)
    requires g.Open() && g.next <= c.next
    ensures r.Some? ==> r.value.Open() && Extends(g, r.value)
    decreases body, 1
  {
    var names := FindReassigned(body, g.env.Keys);
    var entered := EnterLoopC(x, names, c, g);
    var inner := GenBlockC(body, entered);
    if inner.None? then None else Some(LeaveLoopC(names, c, |g.blocks|, inner.value))
  }
}
