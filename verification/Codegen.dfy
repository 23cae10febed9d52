/** Lowering of statements and expressions to basic blocks, as a function from
    one builder context to the next. */
module Codegen {
  import opened Ast
  import opened Bytes
  import opened Rows
  import opened Machine

  datatype LoopBlocks = LoopBlocks(begin: nat, body: nat, every: nat, finish: nat)

  /** The builder: emitted blocks, insertion point, next free value number,
      stack slots of the variables, the enclosing loops, innermost first, and the
      defined tables. */
  datatype Ctx =
    Ctx(blocks: Program, cur: nat, next: nat, vars: map<string, nat>, loops: seq<LoopBlocks>,
        tables: map<bytes, seq<Attr>>)

  ghost predicate Open(c: Ctx) { c.cur < |c.blocks| }

  function Append(c: Ctx, i: Instr): (r: Ctx)
    requires Open(c)
    ensures Open(r) && |r.blocks| == |c.blocks| && r == c.(blocks := r.blocks)
  {
    c.(blocks := c.blocks[c.cur := c.blocks[c.cur] + [i]])
  }

  /** Appends an instruction that defines value number `c.next`. */
  function AppendDef(c: Ctx, i: Instr): (r: Ctx)
    requires Open(c)
    ensures Open(r) && |r.blocks| == |c.blocks| && r == c.(blocks := r.blocks, next := c.next + 1)
  {
    Append(c, i).(next := c.next + 1)
  }

  function Lookup(c: Ctx, x: string): Result<nat> {
    if x in c.vars then Ok(c.vars[x]) else Err("value not defined")
  }

  datatype SlotType = I64 | VoidType

  /** The type an expression reports to whoever stores it; comparisons report their
      operand type. */
  function GetType(vars: map<string, nat>, e: Expr): Result<SlotType> {
    match e
    case Num(_) => Ok(I64)
    case Var(x) => if x in vars then Ok(I64) else Err("value not defined")
    case Binary(_, l, r) =>
      var tr :- GetType(vars, r);
      var tl :- GetType(vars, l);
      if tl == tr then Ok(tr) else Err("binary operation can't do with different types")
    case Assign(_, v) => GetType(vars, v)
    case Call(Var(f), _) => if f == "print_int" then Ok(VoidType) else Err("undefined function")
    case _ => Err("outside the integer fragment")
  }

  /** Only a value of 64 bits gets a stack slot. */
  function GetSlot(vars: map<string, nat>, e: Expr): Result<()> {
    var t :- GetType(vars, e);
    if t.VoidType? then Err("no slot for void") else Ok(())
  }

  function GetSlots(vars: map<string, nat>, es: seq<Expr>): Result<()> {
    if es == [] then Ok(())
    else
      var _ :- GetSlot(vars, es[0]);
      GetSlots(vars, es[1..])
  }

  /** Implicit conversion of a condition to one bit. */
  function ToI1(c: Ctx, o: Operand): (r: (Ctx, Operand))
    requires Open(c)
    ensures Open(r.0) && |r.0.blocks| == |c.blocks| && r.0.loops == c.loops
  {
    if o.Reg? && o.width.W1? then (c, o)
    else (AppendDef(c, Bin(c.next, NotEqual, o, Imm(0))), Reg(c.next, W1))
  }

  function GenExpr(c: Ctx, e: Expr): (r: Result<(Ctx, Operand)>)
    requires Open(c)
    ensures r.Ok? ==> Open(r.value.0) && |c.blocks| <= |r.value.0.blocks| && r.value.0.loops == c.loops
    decreases e, 1
  {
    match e
    case Num(n) => Ok((c, Imm(n)))
    case Var(x) =>
      var slot :- Lookup(c, x);
      Ok((AppendDef(c, Load(c.next, slot)), Reg(c.next, W64)))
    case Binary(op, l, r) =>
      if op.IsCond() then GenCond(c, e)
      else
        var (c1, a) :- GenExpr(c, l);
        var (c2, b) :- GenExpr(c1, r);
        Ok((AppendDef(c2, Bin(c2.next, op, a, b)), Reg(c2.next, if op.IsArith() then W64 else W1)))
    case Assign(Var(x), e1) =>
      var slot :- Lookup(c, x);
      var (c1, v) :- GenExpr(c, e1);
      var c2 := Append(c1, Store(v, slot));
      Ok((AppendDef(c2, Load(c2.next, slot)), Reg(c2.next, W64)))
    case Call(Var(f), args) =>
      if f == "print_int" && |args| == 1 then
        var (c1, v) :- GenExpr(c, args[0]);
        if v.NoValue? then Err("unexpected argument type") else Ok((Append(c1, CallPrint([v])), NoValue))
      else Err("undefined function")
    case _ => Err("outside the integer fragment")
  }

  /** Short-circuit `&&` and `||`: blocks `next` and `fin`, and a phi in `fin`. */
  function GenCond(c: Ctx, e: Expr): (r: Result<(Ctx, Operand)>)
    requires Open(c) && e.Binary?
    ensures r.Ok? ==> Open(r.value.0) && |c.blocks| <= |r.value.0.blocks| && r.value.0.loops == c.loops
    decreases e, 0
  {
    var next, fin := |c.blocks|, |c.blocks| + 1;
    var (c1, a) :- GenExpr(c.(blocks := c.blocks + [[], []]), e.lhs);
    var (c2, a1) := ToI1(c1, a);
    var c3 := Append(c2, if e.op.CondAnd? then CondBr(a1, next, fin) else CondBr(a1, fin, next));
    var (c4, b) :- GenExpr(c3.(cur := next), e.rhs);
    var (c5, b1) := ToI1(c4, b);
    var c6 := Append(c5, Br(fin)).(cur := fin);
    Ok((AppendDef(c6, Phi(c6.next, a1, c2.cur, b1, c5.cur)), Reg(c6.next, W1)))
  }

  /** The elements of a row literal. Each element is generated twice and the
      second value is used. */
  function GenRow(c: Ctx, es: seq<Expr>): (r: Result<(Ctx, seq<Operand>)>)
    requires Open(c)
    ensures r.Ok? ==> Open(r.value.0) && |c.blocks| <= |r.value.0.blocks| && r.value.0.loops == c.loops
    decreases es
  {
    if es == [] then Ok((c, []))
    else
      var (c1, _) :- GenExpr(c, es[0]);
      var (c2, v) :- GenExpr(c1, es[0]);
      var (c3, vs) :- GenRow(c2, es[1..]);
      Ok((c3, [v] + vs))
  }

  /** An emit or insert inside, whose code needs buffers from the allocation pass. */
  predicate NeedsBuffers(s: Stmt)
    decreases s, 1
  {
    match s
    case Block(ss) => NeedsBuffersSeq(ss)
    case Transaction(_, ss) => NeedsBuffersSeq(ss)
    case If(_, thn, els) => NeedsBuffersSeq(thn) || (els.ElseBlock? && NeedsBuffersSeq(els.stmts))
    case For(init, _, _, body) => (init.JustStmt? && NeedsBuffers(init.s)) || NeedsBuffersSeq(body)
    case Emit(_) => true
    case Insert(_, _) => true
    case _ => false
  }

  predicate NeedsBuffersSeq(ss: seq<Stmt>)
    decreases ss, 0
  {
    ss != [] && (NeedsBuffers(ss[0]) || NeedsBuffersSeq(ss[1..]))
  }

  /** An initializer whose emits and inserts do not all have buffers. Allocation visits
      an initializer and the initializers of that initializer, and nothing inside;
      an insert it visits there it visits twice, which is an error. */
  predicate Unbuffered(s: Stmt) {
    match s
    case Emit(_) => false
    case For(init, _, _, body) => (init.JustStmt? && Unbuffered(init.s)) || NeedsBuffersSeq(body)
    case _ => NeedsBuffers(s)
  }

  function GenStmt(c: Ctx, s: Stmt): (r: Result<Ctx>)
    requires Open(c)
    ensures r.Ok? ==> Open(r.value) && |c.blocks| <= |r.value.blocks| && r.value.loops == c.loops
    decreases s, 1
  {
    match s
    case Block(ss) => GenSeq(c, ss)
    case Transaction(_, ss) =>
      var c1 :- GenSeq(Append(c, CallBegin), ss);
      Ok(Append(c1, CallCommit))
    case Let(_, x, e) =>
      var _ :- GetSlot(c.vars, e);
      var slot :- Lookup(c, x);
      var (c1, v) :- GenExpr(c, e);
      Ok(Append(c1, Store(v, slot)))
    case If(e, thn, els) => GenIf(c, s)
    case For(init, test, every, body) =>
      var c1 :-
        match init
        case NoStmt => Ok(c)
        case JustStmt(s0) => if Unbuffered(s0) then Err("no buffers") else GenStmt(c, s0);
      GenLoop(c1, s)
    case Jump(kind) =>
      if c.loops == [] then Err("jump outside of a loop")
      else Ok(Append(c, Br(if kind.BreakJump? then c.loops[0].finish else c.loops[0].every)))
    case Emit(Row(es)) =>
      var _ :- GetSlots(c.vars, es);
      var (c1, row) :- GenRow(c, es);
      Ok(Append(c1, CallEmit(row)))
    case Insert(t, Row(es)) =>
      if NameBytes(t) !in c.tables then Err("undefined table")
      else if |c.tables[NameBytes(t)]| < |es| then Err("no such column")
      else
        var _ :- GetSlots(c.vars, es);
        var (c1, row) :- GenRow(c, es);
        Ok(Append(c1, CallInsert(NameBytes(t), row)))
    case Define(_, _) => Ok(c)
    case ExprStmt(e) =>
      var (c1, _) :- GenExpr(c, e);
      Ok(c1)
    case _ => Err("outside the integer fragment")
  }

  function GenSeq(c: Ctx, ss: seq<Stmt>): (r: Result<Ctx>)
    requires Open(c)
    ensures r.Ok? ==> Open(r.value) && |c.blocks| <= |r.value.blocks| && r.value.loops == c.loops
    decreases ss, 0
  {
    if ss == [] then Ok(c)
    else
      var c1 :- GenStmt(c, ss[0]);
      GenSeq(c1, ss[1..])
  }

  function GenIf(c: Ctx, s: Stmt): (r: Result<Ctx>)
    requires Open(c) && s.If?
    ensures r.Ok? ==> Open(r.value) && |c.blocks| <= |r.value.blocks| && r.value.loops == c.loops
    decreases s, 0
  {
    var t, f, fin := |c.blocks|, |c.blocks| + 1, |c.blocks| + 2;
    var (c1, v) :- GenExpr(c.(blocks := c.blocks + [[], [], []]), s.cond);
    var (c2, v1) := ToI1(c1, v);
    var c3 := Append(c2, CondBr(v1, t, f));
    var c4 :- GenSeq(c3.(cur := t), s.thn);
    var c5 := Append(c4, Br(fin));
    var c6 :- match s.els case NoElse => Ok(c5.(cur := f)) case ElseBlock(ss) => GenSeq(c5.(cur := f), ss);
    Ok(Append(c6, Br(fin)).(cur := fin))
  }

  /** The branch at the head of a loop. An absent condition emits no branch at
      all, and the condition is not converted to one bit. */
  function GenTest(c: Ctx, loop: LoopBlocks, test: MaybeExpr): (r: Result<Ctx>)
    requires Open(c)
    ensures r.Ok? ==> Open(r.value) && |c.blocks| <= |r.value.blocks| && r.value.loops == c.loops
  {
    match test
    case NoExpr => Ok(c)
    case JustExpr(e) =>
      var (c1, v) :- GenExpr(c, e);
      Ok(Append(c1, CondBr(v, loop.body, loop.finish)))
  }

  function GenEvery(c: Ctx, every: MaybeExpr): (r: Result<Ctx>)
    requires Open(c)
    ensures r.Ok? ==> Open(r.value) && |c.blocks| <= |r.value.blocks| && r.value.loops == c.loops
  {
    match every
    case NoExpr => Ok(c)
    case JustExpr(e) =>
      var (c1, _) :- GenExpr(c, e);
      Ok(c1)
  }

  /** Creates the four blocks of a loop, enters it and jumps to its head. */
  function EnterLoop(c: Ctx): (r: Ctx)
    requires Open(c)
    ensures Open(r) && |r.blocks| == |c.blocks| + 4 && r.cur == |c.blocks|
    ensures r.loops == [LoopBlocks(|c.blocks|, |c.blocks| + 1, |c.blocks| + 2, |c.blocks| + 3)] + c.loops
  {
    var n := |c.blocks|;
    var c0 := c.(blocks := c.blocks + [[], [], [], []], loops := [LoopBlocks(n, n + 1, n + 2, n + 3)] + c.loops);
    Append(c0, Br(n)).(cur := n)
  }

  /** A For statement after its initializer. */
  function GenLoop(c: Ctx, s: Stmt): (r: Result<Ctx>)
    requires Open(c) && s.For?
    ensures r.Ok? ==> Open(r.value) && |c.blocks| <= |r.value.blocks| && r.value.loops == c.loops
    decreases s, 0
  {
    var c1 := EnterLoop(c);
    var loop := c1.loops[0];
    var c2 :- GenTest(c1, loop, s.test);
    var c3 :- GenSeq(c2.(cur := loop.body), s.body);
    var c4 := Append(c3, Br(loop.every)).(cur := loop.every);
    var c5 :- GenEvery(c4, s.every);
    Ok(Append(c5, Br(loop.begin)).(cur := loop.finish, loops := c5.loops[1..]))
  }
}
