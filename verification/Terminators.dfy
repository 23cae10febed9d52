/** Which blocks are left without a terminator: exactly the heads of loops
    without a condition. With the operand widths this decides when the emitted
    code is well formed. */
module Terminators {
  import opened Ast
  import opened Rows
  import opened Machine
  import opened Codegen
  import opened Lowerable
  import opened Analysis
  import opened Compiler
  import opened Widths

  /** Blocks other than the current one that no branch or return ends. */
  ghost function Pending(c: Ctx): set<nat> {
    set b: nat | b < |c.blocks| && b != c.cur && !Ended(c.blocks[b])
  }

  lemma AppendPending(c: Ctx, i: Instr)
    requires Open(c)
    ensures Pending(Append(c, i)) == Pending(c) && Pending(AppendDef(c, i)) == Pending(c)
  {
    hide Ended;
  }

  lemma ToI1Pending(c: Ctx, o: Operand)
    requires Open(c)
    ensures Pending(ToI1(c, o).0) == Pending(c)
  {
    hide Ended;
    AppendPending(c, Bin(c.next, NotEqual, o, Imm(0)));
  }

  lemma AddPending(c: Ctx, added: Program)
    requires Open(c) && forall b :: 0 <= b < |added| ==> added[b] == []
    ensures forall b: nat :: b in Pending(c.(blocks := c.blocks + added)) <==>
                             b in Pending(c) || |c.blocks| <= b < |c.blocks| + |added|
  {
    var c1 := c.(blocks := c.blocks + added);
    forall b: nat
      ensures b in Pending(c1) <==> b in Pending(c) || |c.blocks| <= b < |c.blocks| + |added|
    {
      if b < |c.blocks| { assert c1.blocks[b] == c.blocks[b]; }
    }
  }

  lemma LoopsPending(c: Ctx, loops: seq<LoopBlocks>)
    ensures Pending(c.(loops := loops)) == Pending(c)
  {
  }

  /** Ending the current block and going on in a pending one. */
  lemma SealPending(c: Ctx, i: Instr, b: nat)
    requires Open(c) && IsTerminator(i) && b in Pending(c)
    ensures Pending(Append(c, i).(cur := b)) == Pending(c) - {b}
  {
    hide Ended, IsTerminator;
    CodeAppend(c.blocks[c.cur], i);
    var c1 := Append(c, i).(cur := b);
    assert c1.blocks[c.cur] == c.blocks[c.cur] + [i];
  }

  /** Going on in a pending block without ending the current one. */
  lemma LeavePending(c: Ctx, b: nat)
    requires Open(c) && b in Pending(c) && !Ended(c.blocks[c.cur])
    ensures Pending(c.(cur := b)) == Pending(c) - {b} + {c.cur}
  {
    hide Ended;
  }

  lemma {:induction false} ExprPending(c: Ctx, e: Expr)
    requires Open(c) && GenExpr(c, e).Ok?
    ensures Pending(GenExpr(c, e).value.0) == Pending(c)
    decreases e, 1
  {
    hide Pending;
    match e
    case Var(x) => AppendPending(c, Load(c.next, c.vars[x]));
    case Binary(op, l, r) =>
      if op.IsCond() {
        CondPending(c, e);
      } else {
        var (c1, a) := GenExpr(c, l).value;
        ExprPending(c, l);
        var (c2, b) := GenExpr(c1, r).value;
        ExprPending(c1, r);
        AppendPending(c2, Bin(c2.next, op, a, b));
      }
    case Assign(Var(x), e1) =>
      var (c1, v) := GenExpr(c, e1).value;
      ExprPending(c, e1);
      AppendPending(c1, Store(v, c.vars[x]));
      var c2 := Append(c1, Store(v, c.vars[x]));
      AppendPending(c2, Load(c2.next, c.vars[x]));
    case Call(Var(f), args) =>
      var (c1, v) := GenExpr(c, args[0]).value;
      ExprPending(c, args[0]);
      AppendPending(c1, CallPrint([v]));
    case _ =>
  }

  lemma Fresh(c: Ctx, b: nat)
    requires |c.blocks| <= b
    ensures b !in Pending(c)
  {
  }

  lemma {:induction false} CondPending(c: Ctx, e: Expr)
    requires Open(c) && e.Binary? && GenCond(c, e).Ok?
    ensures Pending(GenCond(c, e).value.0) == Pending(c)
    decreases e, 0
  {
    hide Pending, GenExpr, ToI1;
    var next, fin := |c.blocks|, |c.blocks| + 1;
    Fresh(c, next); Fresh(c, fin);
    var c0 := c.(blocks := c.blocks + [[], []]);
    AddPending(c, [[], []]);
    var (c1, a) := GenExpr(c0, e.lhs).value;
    ExprPending(c0, e.lhs);
    var (c2, a1) := ToI1(c1, a);
    ToI1Pending(c1, a);
    var br := if e.op.CondAnd? then CondBr(a1, next, fin) else CondBr(a1, fin, next);
    SealPending(c2, br, next);
    var c3 := Append(c2, br).(cur := next);
    var (c4, b) := GenExpr(c3, e.rhs).value;
    ExprPending(c3, e.rhs);
    var (c5, b1) := ToI1(c4, b);
    ToI1Pending(c4, b);
    SealPending(c5, Br(fin), fin);
    var c6 := Append(c5, Br(fin)).(cur := fin);
    AppendPending(c6, Phi(c6.next, a1, c2.cur, b1, c5.cur));
  }

  lemma {:induction false} RowPending(c: Ctx, es: seq<Expr>)
    requires Open(c) && GenRow(c, es).Ok?
    ensures Pending(GenRow(c, es).value.0) == Pending(c)
    decreases es
  {
    hide Pending, GenExpr;
    if es != [] {
      var c1 := GenExpr(c, es[0]).value.0;
      var c2 := GenExpr(c1, es[0]).value.0;
      ExprPending(c, es[0]);
      ExprPending(c1, es[0]);
      RowPending(c2, es[1..]);
    }
  }

  /** Generation leaves pending blocks pending, and adds one exactly when a For
      has no condition. */
  ghost predicate Leaves(before: set<nat>, after: set<nat>, none: bool) {
    before <= after && (after == before <==> none)
  }

  lemma {:induction false} StmtPending(c: Ctx, s: Stmt)
    requires Open(c) && GenStmt(c, s).Ok?
    ensures Leaves(Pending(c), Pending(GenStmt(c, s).value), HasTests(s))
    decreases s, 1
  {
    hide Pending, GenExpr, GenRow, GenIf, GenLoop, GenSeq, HasTestsSeq;
    match s
    case Block(ss) => SeqPending(c, ss);
    case Transaction(_, ss) =>
      var c1 := Append(c, CallBegin);
      AppendPending(c, CallBegin);
      SeqPending(c1, ss);
      AppendPending(GenSeq(c1, ss).value, CallCommit);
    case Let(_, x, e) =>
      var (c1, v) := GenExpr(c, e).value;
      ExprPending(c, e);
      AppendPending(c1, Store(v, c.vars[x]));
    case If(_, _, _) => IfPending(c, s);
    case For(init, _, _, _) =>
      if init.JustStmt? {
        StmtPending(c, init.s);
        LoopPending(GenStmt(c, init.s).value, s);
      } else {
        LoopPending(c, s);
      }
    case Jump(kind) =>
      AppendPending(c, Br(if kind.BreakJump? then c.loops[0].finish else c.loops[0].every));
    case Emit(Row(es)) =>
      var (c1, row) := GenRow(c, es).value;
      RowPending(c, es);
      AppendPending(c1, CallEmit(row));
    case Insert(t, Row(es)) =>
      var (c1, row) := GenRow(c, es).value;
      RowPending(c, es);
      AppendPending(c1, CallInsert(NameBytes(t), row));
    case ExprStmt(e) => ExprPending(c, e);
    case _ =>
  }

  lemma {:induction false} SeqPending(c: Ctx, ss: seq<Stmt>)
    requires Open(c) && GenSeq(c, ss).Ok?
    ensures Leaves(Pending(c), Pending(GenSeq(c, ss).value), HasTestsSeq(ss))
    decreases ss, 0
  {
    hide Pending, GenStmt, HasTests;
    if ss != [] {
      StmtPending(c, ss[0]);
      SeqPending(GenStmt(c, ss[0]).value, ss[1..]);
    }
  }

  lemma {:induction false} IfPending(c: Ctx, s: Stmt)
    requires Open(c) && s.If? && GenIf(c, s).Ok?
    ensures Leaves(Pending(c), Pending(GenIf(c, s).value), HasTests(s))
    decreases s, 0
  {
    hide Pending, GenExpr, GenSeq, ToI1, HasTestsSeq;
    var t, f, fin := |c.blocks|, |c.blocks| + 1, |c.blocks| + 2;
    Fresh(c, t); Fresh(c, f); Fresh(c, fin);
    var c0 := c.(blocks := c.blocks + [[], [], []]);
    AddPending(c, [[], [], []]);
    var (c1, v) := GenExpr(c0, s.cond).value;
    ExprPending(c0, s.cond);
    var (c2, v1) := ToI1(c1, v);
    ToI1Pending(c1, v);
    SealPending(c2, CondBr(v1, t, f), t);
    var c3 := Append(c2, CondBr(v1, t, f)).(cur := t);
    SeqPending(c3, s.thn);
    var c4 := GenSeq(c3, s.thn).value;
    SealPending(c4, Br(fin), f);
    var c5 := Append(c4, Br(fin)).(cur := f);
    var c6 := c5;
    if s.els.ElseBlock? {
      SeqPending(c5, s.els.stmts);
      c6 := GenSeq(c5, s.els.stmts).value;
    }
    SealPending(c6, Br(fin), fin);
  }

  lemma {:induction false} LoopPending(c: Ctx, s: Stmt)
    requires Open(c) && s.For? && GenLoop(c, s).Ok?
    ensures Leaves(Pending(c), Pending(GenLoop(c, s).value), s.test.JustExpr? && HasTestsSeq(s.body))
    decreases s, 0
  {
    hide Pending, GenExpr, GenSeq, GenTest, GenEvery, HasTestsSeq, EnterLoop;
    var n := |c.blocks|;
    Fresh(c, n); Fresh(c, n + 1); Fresh(c, n + 2); Fresh(c, n + 3);
    var c1 := EnterLoop(c);
    var loop := c1.loops[0];
    EnterPending(c);
    var c2 := GenTest(c1, loop, s.test).value.(cur := loop.body);
    TestPending(c, s.test);
    var c3 := GenSeq(c2, s.body).value;
    SeqPending(c2, s.body);
    SealPending(c3, Br(loop.every), loop.every);
    var c4 := Append(c3, Br(loop.every)).(cur := loop.every);
    var c5 := GenEvery(c4, s.every).value;
    EveryPending(c4, s.every);
    SealPending(c5, Br(loop.begin), loop.finish);
    LoopsPending(Append(c5, Br(loop.begin)).(cur := loop.finish), c5.loops[1..]);
  }

  lemma EnterPending(c: Ctx)
    requires Open(c)
    ensures var n := |c.blocks|; Pending(EnterLoop(c)) == Pending(c) + {n + 1, n + 2, n + 3}
    ensures EnterLoop(c).blocks[|c.blocks|] == []
  {
    hide Pending;
    var n := |c.blocks|;
    Fresh(c, n);
    var c0 := c.(blocks := c.blocks + [[], [], [], []]);
    AddPending(c, [[], [], [], []]);
    LoopsPending(c0, EnterLoop(c).loops);
    SealPending(c0.(loops := EnterLoop(c).loops), Br(n), n);
  }

  lemma TestPending(c: Ctx, test: MaybeExpr)
    requires Open(c) && GenTest(EnterLoop(c), EnterLoop(c).loops[0], test).Ok?
    ensures var n := |c.blocks|;
            var c2 := GenTest(EnterLoop(c), EnterLoop(c).loops[0], test).value.(cur := n + 1);
            Pending(c2) == Pending(c) + {n + 2, n + 3} + if test.JustExpr? then {} else {n}
  {
    hide Pending, GenExpr, EnterLoop;
    var n := |c.blocks|;
    var c1 := EnterLoop(c);
    var loop := c1.loops[0];
    Fresh(c, n); Fresh(c, n + 1); Fresh(c, n + 2); Fresh(c, n + 3);
    EnterPending(c);
    if test.JustExpr? {
      ExprPending(c1, test.e);
      var (c2, v) := GenExpr(c1, test.e).value;
      SealPending(c2, CondBr(v, loop.body, loop.finish), loop.body);
    } else {
      LeavePending(c1, n + 1);
    }
  }

  lemma EveryPending(c: Ctx, every: MaybeExpr)
    requires Open(c) && GenEvery(c, every).Ok?
    ensures Pending(GenEvery(c, every).value) == Pending(c)
  {
    hide Pending, GenExpr;
    if every.JustExpr? { ExprPending(c, every.e); }
  }

  // The whole program.

  lemma AllocsFine(c: Ctx)
    requires Allocated(c)
    ensures BlocksOk(c.blocks) && Pending(c) == {}
  {
  }

  lemma ReturnEnds(c: Ctx)
    requires Open(c)
    ensures AllEnded(Append(c, Ret).blocks) <==> Pending(c) == {}
  {
    hide Ended;
    CodeAppend(c.blocks[c.cur], Ret);
    var bs := Append(c, Ret).blocks;
    assert bs[c.cur] == c.blocks[c.cur] + [Ret];
    if AllEnded(bs) {
      forall b: nat | b < |c.blocks| && b != c.cur ensures Ended(c.blocks[b]) { assert Ended(bs[b]); }
    }
    if Pending(c) == {} {
      forall b: nat | b < |bs| ensures Ended(bs[b]) { assert b !in Pending(c); }
    }
  }

  /** The emitted code is well formed exactly when stored, printed and emitted
      values are integers, every For has a condition and it is a truth value, and
      no call stands where a value is needed. */
  lemma WellFormedExactly(prog: seq<Stmt>)
    requires Compile(prog).Ok?
    ensures WellFormedCode(Compile(prog).value) <==> WidthsOkSeq(prog)
  {
    hide BlocksOk, AllEnded, Pending, GenSeq, HasTestsSeq, WidthsOkSeq, Allocated;
    var c1 := AllocSeq(Entry(), prog).value;
    EntryAllocated();
    AllocKeeps(Entry(), prog);
    AllocsFine(c1);
    AllocatedOpen(c1);
    var c2 := GenSeq(c1, prog).value;
    SeqWidths(c1, prog);
    SeqPending(c1, prog);
    ReturnEnds(c2);
    AppendOk(c2, Ret);
  }
}
