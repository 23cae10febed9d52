/** When the emitted code is well formed: every instruction gets operands of
    the width it needs, and every block ends in a branch or a return. The
    generator checks neither. */
module Widths {
  import opened Ast
  import opened Rows
  import opened Machine
  import opened Codegen
  import opened Lowerable

  predicate IsInt(o: Operand) { OperandKind(o).IntKind? }

  predicate IsBit(o: Operand) { OperandKind(o).BoolKind? }

  predicate AllInts(os: seq<Operand>) { forall i :: 0 <= i < |os| ==> IsInt(os[i]) }

  predicate InstrOk(i: Instr) {
    match i
    case Store(v, _) => IsInt(v)
    case Bin(_, _, a, b) => IsInt(a) && IsInt(b)
    case Phi(_, v1, _, v2, _) => IsBit(v1) && IsBit(v2)
    case CallPrint(args) => AllInts(args)
    case CallEmit(row) => AllInts(row)
    case CallInsert(_, row) => AllInts(row)
    case CondBr(c, _, _) => IsBit(c)
    case _ => true
  }

  predicate CodeOk(code: Code) { forall i :: 0 <= i < |code| ==> InstrOk(code[i]) }

  predicate BlocksOk(p: Program) { forall b :: 0 <= b < |p| ==> CodeOk(p[b]) }

  predicate IsTerminator(i: Instr) { i.Br? || i.CondBr? || i.Ret? }

  predicate Ended(code: Code) { exists i :: 0 <= i < |code| && IsTerminator(code[i]) }

  predicate AllEnded(p: Program) { forall b :: 0 <= b < |p| ==> Ended(p[b]) }

  predicate WellFormedCode(p: Program) { BlocksOk(p) && AllEnded(p) }

  // Operand widths.

  lemma CodeAppend(code: Code, i: Instr)
    ensures CodeOk(code + [i]) <==> CodeOk(code) && InstrOk(i)
    ensures Ended(code + [i]) <==> Ended(code) || IsTerminator(i)
  {
    hide InstrOk, IsTerminator;
    var more := code + [i];
    assert more[|code|] == i;
    if CodeOk(more) {
      forall j | 0 <= j < |code| ensures InstrOk(code[j]) { assert more[j] == code[j]; }
    }
    if Ended(code) {
      var j :| 0 <= j < |code| && IsTerminator(code[j]);
      assert more[j] == code[j];
    }
  }

  lemma AppendOk(c: Ctx, i: Instr)
    requires Open(c)
    ensures BlocksOk(Append(c, i).blocks) <==> BlocksOk(c.blocks) && InstrOk(i)
  {
    hide CodeOk, InstrOk;
    CodeAppend(c.blocks[c.cur], i);
    var bs := Append(c, i).blocks;
    assert bs[c.cur] == c.blocks[c.cur] + [i];
    if BlocksOk(bs) {
      forall b | 0 <= b < |c.blocks| ensures CodeOk(c.blocks[b]) { assert CodeOk(bs[b]); }
    }
  }

  lemma AddOk(p: Program, added: Program)
    requires forall b :: 0 <= b < |added| ==> added[b] == []
    ensures BlocksOk(p + added) <==> BlocksOk(p)
  {
    hide InstrOk;
    if BlocksOk(p + added) {
      forall b | 0 <= b < |p| ensures CodeOk(p[b]) { assert (p + added)[b] == p[b]; }
    }
  }

  lemma ToI1Ok(c: Ctx, o: Operand)
    requires Open(c)
    ensures var (c1, o1) := ToI1(c, o);
            && IsBit(o1)
            && (BlocksOk(c1.blocks) <==> BlocksOk(c.blocks) && !OperandKind(o).UnitKind?)
  {
    hide BlocksOk;
    AppendOk(c, Bin(c.next, NotEqual, o, Imm(0)));
  }

  lemma {:induction false} ExprWidths(c: Ctx, e: Expr)
    requires Open(c) && GenExpr(c, e).Ok?
    ensures BlocksOk(GenExpr(c, e).value.0.blocks) <==> BlocksOk(c.blocks) && LowerableExpr(e)
    decreases e, 1
  {
    hide BlocksOk, KindOf;
    match e
    case Num(_) =>
    case Var(x) => AppendOk(c, Load(c.next, c.vars[x]));
    case Binary(op, l, r) =>
      if op.IsCond() { CondWidths(c, e); } else { StrictWidths(c, e); }
    case Assign(Var(x), e1) =>
      var (c1, v) := GenExpr(c, e1).value;
      ExprWidths(c, e1);
      ExprShape(c, e1);
      AppendOk(c1, Store(v, c.vars[x]));
      var c2 := Append(c1, Store(v, c.vars[x]));
      AppendOk(c2, Load(c2.next, c.vars[x]));
    case Call(Var(f), args) =>
      var (c1, v) := GenExpr(c, args[0]).value;
      ExprWidths(c, args[0]);
      ExprShape(c, args[0]);
      AppendOk(c1, CallPrint([v]));
      assert AllInts([v]) <==> IsInt([v][0]);
    case _ =>
  }

  lemma {:induction false} StrictWidths(c: Ctx, e: Expr)
    requires Open(c) && e.Binary? && !e.op.IsCond() && GenExpr(c, e).Ok?
    ensures BlocksOk(GenExpr(c, e).value.0.blocks) <==> BlocksOk(c.blocks) && LowerableExpr(e)
    decreases e, 0
  {
    hide BlocksOk, KindOf;
    var (c1, a) := GenExpr(c, e.lhs).value;
    var (c2, b) := GenExpr(c1, e.rhs).value;
    ExprWidths(c, e.lhs);
    ExprShape(c, e.lhs);
    ExprWidths(c1, e.rhs);
    ExprShape(c1, e.rhs);
    AppendOk(c2, Bin(c2.next, e.op, a, b));
  }

  lemma {:induction false} CondWidths(c: Ctx, e: Expr)
    requires Open(c) && e.Binary? && e.op.IsCond() && GenCond(c, e).Ok?
    ensures BlocksOk(GenCond(c, e).value.0.blocks) <==> BlocksOk(c.blocks) && LowerableExpr(e)
    decreases e, 0
  {
    hide BlocksOk, KindOf, GenExpr, ToI1;
    var next, fin := |c.blocks|, |c.blocks| + 1;
    var c0 := c.(blocks := c.blocks + [[], []]);
    AddOk(c.blocks, [[], []]);
    var (c1, a) := GenExpr(c0, e.lhs).value;
    ExprWidths(c0, e.lhs);
    ExprShape(c0, e.lhs);
    var (c2, a1) := ToI1(c1, a);
    ToI1Ok(c1, a);
    var br := if e.op.CondAnd? then CondBr(a1, next, fin) else CondBr(a1, fin, next);
    AppendOk(c2, br);
    var c3 := Append(c2, br).(cur := next);
    var (c4, b) := GenExpr(c3, e.rhs).value;
    ExprWidths(c3, e.rhs);
    ExprShape(c3, e.rhs);
    var (c5, b1) := ToI1(c4, b);
    ToI1Ok(c4, b);
    AppendOk(c5, Br(fin));
    var c6 := Append(c5, Br(fin)).(cur := fin);
    AppendOk(c6, Phi(c6.next, a1, c2.cur, b1, c5.cur));
  }

  lemma {:induction false} RowWidths(c: Ctx, es: seq<Expr>)
    requires Open(c) && GenRow(c, es).Ok?
    ensures var (c1, row) := GenRow(c, es).value;
            && |row| == |es|
            && (BlocksOk(c1.blocks) && AllInts(row) <==> BlocksOk(c.blocks) && WidthsOkRow(es))
    decreases es
  {
    hide BlocksOk, GenExpr;
    if es != [] {
      var c1 := GenExpr(c, es[0]).value.0;
      var (c2, v) := GenExpr(c1, es[0]).value;
      ExprWidths(c, es[0]);
      ExprWidths(c1, es[0]);
      ExprShape(c1, es[0]);
      RowWidths(c2, es[1..]);
      RowSplits(es, v, GenRow(c2, es[1..]).value.1);
    }
  }

  lemma RowSplits(es: seq<Expr>, v: Operand, vs: seq<Operand>)
    requires es != []
    ensures WidthsOkRow(es) <==> LowerableExpr(es[0]) && KindOf(es[0]).IntKind? && WidthsOkRow(es[1..])
    ensures AllInts([v] + vs) <==> IsInt(v) && AllInts(vs)
  {
    hide LowerableExpr, KindOf, IsInt;
    if WidthsOkRow(es[1..]) {
      forall i | 0 < i < |es| ensures LowerableExpr(es[i]) && KindOf(es[i]).IntKind? { assert es[i] == es[1..][i - 1]; }
    }
    if AllInts([v] + vs) {
      forall i | 0 <= i < |vs| ensures IsInt(vs[i]) { assert ([v] + vs)[i + 1] == vs[i]; }
      assert ([v] + vs)[0] == v;
    }
  }

  /** Every For has a condition. */
  predicate HasTests(s: Stmt)
    decreases s, 1
  {
    match s
    case Block(ss) => HasTestsSeq(ss)
    case Transaction(_, ss) => HasTestsSeq(ss)
    case If(_, thn, els) => HasTestsSeq(thn) && (els.ElseBlock? ==> HasTestsSeq(els.stmts))
    case For(init, test, _, body) => (init.JustStmt? ==> HasTests(init.s)) && test.JustExpr? && HasTestsSeq(body)
    case _ => true
  }

  predicate HasTestsSeq(ss: seq<Stmt>)
    decreases ss, 0
  {
    ss != [] ==> HasTests(ss[0]) && HasTestsSeq(ss[1..])
  }

  lemma {:induction false} StmtWidths(c: Ctx, s: Stmt)
    requires Open(c) && GenStmt(c, s).Ok?
    ensures BlocksOk(GenStmt(c, s).value.blocks) && HasTests(s) <==> BlocksOk(c.blocks) && WidthsOk(s)
    decreases s, 1
  {
    hide BlocksOk, GenExpr, GenRow, GenIf, GenLoop, GenSeq, LowerableExpr, WidthsOkRow, KindOf, WidthsOkSeq,
         HasTestsSeq, IsInt;
    match s
    case Block(ss) => SeqWidths(c, ss);
    case Transaction(_, ss) =>
      var c1 := Append(c, CallBegin);
      AppendOk(c, CallBegin);
      SeqWidths(c1, ss);
      AppendOk(GenSeq(c1, ss).value, CallCommit);
    case Let(_, x, e) =>
      var (c1, v) := GenExpr(c, e).value;
      ExprWidths(c, e);
      ExprShape(c, e);
      AppendOk(c1, Store(v, c.vars[x]));
      StoreNeedsInt(v, c.vars[x]);
    case If(_, _, _) => IfWidths(c, s);
    case For(init, _, _, _) =>
      if init.JustStmt? {
        StmtWidths(c, init.s);
        LoopWidths(GenStmt(c, init.s).value, s);
      } else {
        LoopWidths(c, s);
      }
    case Jump(kind) =>
      AppendOk(c, Br(if kind.BreakJump? then c.loops[0].finish else c.loops[0].every));
    case Emit(Row(es)) =>
      var (c1, row) := GenRow(c, es).value;
      RowWidths(c, es);
      AppendOk(c1, CallEmit(row));
    case Insert(t, Row(es)) =>
      var (c1, row) := GenRow(c, es).value;
      RowWidths(c, es);
      AppendOk(c1, CallInsert(NameBytes(t), row));
    case ExprStmt(e) => ExprWidths(c, e);
    case _ =>
  }

  lemma StoreNeedsInt(v: Operand, slot: nat)
    ensures InstrOk(Store(v, slot)) <==> OperandKind(v).IntKind?
  {
  }

  lemma {:induction false} SeqWidths(c: Ctx, ss: seq<Stmt>)
    requires Open(c) && GenSeq(c, ss).Ok?
    ensures BlocksOk(GenSeq(c, ss).value.blocks) && HasTestsSeq(ss) <==> BlocksOk(c.blocks) && WidthsOkSeq(ss)
    decreases ss, 0
  {
    hide BlocksOk, GenStmt, WidthsOk, HasTests;
    if ss != [] {
      StmtWidths(c, ss[0]);
      SeqWidths(GenStmt(c, ss[0]).value, ss[1..]);
    }
  }

  lemma {:induction false} IfWidths(c: Ctx, s: Stmt)
    requires Open(c) && s.If? && GenIf(c, s).Ok?
    ensures BlocksOk(GenIf(c, s).value.blocks) && HasTests(s) <==> BlocksOk(c.blocks) && WidthsOk(s)
    decreases s, 0
  {
    hide BlocksOk, GenExpr, GenSeq, ToI1, LowerableExpr, KindOf, WidthsOkSeq, HasTestsSeq;
    var t, f, fin := |c.blocks|, |c.blocks| + 1, |c.blocks| + 2;
    var c0 := c.(blocks := c.blocks + [[], [], []]);
    AddOk(c.blocks, [[], [], []]);
    var (c1, v) := GenExpr(c0, s.cond).value;
    ExprWidths(c0, s.cond);
    ExprShape(c0, s.cond);
    var (c2, v1) := ToI1(c1, v);
    ToI1Ok(c1, v);
    AppendOk(c2, CondBr(v1, t, f));
    var c3 := Append(c2, CondBr(v1, t, f)).(cur := t);
    SeqWidths(c3, s.thn);
    var c4 := GenSeq(c3, s.thn).value;
    AppendOk(c4, Br(fin));
    var c5 := Append(c4, Br(fin)).(cur := f);
    if s.els.ElseBlock? {
      SeqWidths(c5, s.els.stmts);
      AppendOk(GenSeq(c5, s.els.stmts).value, Br(fin));
    } else {
      AppendOk(c5, Br(fin));
    }
  }

  lemma TestWidths(c: Ctx, loop: LoopBlocks, test: MaybeExpr)
    requires Open(c) && GenTest(c, loop, test).Ok?
    ensures BlocksOk(GenTest(c, loop, test).value.blocks) <==>
            BlocksOk(c.blocks) && (test.JustExpr? ==> LowerableExpr(test.e) && KindOf(test.e).BoolKind?)
  {
    hide BlocksOk, GenExpr, LowerableExpr, KindOf;
    if test.JustExpr? {
      ExprWidths(c, test.e);
      ExprShape(c, test.e);
      var (c1, v) := GenExpr(c, test.e).value;
      AppendOk(c1, CondBr(v, loop.body, loop.finish));
    }
  }

  lemma {:induction false} LoopWidths(c: Ctx, s: Stmt)
    requires Open(c) && s.For? && GenLoop(c, s).Ok?
    ensures BlocksOk(GenLoop(c, s).value.blocks) && s.test.JustExpr? && HasTestsSeq(s.body) <==>
            && BlocksOk(c.blocks) && s.test.JustExpr? && LowerableExpr(s.test.e) && KindOf(s.test.e).BoolKind?
            && (s.every.JustExpr? ==> LowerableExpr(s.every.e)) && WidthsOkSeq(s.body)
    decreases s, 0
  {
    hide BlocksOk, GenExpr, GenSeq, GenTest, LowerableExpr, KindOf, WidthsOkSeq, HasTestsSeq;
    var n := |c.blocks|;
    var c1 := EnterLoop(c);
    var loop := c1.loops[0];
    AddOk(c.blocks, [[], [], [], []]);
    AppendOk(c.(blocks := c.blocks + [[], [], [], []]), Br(n));
    var c2 := GenTest(c1, loop, s.test).value;
    TestWidths(c1, loop, s.test);
    var c3 := GenSeq(c2.(cur := loop.body), s.body).value;
    SeqWidths(c2.(cur := loop.body), s.body);
    AppendOk(c3, Br(loop.every));
    var c4 := Append(c3, Br(loop.every)).(cur := loop.every);
    if s.every.JustExpr? { ExprWidths(c4, s.every.e); }
    AppendOk(GenEvery(c4, s.every).value, Br(loop.begin));
  }
}
