/** What code generation never does: it appends to the block it is in and to
    blocks it creates, and touches nothing else. */
module Growth {
  import opened Ast
  import opened Rows
  import opened Machine
  import opened Codegen

  ghost predicate Untouched(c: Ctx, c2: Ctx, b: nat) {
    b < |c.blocks| <= |c2.blocks| && c2.blocks[b] == c.blocks[b]
  }

  /** `c2` was reached from `c` by appending to `c`'s current block and to new
      blocks, and its insertion point is one of those. */
  ghost predicate Grows(c: Ctx, c2: Ctx) {
    && Open(c) && Open(c2)
    && |c.blocks| <= |c2.blocks|
    && (forall b: nat :: b < |c.blocks| && b != c.cur ==> Untouched(c, c2, b))
    && c.blocks[c.cur] <= c2.blocks[c.cur]
    && (c2.cur == c.cur || |c.blocks| <= c2.cur)
    && c.next <= c2.next
    && c2.vars == c.vars
  }

  lemma GrowsTrans(c: Ctx, c1: Ctx, c2: Ctx)
    requires Grows(c, c1) && Grows(c1, c2)
    ensures Grows(c, c2)
  {
    forall b: nat | b < |c.blocks| && b != c.cur
      ensures Untouched(c, c2, b)
    {
      assert Untouched(c, c1, b) && Untouched(c1, c2, b);
    }
    if c1.cur != c.cur { assert Untouched(c1, c2, c.cur); }
  }

  /** Moving the insertion point to a block that is new since `c`, and changing
      the loop stack, is growth as well. */
  lemma MoveGrows(c: Ctx, c1: Ctx, b: nat, loops: seq<LoopBlocks>)
    requires Grows(c, c1) && |c.blocks| <= b < |c1.blocks|
    ensures Grows(c, c1.(cur := b)) && Grows(c, c1.(cur := b, loops := loops))
  {
    forall d: nat | d < |c.blocks| && d != c.cur
      ensures Untouched(c, c1.(cur := b), d) && Untouched(c, c1.(cur := b, loops := loops), d)
    {
      assert Untouched(c, c1, d);
    }
  }

  /** So is adding empty blocks. */
  lemma AddGrows(c: Ctx, added: Program)
    requires Open(c)
    ensures Grows(c, c.(blocks := c.blocks + added))
  {
    forall d: nat | d < |c.blocks| && d != c.cur
      ensures Untouched(c, c.(blocks := c.blocks + added), d)
    {
    }
  }

  lemma AppendGrows(c: Ctx, c1: Ctx, i: Instr)
    requires Grows(c, c1)
    ensures Grows(c, Append(c1, i)) && Grows(c, AppendDef(c1, i))
  {
    forall b: nat | b < |c.blocks| && b != c.cur
      ensures Untouched(c, Append(c1, i), b) && Untouched(c, AppendDef(c1, i), b)
    {
      assert Untouched(c, c1, b);
    }
  }

  lemma GrowsSelf(c: Ctx)
    requires Open(c)
    ensures Grows(c, c)
  {
    forall b: nat | b < |c.blocks| && b != c.cur
      ensures Untouched(c, c, b)
    {
    }
  }

  lemma ToI1Grows(c: Ctx, c1: Ctx, o: Operand)
    requires Grows(c, c1)
    ensures Grows(c, ToI1(c1, o).0) && Grows(c1, ToI1(c1, o).0)
  {
    GrowsSelf(c1);
    AppendGrows(c, c1, Bin(c1.next, NotEqual, o, Imm(0)));
    AppendGrows(c1, c1, Bin(c1.next, NotEqual, o, Imm(0)));
  }

  lemma {:induction false} ExprGrows(c: Ctx, e: Expr)
    requires Open(c) && GenExpr(c, e).Ok?
    ensures Grows(c, GenExpr(c, e).value.0)
    decreases e, 1
  {
    GrowsSelf(c);
    match e
    case Var(x) => AppendGrows(c, c, Load(c.next, c.vars[x]));
    case Binary(op, l, r) =>
      if op.IsCond() {
        CondGrows(c, e);
      } else {
        var (c1, a) := GenExpr(c, l).value;
        ExprGrows(c, l);
        var (c2, b) := GenExpr(c1, r).value;
        ExprGrows(c1, r);
        GrowsTrans(c, c1, c2);
        AppendGrows(c, c2, Bin(c2.next, op, a, b));
      }
    case Assign(Var(x), e1) =>
      var (c1, v) := GenExpr(c, e1).value;
      ExprGrows(c, e1);
      AppendGrows(c, c1, Store(v, c.vars[x]));
      var c2 := Append(c1, Store(v, c.vars[x]));
      AppendGrows(c, c2, Load(c2.next, c.vars[x]));
    case Call(Var(f), args) =>
      var (c1, v) := GenExpr(c, args[0]).value;
      ExprGrows(c, args[0]);
      AppendGrows(c, c1, CallPrint([v]));
    case _ =>
  }

  lemma {:induction false} CondGrows(c: Ctx, e: Expr)
    requires Open(c) && e.Binary? && GenCond(c, e).Ok?
    ensures Grows(c, GenCond(c, e).value.0)
    decreases e, 0
  {
    hide GenExpr, ToI1, Grows;
    var next, fin := |c.blocks|, |c.blocks| + 1;
    AddGrows(c, [[], []]);
    var c0 := c.(blocks := c.blocks + [[], []]);
    var (c1, a) := GenExpr(c0, e.lhs).value;
    ExprGrows(c0, e.lhs);
    GrowsTrans(c, c0, c1);
    var (c2, a1) := ToI1(c1, a);
    ToI1Grows(c, c1, a);
    var br := if e.op.CondAnd? then CondBr(a1, next, fin) else CondBr(a1, fin, next);
    AppendGrows(c, c2, br);
    MoveGrows(c, Append(c2, br), next, c2.loops);
    var c3 := Append(c2, br).(cur := next);
    var (c4, b) := GenExpr(c3, e.rhs).value;
    ExprGrows(c3, e.rhs);
    GrowsTrans(c, c3, c4);
    var (c5, b1) := ToI1(c4, b);
    ToI1Grows(c, c4, b);
    AppendGrows(c, c5, Br(fin));
    MoveGrows(c, Append(c5, Br(fin)), fin, c5.loops);
    var c6 := Append(c5, Br(fin)).(cur := fin);
    AppendGrows(c, c6, Phi(c6.next, a1, c2.cur, b1, c5.cur));
  }

  lemma {:induction false} RowGrows(c: Ctx, es: seq<Expr>)
    requires Open(c) && GenRow(c, es).Ok?
    ensures Grows(c, GenRow(c, es).value.0)
    decreases es
  {
    GrowsSelf(c);
    if es != [] {
      var c1 := GenExpr(c, es[0]).value.0;
      var c2 := GenExpr(c1, es[0]).value.0;
      ExprGrows(c, es[0]);
      ExprGrows(c1, es[0]);
      RowGrows(c2, es[1..]);
      GrowsTrans(c, c1, c2);
      GrowsTrans(c, c2, GenRow(c2, es[1..]).value.0);
    }
  }

  /** Generating any statement leaves every block that existed before, other
      than the current one, exactly as it was. */
  lemma {:induction false} StmtGrows(c: Ctx, s: Stmt)
    requires Open(c) && GenStmt(c, s).Ok?
    ensures Grows(c, GenStmt(c, s).value)
    decreases s, 1
  {
    GrowsSelf(c);
    match s
    case Block(ss) => SeqGrows(c, ss);
    case Transaction(_, ss) =>
      var c1 := Append(c, CallBegin);
      AppendGrows(c, c, CallBegin);
      SeqGrows(c1, ss);
      GrowsTrans(c, c1, GenSeq(c1, ss).value);
      AppendGrows(c, GenSeq(c1, ss).value, CallCommit);
    case Let(_, x, e) =>
      var (c1, v) := GenExpr(c, e).value;
      ExprGrows(c, e);
      AppendGrows(c, c1, Store(v, c.vars[x]));
    case If(_, _, _) => IfGrows(c, s);
    case For(init, _, _, _) =>
      var c1 := match init case NoStmt => c case JustStmt(s0) => GenStmt(c, s0).value;
      if init.JustStmt? { StmtGrows(c, init.s); }
      LoopGrows(c1, s);
      GrowsTrans(c, c1, GenLoop(c1, s).value);
    case Jump(kind) =>
      AppendGrows(c, c, Br(if kind.BreakJump? then c.loops[0].finish else c.loops[0].every));
    case Emit(Row(es)) =>
      var (c1, row) := GenRow(c, es).value;
      RowGrows(c, es);
      AppendGrows(c, c1, CallEmit(row));
    case Insert(t, Row(es)) =>
      var (c1, row) := GenRow(c, es).value;
      RowGrows(c, es);
      AppendGrows(c, c1, CallInsert(NameBytes(t), row));
    case ExprStmt(e) => ExprGrows(c, e);
    case _ =>
  }

  lemma {:induction false} SeqGrows(c: Ctx, ss: seq<Stmt>)
    requires Open(c) && GenSeq(c, ss).Ok?
    ensures Grows(c, GenSeq(c, ss).value)
    decreases ss, 0
  {
    GrowsSelf(c);
    if ss != [] {
      var c1 := GenStmt(c, ss[0]).value;
      StmtGrows(c, ss[0]);
      SeqGrows(c1, ss[1..]);
      GrowsTrans(c, c1, GenSeq(c1, ss[1..]).value);
    }
  }

  lemma {:induction false} IfGrows(c: Ctx, s: Stmt)
    requires Open(c) && s.If? && GenIf(c, s).Ok?
    ensures Grows(c, GenIf(c, s).value)
    decreases s, 0
  {
    hide GenExpr, GenSeq, ToI1, Grows;
    var t, f, fin := |c.blocks|, |c.blocks| + 1, |c.blocks| + 2;
    AddGrows(c, [[], [], []]);
    var c0 := c.(blocks := c.blocks + [[], [], []]);
    var (c1, v) := GenExpr(c0, s.cond).value;
    ExprGrows(c0, s.cond);
    GrowsTrans(c, c0, c1);
    var (c2, v1) := ToI1(c1, v);
    ToI1Grows(c, c1, v);
    AppendGrows(c, c2, CondBr(v1, t, f));
    var c3 := Append(c2, CondBr(v1, t, f));
    MoveGrows(c, c3, t, c3.loops);
    var c4 := GenSeq(c3.(cur := t), s.thn).value;
    SeqGrows(c3.(cur := t), s.thn);
    GrowsTrans(c, c3.(cur := t), c4);
    AppendGrows(c, c4, Br(fin));
    var c5 := Append(c4, Br(fin));
    MoveGrows(c, c5, f, c5.loops);
    var c6 := match s.els case NoElse => c5.(cur := f) case ElseBlock(ss) => GenSeq(c5.(cur := f), ss).value;
    if s.els.ElseBlock? {
      SeqGrows(c5.(cur := f), s.els.stmts);
      GrowsTrans(c, c5.(cur := f), c6);
    }
    AppendGrows(c, c6, Br(fin));
    MoveGrows(c, Append(c6, Br(fin)), fin, c6.loops);
  }

  lemma TestGrows(c: Ctx, loop: LoopBlocks, test: MaybeExpr)
    requires Open(c) && GenTest(c, loop, test).Ok?
    ensures Grows(c, GenTest(c, loop, test).value)
  {
    GrowsSelf(c);
    if test.JustExpr? {
      ExprGrows(c, test.e);
      var (c1, v) := GenExpr(c, test.e).value;
      AppendGrows(c, c1, CondBr(v, loop.body, loop.finish));
    }
  }

  lemma EveryGrows(c: Ctx, every: MaybeExpr)
    requires Open(c) && GenEvery(c, every).Ok?
    ensures Grows(c, GenEvery(c, every).value)
  {
    GrowsSelf(c);
    if every.JustExpr? { ExprGrows(c, every.e); }
  }

  lemma EnterGrows(c: Ctx)
    requires Open(c)
    ensures Grows(c, EnterLoop(c))
  {
    var n := |c.blocks|;
    var c0 := c.(blocks := c.blocks + [[], [], [], []], loops := EnterLoop(c).loops);
    forall b: nat | b < |c.blocks| && b != c.cur
      ensures Untouched(c, c0, b)
    {
    }
    AppendGrows(c, c0, Br(n));
    MoveGrows(c, Append(c0, Br(n)), n, c0.loops);
  }

  lemma {:induction false} LoopGrows(c: Ctx, s: Stmt)
    requires Open(c) && s.For? && GenLoop(c, s).Ok?
    ensures Grows(c, GenLoop(c, s).value)
    decreases s, 0
  {
    EnterGrows(c);
    var c1 := EnterLoop(c);
    var loop := c1.loops[0];
    var c2 := GenTest(c1, loop, s.test).value;
    TestGrows(c1, loop, s.test);
    GrowsTrans(c, c1, c2);
    MoveGrows(c, c2, loop.body, c2.loops);
    var c3 := GenSeq(c2.(cur := loop.body), s.body).value;
    SeqGrows(c2.(cur := loop.body), s.body);
    GrowsTrans(c, c2.(cur := loop.body), c3);
    AppendGrows(c, c3, Br(loop.every));
    MoveGrows(c, Append(c3, Br(loop.every)), loop.every, c3.loops);
    var c4 := Append(c3, Br(loop.every)).(cur := loop.every);
    var c5 := GenEvery(c4, s.every).value;
    EveryGrows(c4, s.every);
    GrowsTrans(c, c4, c5);
    AppendGrows(c, c5, Br(loop.begin));
    MoveGrows(c, Append(c5, Br(loop.begin)), loop.finish, c5.loops[1..]);
  }
}
