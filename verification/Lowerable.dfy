/** The conditions under which the emitted code has sound operand widths. The
    analyzer does not check them, so they are stated on the program text. */
module Lowerable {
  import opened Ast
  import opened Machine
  import opened Codegen

  datatype Kind = IntKind | BoolKind | UnitKind

  /** The kind of value an expression's code leaves behind. */
  function KindOf(e: Expr): Kind {
    match e
    case Binary(op, _, _) => if op.IsArith() then IntKind else BoolKind
    case Call(_, _) => UnitKind
    case _ => IntKind
  }

  function OperandKind(o: Operand): Kind {
    match o
    case Imm(_) => IntKind
    case Reg(_, W64) => IntKind
    case Reg(_, W1) => BoolKind
    case NoValue => UnitKind
  }

  predicate LowerableExpr(e: Expr) {
    match e
    case Num(_) => true
    case Var(_) => true
    case Binary(op, l, r) =>
      && LowerableExpr(l) && LowerableExpr(r)
      && (if op.IsCond() then KindOf(l) != UnitKind && KindOf(r) != UnitKind
          else KindOf(l) == KindOf(r) == IntKind)
    case Assign(Var(_), e1) => LowerableExpr(e1) && KindOf(e1) == IntKind
    case Call(Var(f), args) => f == "print_int" && |args| == 1 && LowerableExpr(args[0]) && KindOf(args[0]) == IntKind
    case _ => false
  }

  predicate WidthsOkRow(es: seq<Expr>) {
    forall i :: 0 <= i < |es| ==> LowerableExpr(es[i]) && KindOf(es[i]) == IntKind
  }

  /** Stored, printed and emitted values are integers; every For has a condition,
      and it is a truth value; no call stands where a value is needed. */
  predicate WidthsOk(s: Stmt)
    decreases s, 1
  {
    match s
    case Block(ss) => WidthsOkSeq(ss)
    case Transaction(_, ss) => WidthsOkSeq(ss)
    case Let(_, _, e) => LowerableExpr(e) && KindOf(e) == IntKind
    case If(e, thn, els) =>
      && LowerableExpr(e) && KindOf(e) != UnitKind && WidthsOkSeq(thn)
      && (els.ElseBlock? ==> WidthsOkSeq(els.stmts))
    case For(init, test, every, body) =>
      && (init.JustStmt? ==> WidthsOk(init.s))
      && test.JustExpr? && LowerableExpr(test.e) && KindOf(test.e) == BoolKind
      && (every.JustExpr? ==> LowerableExpr(every.e))
      && WidthsOkSeq(body)
    case Jump(_) => true
    case Emit(Row(es)) => WidthsOkRow(es)
    case Insert(_, Row(es)) => WidthsOkRow(es)
    case Define(_, _) => true
    case ExprStmt(e) => LowerableExpr(e)
    case _ => false
  }

  predicate WidthsOkSeq(ss: seq<Stmt>)
    decreases ss, 0
  {
    ss != [] ==> WidthsOk(ss[0]) && WidthsOkSeq(ss[1..])
  }

  predicate Below(o: Operand, n: nat) { o.Reg? ==> o.id < n }

  /** The operand handed back has the width of the expression's kind and names
      an already emitted value. */
  lemma {:induction false} ExprShape(c: Ctx, e: Expr)
    requires Open(c) && GenExpr(c, e).Ok?
    ensures var (c1, o) := GenExpr(c, e).value; OperandKind(o) == KindOf(e) && Below(o, c1.next)
  {
    match e
    case Num(_) =>
    case Var(_) =>
    case Binary(op, l, r) =>
      if !op.IsCond() { assert GenExpr(c, e).value.1.Reg?; }
    case Assign(Var(_), _) =>
    case Call(Var(_), _) =>
    case _ =>
  }
}
