/** Type analysis and the stack-allocation pass that precede code generation.
    They walk the program differently: analysis goes through conditions and
    step expressions in program order, allocation only through statements. */
module Analysis {
  import opened Ast
  import opened Rows
  import opened Machine
  import opened Codegen

  datatype Ty = IntegerTy | BoolTy | TupleTy

  /** The types of the variables, and the type names that defined tables have taken:
      tables and the types `integer` and `bool` live in one table of names. */
  datatype TypeEnv = TypeEnv(vars: map<string, Ty>, taken: set<string>)

  const NoTypes: TypeEnv := TypeEnv(map[], {})

  function IntegerOf(env: TypeEnv): Ty { if "integer" in env.taken then TupleTy else IntegerTy }

  function BoolOf(env: TypeEnv): Ty { if "bool" in env.taken then TupleTy else BoolTy }

  /** The type of a binary operation. */
  function OperateTy(env: TypeEnv, l: Ty, r: Ty, op: BinOp): Result<Ty> {
    if l.TupleTy? then Err("tuple operator not supported yet")
    else if op.IsCond() then
      if r.TupleTy? then Err("you can't || or && with other types than int or bool") else Ok(BoolOf(env))
    else if l.BoolTy? then Err("only || and && operations are allowed for bool")
    else if r != l then Err("you can't operate with different types")
    else Ok(if op.IsArith() then l else BoolOf(env))
  }

  function AnalyzeExpr(env: TypeEnv, e: Expr): Result<Ty> {
    match e
    case Num(_) => Ok(IntegerOf(env))
    case Var(x) => if x in env.vars then Ok(env.vars[x]) else Err("undefined variable referenced")
    case Binary(op, l, r) =>
      var tl :- AnalyzeExpr(env, l);
      var tr :- AnalyzeExpr(env, r);
      OperateTy(env, tl, tr, op)
    case Assign(t, v) =>
      var _ :- AnalyzeExpr(env, t);
      AnalyzeExpr(env, v)
    case Call(_, args) =>
      var _ :- AnalyzeAll(env, args);
      Ok(IntegerOf(env))
    case _ => Err("outside the integer fragment")
  }

  function AnalyzeAll(env: TypeEnv, es: seq<Expr>): Result<()> {
    if es == [] then Ok(())
    else
      var _ :- AnalyzeExpr(env, es[0]);
      AnalyzeAll(env, es[1..])
  }

  /** Columns of integer type; dates are integers. */
  predicate IntColumn(col: Column) {
    (col.typeName == "int" || col.typeName == "date" || col.typeName == "integer") && !col.props.nullable
  }

  /** Tables the fragment covers: integer columns that are not nullable. */
  predicate IntColumns(cols: seq<Column>) { forall i :: 0 <= i < |cols| ==> IntColumn(cols[i]) }

  predicate IntTable(t: MaybeType) { t.JustType? && t.t.TupleType? && IntColumns(t.t.columns) }

  function AttrsOf(cols: seq<Column>): (attrs: seq<Attr>)
    ensures |attrs| == |cols|
  {
    seq(|cols|, i requires 0 <= i < |cols| => Attr(NameBytes(cols[i].name), cols[i].props.key))
  }

  /** Analysis threads one flat table through the whole program: a variable
      declared in a branch stays declared after it. */
  function AnalyzeStmt(env: TypeEnv, s: Stmt): Result<TypeEnv>
    decreases s, 1
  {
    match s
    case Block(ss) => AnalyzeSeq(env, ss)
    case Transaction(_, ss) => AnalyzeSeq(env, ss)
    case Let(ty, x, e) =>
      var t :- AnalyzeExpr(env, e);
      if ty.NoType? then Ok(env.(vars := env.vars[x := t])) else Err("unknown type variable")
    case If(e, thn, els) =>
      var _ :- AnalyzeExpr(env, e);
      var env1 :- AnalyzeSeq(env, thn);
      (match els case NoElse => Ok(env1) case ElseBlock(ss) => AnalyzeSeq(env1, ss))
    case For(init, test, every, body) =>
      var env1 :- match init case NoStmt => Ok(env) case JustStmt(s0) => AnalyzeStmt(env, s0);
      var _ :- AnalyzeMaybe(env1, test);
      var _ :- AnalyzeMaybe(env1, every);
      AnalyzeSeq(env1, body)
    case Jump(_) => Ok(env)
    case Emit(Row(es)) =>
      var _ :- AnalyzeAll(env, es);
      Ok(env)
    case Insert(_, Row(es)) =>
      var _ :- AnalyzeAll(env, es);
      Ok(env)
    case Define(t, name) =>
      if IntTable(t) && IntegerOf(env).IntegerTy? then Ok(env.(taken := env.taken + {name}))
      else Err("outside the integer fragment")
    case ExprStmt(e) =>
      var _ :- AnalyzeExpr(env, e);
      Ok(env)
    case _ => Err("outside the integer fragment")
  }

  function AnalyzeMaybe(env: TypeEnv, e: MaybeExpr): Result<()> {
    match e
    case NoExpr => Ok(())
    case JustExpr(e) =>
      var _ :- AnalyzeExpr(env, e);
      Ok(())
  }

  function AnalyzeSeq(env: TypeEnv, ss: seq<Stmt>): Result<TypeEnv>
    decreases ss, 0
  {
    if ss == [] then Ok(env)
    else
      var env1 :- AnalyzeStmt(env, ss[0]);
      AnalyzeSeq(env1, ss[1..])
  }

  /** Allocation asks for the type of the nested values of an expression. */
  function GetNested(vars: map<string, nat>, e: Expr): Result<()> {
    match e
    case Var(_) =>
      var _ :- GetType(vars, e);
      Ok(())
    case Assign(_, v) =>
      var _ :- GetType(vars, e);
      GetNested(vars, v)
    case Call(_, args) => GetNestedAll(vars, args)
    case _ => Ok(())
  }

  function GetNestedAll(vars: map<string, nat>, es: seq<Expr>): Result<()> {
    if es == [] then Ok(())
    else
      var _ :- GetType(vars, es[0]);
      var _ :- GetNested(vars, es[0]);
      GetNestedAll(vars, es[1..])
  }

  /** `alloca_stack` of one statement, without its inner statements. */
  function AllocStmt(c: Ctx, s: Stmt): (r: Result<Ctx>)
    requires Open(c)
    ensures r.Ok? ==> Open(r.value)
    decreases s
  {
    match s
    case Let(_, x, e) =>
      var _ :- GetSlot(c.vars, e);
      Ok(AppendDef(c, Alloca(c.next)).(vars := c.vars[x := c.next]))
    case For(init, _, _, _) => if init.JustStmt? then AllocStmt(c, init.s) else Ok(c)
    case Emit(Row(es)) =>
      var _ :- GetSlots(c.vars, es);
      Ok(c)
    case Insert(t, Row(es)) =>
      if NameBytes(t) !in c.tables then Err("undefined table")
      else
        var _ :- GetSlots(c.vars, es);
        Ok(c)
    case Define(t, name) =>
      if IntTable(t) then Ok(c.(tables := c.tables[NameBytes(name) := AttrsOf(t.t.columns)]))
      else Err("outside the integer fragment")
    case ExprStmt(e) =>
      var _ :- GetType(c.vars, e);
      var _ :- GetNested(c.vars, e);
      Ok(c)
    case DefineTuple(_, _) => Err("outside the integer fragment")
    case Insert(_, _) => Err("outside the integer fragment")
    case Scan(_, _, _) => Err("outside the integer fragment")
    case Emit(_) => Err("outside the integer fragment")
    case _ => Ok(c)
  }

  /** An insert that a For initializer visits, and so would allocate twice. */
  predicate Reinserts(s: Stmt) { s.Insert? || (s.For? && s.init.JustStmt? && Reinserts(s.init.s)) }

  /** The callback order of `each_statement` on the statements inside `s`. The
      initializer of a For is allocated a second time here, and statements
      inside the initializer are never visited. */
  function AllocInside(c: Ctx, s: Stmt): (r: Result<Ctx>)
    requires Open(c)
    ensures r.Ok? ==> Open(r.value)
    decreases s, 1
  {
    match s
    case Block(ss) => AllocSeq(c, ss)
    case Transaction(_, ss) => AllocSeq(c, ss)
    case If(_, thn, els) =>
      var c1 :- AllocSeq(c, thn);
      (match els case NoElse => Ok(c1) case ElseBlock(ss) => AllocSeq(c1, ss))
    case For(init, _, _, body) =>
      var c1 :-
        if !init.JustStmt? then Ok(c)
        else if Reinserts(init.s) then Err("key_stack is already initialized")
        else AllocStmt(c, init.s);
      AllocSeq(c1, body)
    case _ => Ok(c)
  }

  function AllocSeq(c: Ctx, ss: seq<Stmt>): (r: Result<Ctx>)
    requires Open(c)
    ensures r.Ok? ==> Open(r.value)
    decreases ss, 0
  {
    if ss == [] then Ok(c)
    else
      var c1 :- AllocStmt(c, ss[0]);
      var c2 :- AllocInside(c1, ss[0]);
      AllocSeq(c2, ss[1..])
  }

  // What an analyzed program may assume.

  /** Names an expression reads or assigns. */
  function VarsOf(e: Expr): set<string> {
    match e
    case Var(x) => {x}
    case Binary(_, l, r) => VarsOf(l) + VarsOf(r)
    case Assign(t, v) => VarsOf(t) + VarsOf(v)
    case Call(_, args) => VarsOfAll(args)
    case _ => {}
  }

  function VarsOfAll(es: seq<Expr>): set<string> {
    if es == [] then {} else VarsOf(es[0]) + VarsOfAll(es[1..])
  }

  function VarsOfMaybe(e: MaybeExpr): set<string> {
    if e.JustExpr? then VarsOf(e.e) else {}
  }

  /** Names a statement declares, reads or assigns anywhere inside. */
  function Used(s: Stmt): set<string>
    decreases s, 1
  {
    match s
    case Block(ss) => UsedSeq(ss)
    case Transaction(_, ss) => UsedSeq(ss)
    case Let(_, x, e) => {x} + VarsOf(e)
    case If(e, thn, els) => VarsOf(e) + UsedSeq(thn) + (if els.ElseBlock? then UsedSeq(els.stmts) else {})
    case For(init, test, every, body) =>
      (if init.JustStmt? then Used(init.s) else {}) + VarsOfMaybe(test) + VarsOfMaybe(every) + UsedSeq(body)
    case Emit(Row(es)) => VarsOfAll(es)
    case Insert(_, Row(es)) => VarsOfAll(es)
    case ExprStmt(e) => VarsOf(e)
    case _ => {}
  }

  function UsedSeq(ss: seq<Stmt>): set<string>
    decreases ss, 0
  {
    if ss == [] then {} else Used(ss[0]) + UsedSeq(ss[1..])
  }

  /** For initializers without inner statements. */
  predicate SimpleInits(s: Stmt)
    decreases s, 1
  {
    match s
    case Block(ss) => SimpleInitsSeq(ss)
    case Transaction(_, ss) => SimpleInitsSeq(ss)
    case If(_, thn, els) => SimpleInitsSeq(thn) && (els.ElseBlock? ==> SimpleInitsSeq(els.stmts))
    case For(init, _, _, body) =>
      && (init.JustStmt? ==> init.s.Let? || init.s.ExprStmt? || init.s.Emit? || init.s.Jump? || init.s.Define?)
      && SimpleInitsSeq(body)
    case _ => true
  }

  predicate SimpleInitsSeq(ss: seq<Stmt>)
    decreases ss, 0
  {
    ss != [] ==> SimpleInits(ss[0]) && SimpleInitsSeq(ss[1..])
  }

  /** Jumps stand inside a For; the initializer is still outside. */
  predicate JumpsInside(s: Stmt, inLoop: bool)
    decreases s, 1
  {
    match s
    case Block(ss) => JumpsInsideSeq(ss, inLoop)
    case Transaction(_, ss) => JumpsInsideSeq(ss, inLoop)
    case If(_, thn, els) => JumpsInsideSeq(thn, inLoop) && (els.ElseBlock? ==> JumpsInsideSeq(els.stmts, inLoop))
    case For(init, _, _, body) => (init.JustStmt? ==> JumpsInside(init.s, inLoop)) && JumpsInsideSeq(body, true)
    case Jump(_) => inLoop
    case _ => true
  }

  predicate JumpsInsideSeq(ss: seq<Stmt>, inLoop: bool)
    decreases ss, 0
  {
    ss != [] ==> JumpsInside(ss[0], inLoop) && JumpsInsideSeq(ss[1..], inLoop)
  }

  lemma {:induction false} AnalyzedVars(env: TypeEnv, e: Expr)
    requires AnalyzeExpr(env, e).Ok?
    ensures VarsOf(e) <= env.vars.Keys
    decreases e, 1
  {
    match e
    case Binary(_, l, r) => AnalyzedVars(env, l); AnalyzedVars(env, r);
    case Assign(t, v) => AnalyzedVars(env, t); AnalyzedVars(env, v);
    case Call(_, args) => AnalyzedVarsAll(env, args);
    case _ =>
  }

  lemma {:induction false} AnalyzedVarsAll(env: TypeEnv, es: seq<Expr>)
    requires AnalyzeAll(env, es).Ok?
    ensures VarsOfAll(es) <= env.vars.Keys
    decreases es, 0
  {
    if es != [] {
      AnalyzedVars(env, es[0]);
      AnalyzedVarsAll(env, es[1..]);
    }
  }
}
