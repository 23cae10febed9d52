/** Which programs analysis accepts, said on the program text: the type every
    expression has, where names must stand, and what operators take. */
module Acceptance {
  import opened Ast
  import opened Machine
  import opened Lowerable
  import opened Analysis
  import opened Compiler
  import opened Resolution
  import opened Limits

  // Expressions.

  /** The type a name stands for, unless a table has taken the name. */
  function Named(env: TypeEnv, name: string, t: Ty): Ty { if name in env.taken then TupleTy else t }

  /** The type of an accepted expression. */
  function TypeIn(env: TypeEnv, e: Expr): Ty {
    match e
    case Var(x) => if x in env.vars then env.vars[x] else IntegerTy
    case Binary(op, _, _) =>
      if op.Plus? || op.Minus? || op.Multiple? || op.Division? || op.Modulo? then IntegerTy
      else Named(env, "bool", BoolTy)
    case Assign(_, v) => TypeIn(env, v)
    case _ => Named(env, "integer", IntegerTy)
  }

  /** Names are known, `&&` and `||` take integers and truth values, all other
      operators take integers. */
  predicate Accepts(env: TypeEnv, e: Expr) {
    match e
    case Num(_) => true
    case Var(x) => x in env.vars
    case Binary(op, l, r) =>
      && Accepts(env, l) && Accepts(env, r)
      && (if op.CondAnd? || op.CondOr? then !TypeIn(env, l).TupleTy? && !TypeIn(env, r).TupleTy?
          else TypeIn(env, l).IntegerTy? && TypeIn(env, r).IntegerTy?)
    case Assign(t, v) => Accepts(env, t) && Accepts(env, v)
    case Call(_, args) => forall i :: 0 <= i < |args| ==> Accepts(env, args[i])
    case _ => false
  }

  predicate AcceptsAll(env: TypeEnv, es: seq<Expr>) { forall i :: 0 <= i < |es| ==> Accepts(env, es[i]) }

  predicate AcceptsMaybe(env: TypeEnv, e: MaybeExpr) { e.JustExpr? ==> Accepts(env, e.e) }

  lemma {:induction false} ExprAccepted(env: TypeEnv, e: Expr)
    ensures AnalyzeExpr(env, e).Ok? <==> Accepts(env, e)
    ensures AnalyzeExpr(env, e).Ok? ==> AnalyzeExpr(env, e).value == TypeIn(env, e)
    decreases e, 1
  {
    match e
    case Binary(_, l, r) => ExprAccepted(env, l); ExprAccepted(env, r);
    case Assign(t, v) => ExprAccepted(env, t); ExprAccepted(env, v);
    case Call(_, args) => AllAccepted(env, args);
    case _ =>
  }

  lemma {:induction false} AllAccepted(env: TypeEnv, es: seq<Expr>)
    ensures AnalyzeAll(env, es).Ok? <==> AcceptsAll(env, es)
    decreases es, 0
  {
    hide AnalyzeExpr, Accepts;
    if es != [] {
      ExprAccepted(env, es[0]);
      AllAccepted(env, es[1..]);
      assert forall i :: 0 < i < |es| ==> es[i] == es[1..][i - 1];
      assert AcceptsAll(env, es) <==> Accepts(env, es[0]) && AcceptsAll(env, es[1..]);
    }
  }

  // Statements.

  /** The types after a statement: one flat table, in program order, branches and loop
      bodies included. */
  function After(env: TypeEnv, s: Stmt): TypeEnv
    decreases s, 1
  {
    match s
    case Block(ss) => AfterSeq(env, ss)
    case Transaction(_, ss) => AfterSeq(env, ss)
    case Let(_, x, e) => TypeEnv(env.vars[x := TypeIn(env, e)], env.taken)
    case If(_, thn, els) => if els.NoElse? then AfterSeq(env, thn) else AfterSeq(AfterSeq(env, thn), els.stmts)
    case For(init, _, _, body) => AfterSeq(if init.JustStmt? then After(env, init.s) else env, body)
    case Define(_, name) => TypeEnv(env.vars, env.taken + {name})
    case _ => env
  }

  function AfterSeq(env: TypeEnv, ss: seq<Stmt>): TypeEnv
    decreases ss, 0
  {
    if ss == [] then env else AfterSeq(After(env, ss[0]), ss[1..])
  }

  predicate AcceptsStmt(env: TypeEnv, s: Stmt)
    decreases s, 1
  {
    match s
    case Block(ss) => AcceptsSeq(env, ss)
    case Transaction(_, ss) => AcceptsSeq(env, ss)
    case Let(ty, _, e) => ty.NoType? && Accepts(env, e)
    case If(e, thn, els) =>
      Accepts(env, e) && AcceptsSeq(env, thn) && (els.ElseBlock? ==> AcceptsSeq(AfterSeq(env, thn), els.stmts))
    case For(init, test, every, body) =>
      var env1 := if init.JustStmt? then After(env, init.s) else env;
      && (init.JustStmt? ==> AcceptsStmt(env, init.s))
      && AcceptsMaybe(env1, test) && AcceptsMaybe(env1, every) && AcceptsSeq(env1, body)
    case Jump(_) => true
    case Emit(Row(es)) => AcceptsAll(env, es)
    case Insert(_, Row(es)) => AcceptsAll(env, es)
    case Define(t, _) => TableOfIntegers(t) && "integer" !in env.taken
    case ExprStmt(e) => Accepts(env, e)
    case _ => false
  }

  predicate AcceptsSeq(env: TypeEnv, ss: seq<Stmt>)
    decreases ss, 0
  {
    ss != [] ==> AcceptsStmt(env, ss[0]) && AcceptsSeq(After(env, ss[0]), ss[1..])
  }

  lemma MaybeAccepted(env: TypeEnv, e: MaybeExpr)
    ensures AnalyzeMaybe(env, e).Ok? <==> AcceptsMaybe(env, e)
  {
    if e.JustExpr? { ExprAccepted(env, e.e); }
  }

  ghost predicate Accepted(r: Result<TypeEnv>, accepts: bool, after: TypeEnv) {
    (r.Ok? <==> accepts) && (r.Ok? ==> r.value == after)
  }

  lemma {:induction false} StmtAccepted(env: TypeEnv, s: Stmt)
    ensures Accepted(AnalyzeStmt(env, s), AcceptsStmt(env, s), After(env, s))
    decreases s, 1
  {
    hide AnalyzeExpr, AnalyzeAll, AnalyzeSeq, AnalyzeMaybe, Accepts, AcceptsAll, AcceptsMaybe, AcceptsSeq, AfterSeq,
         TypeIn, IntTable, TableOfIntegers;
    match s
    case Block(ss) => SeqAccepted(env, ss);
    case Transaction(_, ss) => SeqAccepted(env, ss);
    case Let(_, _, e) => ExprAccepted(env, e);
    case If(e, thn, els) =>
      ExprAccepted(env, e);
      SeqAccepted(env, thn);
      if els.ElseBlock? { SeqAccepted(AfterSeq(env, thn), els.stmts); }
    case For(init, test, every, body) =>
      if init.JustStmt? { StmtAccepted(env, init.s); }
      var env1 := if init.JustStmt? then After(env, init.s) else env;
      MaybeAccepted(env1, test);
      MaybeAccepted(env1, every);
      SeqAccepted(env1, body);
    case Emit(Row(es)) => AllAccepted(env, es);
    case Insert(_, Row(es)) => AllAccepted(env, es);
    case Define(t, _) => TablesExact(t);
    case ExprStmt(e) => ExprAccepted(env, e);
    case _ =>
  }

  /** Analysis accepts exactly these programs and leaves exactly these types. */
  lemma {:induction false} SeqAccepted(env: TypeEnv, ss: seq<Stmt>)
    ensures Accepted(AnalyzeSeq(env, ss), AcceptsSeq(env, ss), AfterSeq(env, ss))
    decreases ss, 0
  {
    hide AnalyzeStmt, AcceptsStmt, After;
    if ss != [] {
      StmtAccepted(env, ss[0]);
      SeqAccepted(After(env, ss[0]), ss[1..]);
    }
  }

  /** Every condition of compilation on the program text. */
  lemma CompilesOnText(prog: seq<Stmt>)
    ensures Compile(prog).Ok? <==>
            && AcceptsSeq(NoTypes, prog) && WellShaped(prog)
            && ReadsKnownSeq({}, prog) && UsedSeq(prog) <= DeclaredSeq(prog)
  {
    hide Compile, AnalyzeSeq, AcceptsSeq, AfterSeq, WellShaped, ReadsKnownSeq, UsedSeq, DeclaredSeq;
    SeqAccepted(NoTypes, prog);
    CompilesExactly(prog);
  }

  // Programs of sound widths.

  /** The type of a lowerable expression over integer variables. */
  lemma {:induction false} LowerableAccepted(env: TypeEnv, e: Expr)
    requires IntegerEnv(env) && Intact(env) && LowerableExpr(e)
    ensures Accepts(env, e) <==> VarsOf(e) <= env.vars.Keys
    ensures Accepts(env, e) ==> TypeIn(env, e) == if KindOf(e).BoolKind? then BoolTy else IntegerTy
    decreases e, 1
  {
    match e
    case Binary(_, l, r) => LowerableAccepted(env, l); LowerableAccepted(env, r);
    case Assign(_, v) => LowerableAccepted(env, v);
    case Call(_, args) => LowerableAccepted(env, args[0]); OneArg(args);
    case _ =>
  }

  /** Analysis gives a lowerable expression over declared integer variables the type of
      the value its code leaves. */
  lemma LowerableAnalyzes(env: TypeEnv, e: Expr)
    requires IntegerEnv(env) && Intact(env) && LowerableExpr(e) && VarsOf(e) <= env.vars.Keys
    ensures AnalyzeExpr(env, e) == Ok(if KindOf(e).BoolKind? then BoolTy else IntegerTy)
  {
    hide AnalyzeExpr, Accepts, TypeIn, LowerableExpr, KindOf, VarsOf;
    ExprAccepted(env, e);
    LowerableAccepted(env, e);
  }

  lemma {:induction false} RowAccepted(env: TypeEnv, es: seq<Expr>)
    requires IntegerEnv(env) && Intact(env) && WidthsOkRow(es)
    ensures AcceptsAll(env, es) <==> VarsOfAll(es) <= env.vars.Keys
  {
    hide Accepts, LowerableExpr, KindOf, VarsOf, TypeIn;
    if es != [] {
      LowerableAccepted(env, es[0]);
      RowAccepted(env, es[1..]);
      assert forall i :: 0 < i < |es| ==> es[i] == es[1..][i - 1];
      assert AcceptsAll(env, es) <==> Accepts(env, es[0]) && AcceptsAll(env, es[1..]);
    }
  }

  /** The names a statement declares anywhere inside. */
  function Lets(s: Stmt): set<string>
    decreases s, 1
  {
    match s
    case Block(ss) => LetsSeq(ss)
    case Transaction(_, ss) => LetsSeq(ss)
    case Let(_, x, _) => {x}
    case If(_, thn, els) => LetsSeq(thn) + if els.ElseBlock? then LetsSeq(els.stmts) else {}
    case For(init, _, _, body) => (if init.JustStmt? then Lets(init.s) else {}) + LetsSeq(body)
    case _ => {}
  }

  function LetsSeq(ss: seq<Stmt>): set<string>
    decreases ss, 0
  {
    if ss == [] then {} else Lets(ss[0]) + LetsSeq(ss[1..])
  }

  /** Every name is declared before it is used, in program order whatever the branches
      and loops; declarations have no type and tables are tables of integers. */
  predicate Known(names: set<string>, s: Stmt)
    decreases s, 1
  {
    match s
    case Block(ss) => KnownSeq(names, ss)
    case Transaction(_, ss) => KnownSeq(names, ss)
    case Let(ty, _, e) => ty.NoType? && VarsOf(e) <= names
    case If(e, thn, els) =>
      VarsOf(e) <= names && KnownSeq(names, thn) && (els.ElseBlock? ==> KnownSeq(names + LetsSeq(thn), els.stmts))
    case For(init, test, every, body) =>
      var names1 := if init.JustStmt? then names + Lets(init.s) else names;
      && (init.JustStmt? ==> Known(names, init.s))
      && VarsOfMaybe(test) <= names1 && VarsOfMaybe(every) <= names1 && KnownSeq(names1, body)
    case Emit(Row(es)) => VarsOfAll(es) <= names
    case Insert(_, Row(es)) => VarsOfAll(es) <= names
    case Define(t, _) => TableOfIntegers(t)
    case ExprStmt(e) => VarsOf(e) <= names
    case _ => true
  }

  predicate KnownSeq(names: set<string>, ss: seq<Stmt>)
    decreases ss, 0
  {
    ss != [] ==> Known(names, ss[0]) && KnownSeq(names + Lets(ss[0]), ss[1..])
  }

  /** No table is named `integer` or `bool`. */
  predicate OwnNames(s: Stmt)
    decreases s, 1
  {
    match s
    case Block(ss) => OwnNamesSeq(ss)
    case Transaction(_, ss) => OwnNamesSeq(ss)
    case If(_, thn, els) => OwnNamesSeq(thn) && (els.ElseBlock? ==> OwnNamesSeq(els.stmts))
    case For(init, _, _, body) => (init.JustStmt? ==> OwnNames(init.s)) && OwnNamesSeq(body)
    case Define(_, name) => name != "integer" && name != "bool"
    case _ => true
  }

  predicate OwnNamesSeq(ss: seq<Stmt>)
    decreases ss, 0
  {
    ss != [] ==> OwnNames(ss[0]) && OwnNamesSeq(ss[1..])
  }

  ghost predicate Plain(env: TypeEnv) { IntegerEnv(env) && Intact(env) }

  /** What is known after a statement that may be used. */
  ghost predicate Goes(env: TypeEnv, env1: TypeEnv, lets: set<string>) {
    Plain(env1) && env1.vars.Keys == env.vars.Keys + lets
  }

  lemma LetGoes(env: TypeEnv, s: Stmt)
    requires Plain(env) && s.Let? && WidthsOk(s)
    ensures AcceptsStmt(env, s) <==> Known(env.vars.Keys, s)
    ensures AcceptsStmt(env, s) ==> Goes(env, After(env, s), Lets(s))
  {
    hide Accepts, LowerableExpr, KindOf, VarsOf, TypeIn;
    LowerableAccepted(env, s.value);
  }

  lemma {:induction false} StmtKnown(env: TypeEnv, s: Stmt)
    requires Plain(env) && WidthsOk(s) && OwnNames(s)
    ensures AcceptsStmt(env, s) <==> Known(env.vars.Keys, s)
    ensures AcceptsStmt(env, s) ==> Goes(env, After(env, s), Lets(s))
    decreases s, 2
  {
    hide Accepts, AcceptsAll, AcceptsSeq, AfterSeq, TypeIn, LowerableExpr, KindOf, VarsOf, VarsOfAll, WidthsOkRow,
         WidthsOkSeq, KnownSeq, LetsSeq, OwnNamesSeq, TableOfIntegers;
    match s
    case Block(ss) => SeqKnown(env, ss);
    case Transaction(_, ss) => SeqKnown(env, ss);
    case Let(_, _, _) => LetGoes(env, s);
    case If(e, thn, els) =>
      LowerableAccepted(env, e);
      SeqKnown(env, thn);
      if AcceptsSeq(env, thn) && els.ElseBlock? { SeqKnown(AfterSeq(env, thn), els.stmts); }
    case For(_, _, _, _) => ForKnown(env, s);
    case Emit(Row(es)) => RowAccepted(env, es);
    case Insert(_, Row(es)) => RowAccepted(env, es);
    case ExprStmt(e) => LowerableAccepted(env, e);
    case _ =>
  }

  lemma {:induction false} ForKnown(env: TypeEnv, s: Stmt)
    requires Plain(env) && s.For? && WidthsOk(s) && OwnNames(s)
    ensures AcceptsStmt(env, s) <==> Known(env.vars.Keys, s)
    ensures AcceptsStmt(env, s) ==> Goes(env, After(env, s), Lets(s))
    decreases s, 1
  {
    hide Accepts, AcceptsSeq, AfterSeq, TypeIn, LowerableExpr, KindOf, VarsOf, WidthsOkSeq, KnownSeq, LetsSeq,
         OwnNamesSeq;
    if s.init.JustStmt? { StmtKnown(env, s.init.s); }
    if s.init.JustStmt? ==> AcceptsStmt(env, s.init.s) {
      var env1 := if s.init.JustStmt? then After(env, s.init.s) else env;
      LowerableAccepted(env1, s.test.e);
      if s.every.JustExpr? { LowerableAccepted(env1, s.every.e); }
      SeqKnown(env1, s.body);
    }
  }

  /** A program of sound widths is accepted exactly if every name is declared before it
      is used. */
  lemma {:induction false} SeqKnown(env: TypeEnv, ss: seq<Stmt>)
    requires Plain(env) && WidthsOkSeq(ss) && OwnNamesSeq(ss)
    ensures AcceptsSeq(env, ss) <==> KnownSeq(env.vars.Keys, ss)
    ensures AcceptsSeq(env, ss) ==> Goes(env, AfterSeq(env, ss), LetsSeq(ss))
    decreases ss, 0
  {
    hide AcceptsStmt, After, Known, Lets, WidthsOk, OwnNames;
    if ss != [] {
      StmtKnown(env, ss[0]);
      if AcceptsStmt(env, ss[0]) { SeqKnown(After(env, ss[0]), ss[1..]); }
    }
  }

  /** Such a program compiles exactly if its names are declared before they are used,
      it is well shaped, and allocation meets the declarations too. */
  lemma SoundCompiles(prog: seq<Stmt>)
    requires WidthsOkSeq(prog) && OwnNamesSeq(prog)
    ensures Compile(prog).Ok? <==>
            && KnownSeq({}, prog) && WellShaped(prog)
            && ReadsKnownSeq({}, prog) && UsedSeq(prog) <= DeclaredSeq(prog)
  {
    hide Compile, AcceptsSeq, AfterSeq, KnownSeq, LetsSeq, WellShaped, ReadsKnownSeq, UsedSeq, DeclaredSeq,
         WidthsOkSeq, OwnNamesSeq;
    CompilesOnText(prog);
    SeqKnown(NoTypes, prog);
    assert NoTypes.vars.Keys == {};
  }
}
