/** How far the passes agree: which analyzed programs compile, when analysis
    predicts operand widths, and inputs on which the emitted code does not mean
    what the program says. */
module Limits {
  import opened Ast
  import opened Bytes
  import opened Rows
  import opened Machine
  import opened Semantics
  import opened Codegen
  import opened Lowerable
  import opened Analysis
  import opened Compiler
  import opened Resolution
  import opened Widths
  import opened Terminators
  import opened Preservation
  import opened Predecessors

  // Analysis and widths.

  /** Integers are i64 and truth values i1. */
  predicate Fits(t: Ty, k: Kind) { (t.IntegerTy? && k.IntKind?) || (t.BoolTy? && k.BoolKind?) }

  /** No call as a value, and no truth value assigned. */
  predicate Disciplined(e: Expr) {
    match e
    case Binary(_, l, r) => Disciplined(l) && Disciplined(r)
    case Assign(_, v) => Disciplined(v) && KindOf(v).IntKind?
    case Call(_, _) => false
    case _ => true
  }

  /** Hands on a value under another type than its own: a variable of another type than
      integer, which is loaded as i64, or a literal or comparison whose type name a
      table has taken. */
  predicate Mistyped(env: TypeEnv, e: Expr) {
    match e
    case Num(_) => "integer" in env.taken
    case Var(x) => x in env.vars && !env.vars[x].IntegerTy?
    case Binary(op, _, _) => !op.IsArith() && "bool" in env.taken
    case Assign(_, v) => Mistyped(env, v)
    case _ => false
  }

  lemma {:induction false} TypedWidths(env: TypeEnv, e: Expr)
    requires AnalyzeExpr(env, e).Ok? && Generable(e)
    ensures Disciplined(e) <==> LowerableExpr(e) && !KindOf(e).UnitKind?
    ensures Mistyped(env, e) ==> !AnalyzeExpr(env, e).value.IntegerTy?
    ensures Disciplined(e) ==> (Fits(AnalyzeExpr(env, e).value, KindOf(e)) <==> !Mistyped(env, e))
  {
    match e
    case Binary(_, l, r) => TypedWidths(env, l); TypedWidths(env, r);
    case Assign(_, v) => TypedWidths(env, v);
    case _ =>
  }

  /** An analyzed expression yields i64 for an integer type and i1 for a truth
      value, through instructions of sound widths, exactly when it is disciplined
      and not mistyped. */
  lemma AnalyzedWidths(env: TypeEnv, c: Ctx, e: Expr)
    requires AnalyzeExpr(env, e).Ok? && Open(c) && GenExpr(c, e).Ok? && BlocksOk(c.blocks)
    ensures var (c1, o) := GenExpr(c, e).value;
            BlocksOk(c1.blocks) && Fits(AnalyzeExpr(env, e).value, OperandKind(o)) <==>
            Disciplined(e) && !Mistyped(env, e)
  {
    hide GenExpr, AnalyzeExpr, BlocksOk, Disciplined, Mistyped, KindOf, LowerableExpr, Generable;
    ExprExactly(c, e);
    TypedWidths(env, e);
    ExprWidths(c, e);
    ExprShape(c, e);
  }

  // Whole programs.

  predicate IntegerEnv(env: TypeEnv) { forall x :: x in env.vars ==> env.vars[x].IntegerTy? }

  /** No table has taken the type name of literals or of comparisons. */
  predicate Intact(env: TypeEnv) { "integer" !in env.taken && "bool" !in env.taken }

  lemma {:induction false} TakenGrows(env: TypeEnv, s: Stmt)
    requires AnalyzeStmt(env, s).Ok?
    ensures env.taken <= AnalyzeStmt(env, s).value.taken
    decreases s, 1
  {
    hide AnalyzeExpr, AnalyzeAll, AnalyzeSeq, AnalyzeMaybe;
    match s
    case Block(ss) => TakenGrowsSeq(env, ss);
    case Transaction(_, ss) => TakenGrowsSeq(env, ss);
    case If(_, thn, els) =>
      TakenGrowsSeq(env, thn);
      if els.ElseBlock? { TakenGrowsSeq(AnalyzeSeq(env, thn).value, els.stmts); }
    case For(init, _, _, body) =>
      if init.JustStmt? { TakenGrows(env, init.s); }
      TakenGrowsSeq(if init.JustStmt? then AnalyzeStmt(env, init.s).value else env, body);
    case _ =>
  }

  lemma {:induction false} TakenGrowsSeq(env: TypeEnv, ss: seq<Stmt>)
    requires AnalyzeSeq(env, ss).Ok?
    ensures env.taken <= AnalyzeSeq(env, ss).value.taken
    decreases ss, 0
  {
    hide AnalyzeStmt;
    if ss != [] {
      TakenGrows(env, ss[0]);
      TakenGrowsSeq(AnalyzeStmt(env, ss[0]).value, ss[1..]);
    }
  }

  /** The code of an expression leaves what its analyzed type says. */
  predicate Typed(env: TypeEnv, e: Expr) {
    AnalyzeExpr(env, e).Ok? && (KindOf(e).UnitKind? || Fits(AnalyzeExpr(env, e).value, KindOf(e)))
  }

  predicate TypedMaybe(env: TypeEnv, e: MaybeExpr) { e.JustExpr? ==> Typed(env, e.e) }

  /** Every expression of a statement is typed where analysis meets it. */
  predicate TypedStmt(env: TypeEnv, s: Stmt)
    requires AnalyzeStmt(env, s).Ok?
    decreases s, 1
  {
    match s
    case Block(ss) => TypedSeq(env, ss)
    case Transaction(_, ss) => TypedSeq(env, ss)
    case Let(_, _, e) => Typed(env, e)
    case If(e, thn, els) =>
      && Typed(env, e) && TypedSeq(env, thn)
      && (els.ElseBlock? ==> TypedSeq(AnalyzeSeq(env, thn).value, els.stmts))
    case For(init, test, every, body) =>
      var env1 := if init.JustStmt? then AnalyzeStmt(env, init.s).value else env;
      && (init.JustStmt? ==> TypedStmt(env, init.s))
      && TypedMaybe(env1, test) && TypedMaybe(env1, every) && TypedSeq(env1, body)
    case Emit(Row(es)) => forall i :: 0 <= i < |es| ==> Typed(env, es[i])
    case Insert(_, Row(es)) => forall i :: 0 <= i < |es| ==> Typed(env, es[i])
    case ExprStmt(e) => Typed(env, e)
    case _ => true
  }

  predicate TypedSeq(env: TypeEnv, ss: seq<Stmt>)
    requires AnalyzeSeq(env, ss).Ok?
    decreases ss, 0
  {
    ss != [] ==> TypedStmt(env, ss[0]) && TypedSeq(AnalyzeStmt(env, ss[0]).value, ss[1..])
  }

  lemma {:induction false} LowerableGenerable(e: Expr)
    requires LowerableExpr(e)
    ensures Generable(e)
  {
    match e
    case Binary(_, l, r) => LowerableGenerable(l); LowerableGenerable(r);
    case Assign(_, v) => LowerableGenerable(v);
    case Call(_, args) => LowerableGenerable(args[0]);
    case _ =>
  }

  lemma {:induction false} NeverMistyped(env: TypeEnv, e: Expr)
    requires IntegerEnv(env) && Intact(env)
    ensures !Mistyped(env, e)
  {
    if e.Assign? { NeverMistyped(env, e.value); }
  }

  lemma LowerableTyped(env: TypeEnv, e: Expr)
    requires IntegerEnv(env) && Intact(env) && AnalyzeExpr(env, e).Ok? && LowerableExpr(e)
    ensures Typed(env, e)
  {
    hide AnalyzeExpr, LowerableExpr, Disciplined, Mistyped, KindOf, Generable;
    LowerableGenerable(e);
    NeverMistyped(env, e);
    TypedWidths(env, e);
  }

  lemma {:induction false} RowTyped(env: TypeEnv, es: seq<Expr>)
    requires IntegerEnv(env) && Intact(env) && AnalyzeAll(env, es).Ok? && WidthsOkRow(es)
    ensures forall i :: 0 <= i < |es| ==> Typed(env, es[i])
  {
    hide AnalyzeExpr, LowerableExpr, Typed, KindOf;
    if es != [] {
      LowerableTyped(env, es[0]);
      RowTyped(env, es[1..]);
      assert forall i :: 0 < i < |es| ==> es[i] == es[1..][i - 1];
    }
  }

  lemma MaybeTyped(env: TypeEnv, e: MaybeExpr)
    requires IntegerEnv(env) && Intact(env) && AnalyzeMaybe(env, e).Ok? && (e.JustExpr? ==> LowerableExpr(e.e))
    ensures TypedMaybe(env, e)
  {
    if e.JustExpr? { LowerableTyped(env, e.e); }
  }

  lemma {:induction false} StmtTyped(env: TypeEnv, s: Stmt)
    requires IntegerEnv(env) && AnalyzeStmt(env, s).Ok? && WidthsOk(s) && Intact(AnalyzeStmt(env, s).value)
    ensures TypedStmt(env, s) && IntegerEnv(AnalyzeStmt(env, s).value)
    decreases s, 1
  {
    hide AnalyzeExpr, AnalyzeAll, AnalyzeSeq, LowerableExpr, Typed, KindOf, WidthsOkSeq, TypedSeq, WidthsOkRow,
         TypedMaybe, AnalyzeMaybe;
    TakenGrows(env, s);
    match s
    case Block(ss) => SeqTyped(env, ss);
    case Transaction(_, ss) => SeqTyped(env, ss);
    case Let(_, _, e) => LowerableTyped(env, e); TypedIntegers(env, e);
    case If(e, thn, els) =>
      LowerableTyped(env, e);
      if els.ElseBlock? { TakenGrowsSeq(AnalyzeSeq(env, thn).value, els.stmts); }
      SeqTyped(env, thn);
      if els.ElseBlock? { SeqTyped(AnalyzeSeq(env, thn).value, els.stmts); }
    case For(_, _, _, _) => ForTyped(env, s);
    case Emit(Row(es)) => RowTyped(env, es);
    case Insert(_, Row(es)) => RowTyped(env, es);
    case ExprStmt(e) => LowerableTyped(env, e);
    case _ =>
  }

  lemma {:induction false} ForTyped(env: TypeEnv, s: Stmt)
    requires s.For? && IntegerEnv(env) && AnalyzeStmt(env, s).Ok? && WidthsOk(s) && Intact(AnalyzeStmt(env, s).value)
    ensures TypedStmt(env, s) && IntegerEnv(AnalyzeStmt(env, s).value)
    decreases s, 0
  {
    hide AnalyzeExpr, AnalyzeAll, AnalyzeSeq, LowerableExpr, Typed, KindOf, WidthsOkSeq, TypedSeq, WidthsOkRow,
         TypedMaybe, AnalyzeMaybe;
    var env1 := if s.init.JustStmt? then AnalyzeStmt(env, s.init.s).value else env;
    TakenGrowsSeq(env1, s.body);
    if s.init.JustStmt? { StmtTyped(env, s.init.s); }
    MaybeTyped(env1, s.test);
    MaybeTyped(env1, s.every);
    SeqTyped(env1, s.body);
  }

  lemma TypedIntegers(env: TypeEnv, e: Expr)
    requires Typed(env, e) && KindOf(e).IntKind?
    ensures AnalyzeExpr(env, e).value.IntegerTy?
  {
  }

  /** In an analyzed program of sound widths without a table named `integer` or `bool`
      all variables are integers, and the code of every expression leaves what the
      expression's type says. */
  lemma {:induction false} SeqTyped(env: TypeEnv, ss: seq<Stmt>)
    requires IntegerEnv(env) && AnalyzeSeq(env, ss).Ok? && WidthsOkSeq(ss) && Intact(AnalyzeSeq(env, ss).value)
    ensures TypedSeq(env, ss) && IntegerEnv(AnalyzeSeq(env, ss).value)
    decreases ss, 0
  {
    hide AnalyzeStmt, WidthsOk, TypedStmt;
    if ss != [] {
      TakenGrowsSeq(AnalyzeStmt(env, ss[0]).value, ss[1..]);
      StmtTyped(env, ss[0]);
      SeqTyped(AnalyzeStmt(env, ss[0]).value, ss[1..]);
    }
  }

  // Programs that compile to code with another meaning.

  /** `for 1 ; ; 1 { break }`. */
  function Headless(): Stmt { For(JustStmt(ExprStmt(Num(1))), NoExpr, JustExpr(Num(1)), [Jump(BreakJump)]) }

  lemma HeadlessSplits()
    ensures [Headless()][1..] == [] && [Jump(BreakJump)][1..] == []
  {
  }

  lemma HeadlessAnalyzes()
    ensures AnalyzeSeq(NoTypes, [Headless()]).Ok? && AllocSeq(Entry(), [Headless()]) == Ok(Entry())
  {
    HeadlessSplits();
    var body, c0, init := [Jump(BreakJump)], Entry(), ExprStmt(Num(1));
    assert AnalyzeExpr(NoTypes, Num(1)) == Ok(IntegerTy) && AnalyzeStmt(NoTypes, init) == Ok(NoTypes);
    assert AnalyzeSeq(NoTypes, body) == Ok(NoTypes);
    assert AnalyzeStmt(NoTypes, Headless()) == Ok(NoTypes);
    assert GetType(map[], Num(1)).Ok? && GetNested(map[], Num(1)).Ok? && AllocStmt(c0, init) == Ok(c0);
    assert AllocSeq(c0, []) == Ok(c0) && AllocSeq(c0, body) == Ok(c0);
    assert AllocInside(c0, Headless()) == Ok(c0);
  }

  /** The blocks of the loop; block 1, its head, stays empty. */
  lemma HeadlessGenerates()
    ensures GenSeq(Entry(), [Headless()]).Ok?
    ensures var p := Append(GenSeq(Entry(), [Headless()]).value, Ret).blocks; |p| == 5 && p[0] == [Br(1)] && p[1] == []
  {
    HeadlessSplits();
    var c0 := Entry();
    var c1 := EnterLoop(c0);
    var c2 := Append(c1.(cur := 2), Br(4));
    assert GenStmt(c1.(cur := 2), Jump(BreakJump)) == Ok(c2);
    assert GenSeq(c1.(cur := 2), [Jump(BreakJump)]) == Ok(c2);
    var c3 := GenLoop(c0, Headless()).value;
    assert GenExpr(c0, Num(1)).Ok? && GenStmt(c0, ExprStmt(Num(1))) == Ok(c0);
    assert GenStmt(c0, Headless()) == Ok(c3);
    assert GenSeq(c0, [Headless()]) == Ok(c3);
  }

  lemma HeadlessMeans()
    ensures ExecSeq([Headless()], Init(Once), 1) == Done(Normal, Init(Once))
  {
    HeadlessSplits();
    assert ExecSeq([Jump(BreakJump)], Init(Once), 0) == Done(Broke, Init(Once));
    assert Loop(Headless(), Init(Once), 1) == Done(Normal, Init(Once));
    assert Exec(ExprStmt(Num(1)), Init(Once), 1) == Done(Normal, Init(Once));
    assert Exec(Headless(), Init(Once), 1) == Done(Normal, Init(Once));
    assert ExecSeq([], Init(Once), 1) == Done(Normal, Init(Once));
  }

  /** `for 1 ; ; 1 { break }`: the loop head gets no branch, so control falls off it. */
  lemma HeadlessLoopFaults()
    ensures Compile([Headless()]).Ok? && Completes([Headless()], Once, 1)
    ensures FaultsAt(Compile([Headless()]).value, 1, Goto(Start(), 1))
  {
    hide AnalyzeSeq, AllocSeq, GenSeq, ExecSeq, Run;
    HeadlessAnalyzes();
    HeadlessGenerates();
    HeadlessMeans();
    var p := Compile([Headless()]).value;
    assert Step(p, Start()) == Some(Goto(Start(), 1));
    RunNone(p, Start());
    RunStep(p, Start(), 0, Start(), Goto(Start(), 1));
  }

  lemma RunNone(p: Program, k: Conf)
    ensures Run(p, k, 0) == Some(k)
  {
  }

  /** `let b = 1 < 2` is accepted by every pass, and its code stores one bit into
      an i64 slot. */
  lemma TruthLetIsIllFormed()
    ensures var prog := [Let(NoType, "b", Binary(LessThan, Num(1), Num(2)))];
            Compile(prog).Ok? && !WellFormedCode(Compile(prog).value)
  {
    hide WellFormedCode;
    var e := Binary(LessThan, Num(1), Num(2));
    var s := Let(NoType, "b", e);
    var prog := [s];
    assert prog[1..] == [];
    assert AnalyzeExpr(NoTypes, e) == Ok(BoolTy);
    assert AnalyzeStmt(NoTypes, s).Ok?;
    assert AnalyzeSeq(NoTypes, prog).Ok?;
    assert GetType(map[], e) == Ok(I64);
    var c0 := Entry();
    var c1 := AllocStmt(c0, s).value;
    assert AllocSeq(c0, prog) == Ok(c1);
    assert GenExpr(c1, e).Ok? && GetType(c1.vars, e) == Ok(I64);
    assert GenStmt(c1, s).Ok?;
    assert GenSeq(c1, prog).Ok?;
    assert !WidthsOk(s);
    WellFormedExactly(prog);
  }

  // Programs that analysis accepts and generation does not.

  function LessTest(): Expr { Binary(LessThan, Num(1), Num(2)) }

  /** `for { ... } ; 1 < 2 ; 1 { }`. */
  function NestedInit(inner: Stmt): seq<Stmt> {
    [For(JustStmt(Block([inner])), JustExpr(LessTest()), JustExpr(Num(1)), [])]
  }

  lemma NestedSplits(inner: Stmt)
    ensures [inner][1..] == [] && NestedInit(inner)[1..] == []
  {
  }

  lemma NestedAnalyzes(inner: Stmt)
    requires AnalyzeStmt(NoTypes, inner).Ok? && Intact(AnalyzeStmt(NoTypes, inner).value)
    ensures AnalyzeSeq(NoTypes, NestedInit(inner)).Ok?
  {
    hide AnalyzeExpr;
    NestedSplits(inner);
    var env := AnalyzeStmt(NoTypes, inner).value;
    assert AnalyzeSeq(env, []) == Ok(env);
    assert AnalyzeSeq(NoTypes, [inner]) == Ok(env);
    assert AnalyzeStmt(NoTypes, Block([inner])) == Ok(env);
    ConstantsAnalyze(env);
    var s := NestedInit(inner)[0];
    assert AnalyzeStmt(NoTypes, s) == Ok(env);
    assert AnalyzeSeq(NoTypes, NestedInit(inner)) == AnalyzeSeq(env, []);
  }

  lemma ConstantsAnalyze(env: TypeEnv)
    requires Intact(env)
    ensures AnalyzeExpr(env, LessTest()) == Ok(BoolTy) && AnalyzeExpr(env, Num(1)) == Ok(IntegerTy)
  {
  }

  lemma ConstantsShaped()
    ensures LowerableExpr(LessTest()) && KindOf(LessTest()).BoolKind? && LowerableExpr(Num(1))
    ensures Generable(LessTest()) && Generable(Num(1)) && VarsOf(LessTest()) == {} && VarsOf(Num(1)) == {}
  {
  }

  lemma NestedShaped(inner: Stmt, tables: map<bytes, seq<Attr>>)
    requires WidthsOk(inner) && JumpsInside(inner, false)
    ensures WidthsOkSeq(NestedInit(inner)) && JumpsInsideSeq(NestedInit(inner), false)
    ensures GenerableSeq(tables, NestedInit(inner)) <==> GenerableStmt(tables, inner) && BuffersNeeded(inner) == 0
  {
    hide LowerableExpr, KindOf, Generable;
    NestedSplits(inner);
    ConstantsShaped();
    var s, init := NestedInit(inner)[0], Block([inner]);
    assert WidthsOkSeq([]) && JumpsInsideSeq([], false) && JumpsInsideSeq([], true) && GenerableSeq(tables, []);
    assert WidthsOkSeq([inner]) && JumpsInsideSeq([inner], false);
    assert WidthsOk(init) && JumpsInside(init, false) && s.init == JustStmt(init) && s.body == [];
    assert WidthsOk(s) && JumpsInside(s, false);
    assert BuffersNeededSeq([]) == 0 && BuffersNeededSeq([inner]) == BuffersNeeded(inner) && BuffersMade(init) == 0;
    assert GenerableSeq(tables, [inner]) <==> GenerableStmt(tables, inner);
    assert GenerableStmt(tables, s) <==> GenerableStmt(tables, inner) && BuffersNeeded(inner) == 0;
  }

  /** The allocation pass sees nothing of the initializer. */
  lemma NestedUnseen(inner: Stmt)
    ensures AllocatableSeq({}, NestedInit(inner)) && ReadsKnownSeq({}, NestedInit(inner))
    ensures DeclaredSeq(NestedInit(inner)) == {} && DefinedSeq(NestedInit(inner)) == map[]
    ensures UsedSeq(NestedInit(inner)) == Used(inner)
  {
    hide VarsOf;
    NestedSplits(inner);
    ConstantsShaped();
    var s := NestedInit(inner)[0];
    assert AllocatableSeq({}, []) && ReadsKnownSeq({}, []) && UsedSeq([]) == {} && UsedSeq([inner]) == Used(inner);
    assert DeclaredSeq([]) == {} && DefinedSeq([]) == map[];
    var init := Block([inner]);
    assert s.init == JustStmt(init) && s.body == [] && Declared(init) == {} && Defined(init) == map[];
    assert Declared(s) == {} && DeclaredInside(s) == {} && Defined(s) == map[] && DefinedInside(s) == map[];
    assert {} + Declared(s) == {} && {} + Declared(s) + DeclaredInside(s) == {};
    assert {} + Defined(s).Keys == {} && {} + Defined(s).Keys + DefinedInside(s).Keys == {};
    assert Used(s) == Used(inner);
    assert Allocatable({}, init) && ReadsKnown({}, init) && Allocatable({}, s) && ReadsKnown({}, s);
    assert AllocatableInside({}, s) && ReadsKnownInside({}, s);
  }

  /** A declaration nested in an initializer is analyzed and never allocated: the
      name is used and not declared. */
  lemma NestedInitDoesNotCompile()
    ensures var prog := NestedInit(Let(NoType, "i", Num(0)));
            && AnalyzeSeq(NoTypes, prog).Ok? && WidthsOkSeq(prog) && JumpsInsideSeq(prog, false)
            && Compile(prog) == Err(UNRESOLVED)
  {
    hide AnalyzeSeq, WidthsOkSeq, JumpsInsideSeq, GenerableSeq, AllocatableSeq, ReadsKnownSeq, UsedSeq, DeclaredSeq,
         DefinedSeq, Compile, NestedInit;
    var inner := Let(NoType, "i", Num(0));
    NestedAnalyzes(inner);
    NestedShaped(inner, map[]);
    NestedUnseen(inner);
    CompilesExactly(NestedInit(inner));
  }

  /** An emit nested in an initializer gets no buffer. */
  lemma NestedEmitDoesNotCompile()
    ensures var prog := NestedInit(Emit(Row([Num(1)])));
            && AnalyzeSeq(NoTypes, prog).Ok? && WidthsOkSeq(prog) && JumpsInsideSeq(prog, false)
            && Compile(prog).Err? && Compile(prog) != Err(UNRESOLVED)
  {
    hide AnalyzeSeq, WidthsOkSeq, JumpsInsideSeq, GenerableSeq, AllocatableSeq, ReadsKnownSeq, UsedSeq, DeclaredSeq,
         DefinedSeq, Compile, NestedInit;
    var inner := Emit(Row([Num(1)]));
    assert [Num(1)][1..] == [];
    assert AnalyzeExpr(NoTypes, Num(1)) == Ok(IntegerTy) && AnalyzeAll(NoTypes, [Num(1)]).Ok?;
    NestedAnalyzes(inner);
    NestedShaped(inner, map[]);
    NestedUnseen(inner);
    assert VarsOfAll([Num(1)]) == {};
    CompilesExactly(NestedInit(inner));
    NamesResolved(NestedInit(inner));
  }

  /** `define <{int: a key}> integer 1 + 2`. */
  function TakenName(): seq<Stmt> {
    [Define(JustType(TupleType([Column("int", NoParam, "a", Props(true, false, false))])), "integer"),
     ExprStmt(Binary(Plus, Num(1), Num(2)))]
  }

  /** A table of that name turns every literal into a tuple for the analysis, and no
      operator takes one. */
  lemma TakenNameDoesNotCompile()
    ensures Compile(TakenName()) == Err("tuple operator not supported yet")
  {
    var d, s := TakenName()[0], TakenName()[1];
    var env := TypeEnv(map[], {"integer"});
    assert TakenName()[1..] == [s] && {} + {"integer"} == {"integer"};
    assert IntTable(d.schema);
    assert AnalyzeStmt(NoTypes, d) == Ok(env);
    assert AnalyzeExpr(env, s.value) == Err("tuple operator not supported yet");
    assert AnalyzeSeq(env, [s]) == Err("tuple operator not supported yet");
  }

  function BothOnes(): Expr { Binary(CondAnd, Num(1), Num(1)) }

  function BehindBreak(): seq<Stmt> { [Jump(BreakJump), ExprStmt(BothOnes())] }

  /** `for 1 ; 1 < 2 ; 1 { break 1 && 1 }`. */
  function DeadCond(): seq<Stmt> {
    [For(JustStmt(ExprStmt(Num(1))), JustExpr(LessTest()), JustExpr(Num(1)), BehindBreak())]
  }

  lemma DeadCondSplits()
    ensures DeadCond()[1..] == [] && BehindBreak()[1..] == [ExprStmt(BothOnes())] && BehindBreak()[1..][1..] == []
  {
  }

  lemma BehindBreakShapes(tables: map<bytes, seq<Attr>>)
    ensures WidthsOkSeq(BehindBreak()) && AllocatableSeq({}, BehindBreak()) && GenerableSeq(tables, BehindBreak())
    ensures JumpsInsideSeq(BehindBreak(), true) && UsedSeq(BehindBreak()) == {} && ReadsKnownSeq({}, BehindBreak())
    ensures AnalyzeSeq(NoTypes, BehindBreak()) == Ok(NoTypes) && !CondsLiveSeq(BehindBreak(), false)
  {
    DeadCondSplits();
    var b, s, e := BehindBreak()[0], BehindBreak()[1], BothOnes();
    BothOnesShapes(tables);
    var rest := BehindBreak()[1..];
    assert WidthsOkSeq([]) && AllocatableSeq({}, []) && GenerableSeq(tables, []) && JumpsInsideSeq([], true)
           && UsedSeq([]) == {};
    assert AnalyzeSeq(NoTypes, []) == Ok(NoTypes);
    assert {} + Declared(s) + DeclaredInside(s) == {} && ReadsKnownSeq({}, []) && ReadsKnownSeq({}, rest);
    assert {} + Declared(b) + DeclaredInside(b) == {};
    assert WidthsOkSeq(rest) && AllocatableSeq({}, rest) && GenerableSeq(tables, rest) && JumpsInsideSeq(rest, true);
    assert UsedSeq(rest) == {} && AnalyzeSeq(NoTypes, rest) == Ok(NoTypes) && !CondsLiveSeq(rest, true);
  }

  lemma BothOnesShapes(tables: map<bytes, seq<Attr>>)
    ensures var s := ExprStmt(BothOnes());
            && WidthsOk(s) && Allocatable({}, s) && AllocatableInside({}, s) && GenerableStmt(tables, s)
               && JumpsInside(s, true)
            && Used(s) == {} && ReadsKnown({}, s) && ReadsKnownInside({}, s) && AnalyzeStmt(NoTypes, s) == Ok(NoTypes)
            && !CondsLive(s, true)
  {
    assert LowerableExpr(BothOnes()) && Typable(BothOnes()) && Generable(BothOnes()) && HasCond(BothOnes());
    assert AnalyzeExpr(NoTypes, BothOnes()) == Ok(BoolTy) && VarsOf(BothOnes()) == {} && TypeVars(BothOnes()) == {};
  }

  lemma DeadCondAnalyzes()
    ensures AnalyzeSeq(NoTypes, DeadCond()).Ok?
  {
    hide AnalyzeStmt;
    DeadCondSplits();
    DeadLoopAnalyzes(DeadCond()[0]);
    assert AnalyzeSeq(NoTypes, []) == Ok(NoTypes);
  }

  lemma DeadLoopAnalyzes(s: Stmt)
    requires s == DeadCond()[0]
    ensures AnalyzeStmt(NoTypes, s) == Ok(NoTypes)
  {
    hide AnalyzeExpr, AnalyzeSeq;
    BehindBreakShapes(map[]);
    ConstantsAnalyze(NoTypes);
    assert AnalyzeStmt(NoTypes, ExprStmt(Num(1))) == Ok(NoTypes);
  }

  lemma DeadLoopShapes(s: Stmt, tables: map<bytes, seq<Attr>>)
    requires s == DeadCond()[0]
    ensures WidthsOk(s) && GenerableStmt(tables, s) && JumpsInside(s, false) && Used(s) == {}
  {
    hide AllocatableSeq, ReadsKnownSeq, CondsLiveSeq, AnalyzeSeq, LowerableExpr, KindOf, Generable, VarsOf;
    BehindBreakShapes(tables);
    ConstantsShaped();
    var init := ExprStmt(Num(1));
    assert WidthsOk(init) && GenerableStmt(tables, init) && JumpsInside(init, false) && Used(init) == {}
           && BuffersMade(init) == BuffersNeeded(init);
  }

  lemma DeadLoopAllocates(s: Stmt)
    requires s == DeadCond()[0]
    ensures Allocatable({}, s) && AllocatableInside({}, s) && ReadsKnown({}, s) && ReadsKnownInside({}, s)
            && !CondsLive(s, false)
  {
    hide WidthsOkSeq, GenerableSeq, JumpsInsideSeq, UsedSeq, AnalyzeSeq;
    BehindBreakShapes(map[]);
    var init := ExprStmt(Num(1));
    assert Typable(Num(1)) && NestedTypable(Num(1)) && TypeVars(Num(1)) == {} && NestedVars(Num(1)) == {};
    assert Allocatable({}, init) && ReadsKnown({}, init) && Declared(init) == {} && Defined(init) == map[];
    assert {} + Declared(init) == {} && {} + Defined(init).Keys == {};
  }

  lemma DeadCondShapes(tables: map<bytes, seq<Attr>>)
    ensures WidthsOkSeq(DeadCond()) && AllocatableSeq({}, DeadCond()) && GenerableSeq(tables, DeadCond())
    ensures JumpsInsideSeq(DeadCond(), false)
    ensures UsedSeq(DeadCond()) == {} && ReadsKnownSeq({}, DeadCond()) && !CondsLiveSeq(DeadCond(), false)
  {
    hide WidthsOk, Allocatable, AllocatableInside, GenerableStmt, JumpsInside, Used, ReadsKnown, ReadsKnownInside,
         CondsLive;
    DeadCondSplits();
    var s := DeadCond()[0];
    DeadLoopShapes(s, tables);
    DeadLoopAllocates(s);
    assert WidthsOkSeq([]) && GenerableSeq(tables, []) && JumpsInsideSeq([], false) && UsedSeq([]) == {};
    assert AllocatableSeq({} + Defined(s).Keys + DefinedInside(s).Keys, [])
           && ReadsKnownSeq({} + Declared(s) + DeclaredInside(s), []);
    assert {} + Declared(s) == {} && {} + Defined(s).Keys == {};
  }

  lemma DeadCondShaped()
    ensures WidthsOkSeq(DeadCond()) && WellShaped(DeadCond()) && !CondsLiveSeq(DeadCond(), false)
    ensures ReadsKnownSeq({}, DeadCond()) && UsedSeq(DeadCond()) <= DeclaredSeq(DeadCond())
  {
    hide WidthsOkSeq, AllocatableSeq, GenerableSeq, JumpsInsideSeq, UsedSeq, DeclaredSeq, DefinedSeq, ReadsKnownSeq,
         CondsLiveSeq;
    DeadCondShapes(Attributes(DefinedSeq(DeadCond())));
  }

  /** The phi of an operator behind a `break` names the ended block, which goes to
      the end of the loop only. */
  lemma JumpedPhiIsInexact()
    ensures Compile(DeadCond()).Ok? && WidthsOkSeq(DeadCond()) && !PhisExact(Compile(DeadCond()).value)
  {
    hide *;
    DeadCondAnalyzes();
    DeadCondShaped();
    CompilesExactly(DeadCond());
    PhisExactly(DeadCond());
  }
}
