/** Meaning is preserved: a compiled program halts, faults and shows events
    exactly as its source says. Row elements with an effect are the exception,
    since their code runs twice. */
module Preservation {
  import opened Ast
  import opened Bytes
  import opened Rows
  import opened Values
  import opened Machine
  import opened Semantics
  import opened Lowerable
  import opened Simulation
  import opened Codegen
  import opened Analysis
  import opened Compiler
  import opened Resolution

  // Rows that may be evaluated twice.

  predicate CallFree(e: Expr) {
    match e
    case Binary(_, l, r) => CallFree(l) && CallFree(r)
    case Assign(_, v) => CallFree(v)
    case Call(_, _) => false
    case _ => true
  }

  /** Variables an expression may assign. */
  function Assigns(e: Expr): set<string> {
    match e
    case Binary(_, l, r) => Assigns(l) + Assigns(r)
    case Assign(Var(x), v) => Assigns(v) + {x}
    case _ => {}
  }

  /** Variables it has assigned whenever it has a value. */
  function Defines(e: Expr): set<string> {
    match e
    case Binary(op, l, r) => Defines(l) + if op.IsCond() then {} else Defines(r)
    case Assign(Var(x), v) => Defines(v) + {x}
    case _ => {}
  }

  /** Variables it may read before it assigns them, if `done` are assigned. */
  function Fetches(e: Expr, done: set<string>): set<string> {
    match e
    case Var(x) => {x} - done
    case Binary(_, l, r) => Fetches(l, done) + Fetches(r, done + Defines(l))
    case Assign(Var(_), v) => Fetches(v, done)
    case _ => {}
  }

  /** A second evaluation right after the first repeats it: no call, and no variable
      is assigned that the first read before. */
  predicate Repeatable(e: Expr) { CallFree(e) && Fetches(e, {}) !! Assigns(e) }

  /** Every element of every emitted row is repeatable. */
  predicate RowsRepeatable(s: Stmt)
    decreases s, 1
  {
    match s
    case Block(ss) => RowsRepeatableSeq(ss)
    case Transaction(_, ss) => RowsRepeatableSeq(ss)
    case If(_, thn, els) => RowsRepeatableSeq(thn) && (els.ElseBlock? ==> RowsRepeatableSeq(els.stmts))
    case For(init, _, _, body) => (init.JustStmt? ==> RowsRepeatable(init.s)) && RowsRepeatableSeq(body)
    case Emit(Row(es)) => forall i :: 0 <= i < |es| ==> Repeatable(es[i])
    case Insert(_, Row(es)) => forall i :: 0 <= i < |es| ==> Repeatable(es[i])
    case _ => true
  }

  predicate RowsRepeatableSeq(ss: seq<Stmt>)
    decreases ss, 0
  {
    ss != [] ==> RowsRepeatable(ss[0]) && RowsRepeatableSeq(ss[1..])
  }

  function Look(st: State, x: string): Option<Value> {
    if x in st.vars then Some(st.vars[x]) else None
  }

  ghost predicate Kept(st: State, st1: State, x: string) { Look(st1, x) == Look(st, x) }

  /** Without calls evaluation changes only variables it may assign. */
  lemma {:induction false} EvalFrame(e: Expr, st: State)
    requires CallFree(e) && Eval(e, st).Some?
    ensures var st1 := Eval(e, st).value.1;
            && st1.out == st.out && st1.rows == st.rows
            && forall x :: x !in Assigns(e) ==> Kept(st, st1, x)
  {
    match e
    case Binary(op, l, r) =>
      EvalFrame(l, st);
      var st1 := Eval(l, st).value.1;
      if Eval(r, st1).Some? {
        EvalFrame(r, st1);
        forall x | x !in Assigns(e) ensures Kept(st, Eval(e, st).value.1, x) {
          assert Kept(st, st1, x) && Kept(st1, Eval(r, st1).value.1, x);
        }
      }
    case Assign(Var(y), v) =>
      EvalFrame(v, st);
      forall x | x !in Assigns(e) ensures Kept(st, Eval(e, st).value.1, x) { assert Kept(st, Eval(v, st).value.1, x); }
    case _ =>
  }

  /** Both states give `x` the same value, or both keep theirs. */
  ghost predicate Parallel(st: State, su: State, st1: State, su1: State, x: string) {
    Look(st1, x) == Look(su1, x) || (Kept(st, st1, x) && Kept(su, su1, x))
  }

  ghost predicate Agree(st: State, su: State, names: set<string>) {
    forall x :: x in names ==> Look(st, x) == Look(su, x)
  }

  /** What two evaluations from agreeing states have in common. */
  ghost predicate Together(e: Expr, st: State, su: State, done: set<string>) {
    && (Eval(e, st).None? <==> Eval(e, su).None?)
    && (Eval(e, st).Some? ==>
          var (v, st1) := Eval(e, st).value;
          var (w, su1) := Eval(e, su).value;
          && v == w && Agree(st1, su1, done + Defines(e))
          && forall x :: Parallel(st, su, st1, su1, x))
  }

  lemma Unmoved(st: State, su: State)
    ensures forall x :: Parallel(st, su, st, su, x)
  {
  }

  lemma {:induction false} EvalTogether(e: Expr, st: State, su: State, done: set<string>)
    requires CallFree(e) && Agree(st, su, Fetches(e, done) + done)
    ensures Together(e, st, su, done)
    decreases e, 1
  {
    hide Operate;
    Unmoved(st, su);
    match e
    case Var(y) =>
      assert y in Fetches(e, done) + done && Look(st, y) == Look(su, y);
    case Binary(_, _, _) => BinaryTogether(e, st, su, done);
    case Assign(Var(y), v) =>
      EvalTogether(v, st, su, done);
      if Eval(e, st).Some? {
        var (st1, su1) := (Eval(v, st).value.1, Eval(v, su).value.1);
        var (st2, su2) := (Eval(e, st).value.1, Eval(e, su).value.1);
        forall x ensures Parallel(st, su, st2, su2, x) { assert Parallel(st, su, st1, su1, x); }
      }
    case _ =>
  }

  /** Two steps of two evaluations side by side. */
  lemma Chained(st: State, su: State, st1: State, su1: State, st2: State, su2: State, done: set<string>)
    requires forall x :: Parallel(st, su, st1, su1, x)
    requires forall x :: Parallel(st1, su1, st2, su2, x)
    requires Agree(st1, su1, done)
    ensures forall x :: Parallel(st, su, st2, su2, x)
    ensures Agree(st2, su2, done)
  {
    forall x ensures Parallel(st, su, st2, su2, x) {
      assert Parallel(st, su, st1, su1, x) && Parallel(st1, su1, st2, su2, x);
    }
    forall x | x in done ensures Look(st2, x) == Look(su2, x) { assert Parallel(st1, su1, st2, su2, x); }
  }

  lemma Onward(st: State, su: State, st1: State, su1: State, start: set<string>, done: set<string>)
    requires forall x :: Parallel(st, su, st1, su1, x)
    requires Agree(st, su, start) && Agree(st1, su1, done)
    ensures Agree(st1, su1, start + done)
  {
    forall x | x in start + done ensures Look(st1, x) == Look(su1, x) { assert Parallel(st, su, st1, su1, x); }
  }

  lemma {:induction false} BinaryTogether(e: Expr, st: State, su: State, done: set<string>)
    requires e.Binary? && CallFree(e) && Agree(st, su, Fetches(e, done) + done)
    ensures Together(e, st, su, done)
    decreases e, 0
  {
    hide Operate, Parallel, Look;
    var done1 := done + Defines(e.lhs);
    EvalTogether(e.lhs, st, su, done);
    if Eval(e.lhs, st).Some? {
      var (st1, su1) := (Eval(e.lhs, st).value.1, Eval(e.lhs, su).value.1);
      Onward(st, su, st1, su1, Fetches(e, done) + done, done1);
      EvalTogether(e.rhs, st1, su1, done1);
      if Eval(e.rhs, st1).Some? {
        Chained(st, su, st1, su1, Eval(e.rhs, st1).value.1, Eval(e.rhs, su1).value.1, done1);
      }
    }
  }

  /** A repeatable expression evaluated again gives the same value and changes
      nothing. */
  lemma EvalAgain(e: Expr, st: State)
    requires Repeatable(e) && Eval(e, st).Some?
    ensures Eval(e, Eval(e, st).value.1) == Eval(e, st)
  {
    hide Eval, Fetches, Assigns, Defines, CallFree;
    var (v, st1) := Eval(e, st).value;
    EvalFrame(e, st);
    forall x | x in Fetches(e, {}) + {} ensures Look(st, x) == Look(st1, x) { assert Kept(st, st1, x); }
    EvalTogether(e, st, st1, {});
    EvalFrame(e, st1);
    var st2 := Eval(e, st1).value.1;
    forall x ensures Look(st2, x) == Look(st1, x) { assert Parallel(st, st1, st1, st2, x); }
    SameLooks(st1, st2);
  }

  lemma SameLooks(st: State, su: State)
    requires forall x :: Look(st, x) == Look(su, x)
    ensures st.vars == su.vars
  {
    forall x ensures x in st.vars <==> x in su.vars { assert Look(st, x) == Look(su, x); }
    forall x | x in st.vars ensures st.vars[x] == su.vars[x] { assert Look(st, x) == Look(su, x); }
  }

  function Tag(st: State): State { st.(rows := Once) }

  function TagValue<T>(r: Option<(T, State)>): Option<(T, State)> {
    if r.None? then None else Some((r.value.0, Tag(r.value.1)))
  }

  function TagOutcome(r: Outcome): Outcome { if r.Done? then r.(st := Tag(r.st)) else r }

  /** Expressions do not depend on how rows are evaluated. */
  lemma {:induction false} EvalTag(e: Expr, st: State)
    ensures Eval(e, Tag(st)) == TagValue(Eval(e, st))
  {
    match e
    case Binary(op, l, r) =>
      EvalTag(l, st);
      if Eval(l, st).Some? { EvalTag(r, Eval(l, st).value.1); }
    case Assign(Var(_), v) => EvalTag(v, st);
    case Call(Var(f), args) => if f == "print_int" && |args| == 1 { EvalTag(args[0], st); }
    case _ =>
  }

  lemma {:induction false} RowTag(es: seq<Expr>, st: State)
    requires forall i :: 0 <= i < |es| ==> Repeatable(es[i])
    ensures EvalRow(es, Tag(st)) == TagValue(EvalRow(es, st))
  {
    hide Eval, Repeatable;
    if es != [] {
      EvalTag(es[0], st);
      if Eval(es[0], st).Some? {
        EvalAgain(es[0], st);
        RowTag(es[1..], Eval(es[0], st).value.1);
      }
    }
  }

  lemma {:induction false} StmtTag(s: Stmt, st: State, fuel: nat)
    requires RowsRepeatable(s)
    ensures Exec(s, Tag(st), fuel) == TagOutcome(Exec(s, st, fuel))
    decreases fuel, s, 1
  {
    hide Eval, Repeatable, Loop, ExecSeq, RowsRepeatableSeq, EvalRow;
    match s
    case Block(ss) => SeqTag(ss, st, fuel);
    case Transaction(_, ss) => SeqTag(ss, st.(out := st.out + [BeganTxn]), fuel);
    case Let(_, _, e) => EvalTag(e, st);
    case If(e, thn, els) =>
      EvalTag(e, st);
      if Eval(e, st).Some? {
        SeqTag(thn, Eval(e, st).value.1, fuel);
        if els.ElseBlock? { SeqTag(els.stmts, Eval(e, st).value.1, fuel); }
      }
    case For(init, _, _, _) =>
      var r := match init case NoStmt => Done(Normal, st) case JustStmt(s0) => Exec(s0, st, fuel);
      if init.JustStmt? { StmtTag(init.s, st, fuel); }
      if r.Done? && r.sig.Normal? { LoopTag(s, r.st, fuel); }
    case Emit(Row(es)) => RowTag(es, st);
    case Insert(_, Row(es)) => RowTag(es, st);
    case ExprStmt(e) => EvalTag(e, st);
    case _ =>
  }

  lemma {:induction false} SeqTag(ss: seq<Stmt>, st: State, fuel: nat)
    requires RowsRepeatableSeq(ss)
    ensures ExecSeq(ss, Tag(st), fuel) == TagOutcome(ExecSeq(ss, st, fuel))
    decreases fuel, ss, 0
  {
    hide Exec, RowsRepeatable;
    if ss != [] {
      StmtTag(ss[0], st, fuel);
      var r := Exec(ss[0], st, fuel);
      if r.Done? && r.sig.Normal? { SeqTag(ss[1..], r.st, fuel); }
    }
  }

  lemma {:induction false} LoopTag(s: Stmt, st: State, fuel: nat)
    requires s.For? && RowsRepeatableSeq(s.body)
    ensures Loop(s, Tag(st), fuel) == TagOutcome(Loop(s, st, fuel))
    decreases fuel, s, 0
  {
    hide Eval, ExecSeq, RowsRepeatableSeq;
    if fuel > 0 {
      if s.test.JustExpr? { EvalTag(s.test.e, st); }
      var t := EvalTest(s.test, st);
      if t.Some? && t.value.0 {
        SeqTag(s.body, t.value.1, fuel - 1);
        var r := ExecSeq(s.body, t.value.1, fuel - 1);
        if r.Done? && !r.sig.Broke? {
          if s.every.JustExpr? { EvalTag(s.every.e, r.st); }
          if EvalEvery(s.every, r.st).Some? { LoopTag(s, EvalEvery(s.every, r.st).value, fuel - 1); }
        }
      }
    }
  }

  // Preservation.

  ghost predicate HaltsAt(p: Program, n: nat, k: Conf) {
    Run(p, Start(), n) == Some(k) && Halted(p, k)
  }

  ghost predicate FaultsAt(p: Program, n: nat, k: Conf) {
    Run(p, Start(), n) == Some(k) && Faulted(p, k)
  }

  ghost predicate Completes(prog: seq<Stmt>, rows: RowMode, fuel: nat) { ExecSeq(prog, Init(rows), fuel).Done? }

  ghost predicate GoesWrong(prog: seq<Stmt>, rows: RowMode, fuel: nat) { ExecSeq(prog, Init(rows), fuel).Stuck? }

  /** The reading of rows that the code follows: twice for all programs, and once
      as well if row elements are repeatable. */
  predicate Admits(prog: seq<Stmt>, rows: RowMode) { rows.Twice? || RowsRepeatableSeq(prog) }

  lemma SameOutcome(prog: seq<Stmt>, rows: RowMode, fuel: nat)
    requires Admits(prog, rows)
    ensures var r, r2 := ExecSeq(prog, Init(rows), fuel), ExecSeq(prog, Init(Twice), fuel);
            r == if rows.Once? then TagOutcome(r2) else r2
  {
    hide ExecSeq, RowsRepeatableSeq;
    if rows.Once? { SeqTag(prog, Init(Twice), fuel); }
  }

  /** The blocks halt exactly when the source program completes. */
  lemma HaltsExactly(prog: seq<Stmt>, rows: RowMode)
    requires Compile(prog).Ok? && WidthsOkSeq(prog) && Admits(prog, rows)
    ensures (exists n: nat, k: Conf :: HaltsAt(Compile(prog).value, n, k)) <==>
            (exists fuel: nat :: Completes(prog, rows, fuel))
  {
    hide ExecSeq, Run, Admits, Compile, WidthsOkSeq, Rel;
    var p := Compile(prog).value;
    if fuel: nat :| Completes(prog, rows, fuel) {
      SameOutcome(prog, rows, fuel);
      var n, k := CompiledRuns(prog, fuel);
      assert HaltsAt(p, n, k);
    }
    if n: nat, k: Conf :| HaltsAt(p, n, k) {
      var m, k1 := CompiledRuns(prog, n + 1);
      RunsEndOnce(p, Start(), n, k, m, k1);
      SameOutcome(prog, rows, n + 1);
      assert Completes(prog, rows, n + 1);
    }
  }

  /** They fault exactly when it goes wrong. */
  lemma FaultsExactly(prog: seq<Stmt>, rows: RowMode)
    requires Compile(prog).Ok? && WidthsOkSeq(prog) && Admits(prog, rows)
    ensures (exists n: nat, k: Conf :: FaultsAt(Compile(prog).value, n, k)) <==>
            (exists fuel: nat :: GoesWrong(prog, rows, fuel))
  {
    hide ExecSeq, Run, Admits, Compile, WidthsOkSeq, Rel;
    var p := Compile(prog).value;
    if fuel: nat :| GoesWrong(prog, rows, fuel) {
      SameOutcome(prog, rows, fuel);
      var n, k := CompiledRuns(prog, fuel);
      assert FaultsAt(p, n, k);
    }
    if n: nat, k: Conf :| FaultsAt(p, n, k) {
      var m, k1 := CompiledRuns(prog, n + 1);
      RunsEndOnce(p, Start(), n, k, m, k1);
      SameOutcome(prog, rows, n + 1);
      assert GoesWrong(prog, rows, n + 1);
    }
  }

  /** Whatever halted run the blocks have shows the source program's events and
      leaves its variables in their slots. */
  lemma SameResult(prog: seq<Stmt>, rows: RowMode, fuel: nat, n: nat, k: Conf)
    requires Compile(prog).Ok? && WidthsOkSeq(prog) && Admits(prog, rows)
    requires Completes(prog, rows, fuel) && HaltsAt(Compile(prog).value, n, k)
    ensures var st := ExecSeq(prog, Init(rows), fuel).st;
            k.out == st.out && Rel(k.mem, k.out, st.(rows := Twice), SlotsOf(prog))
  {
    hide ExecSeq, Run, Admits, Compile, WidthsOkSeq;
    SameOutcome(prog, rows, fuel);
    var m, k1 := CompiledRuns(prog, fuel);
    RunsEndOnce(Compile(prog).value, Start(), n, k, m, k1);
  }

  // A row element with an effect.

  function Increment(): Expr { Assign(Var("x"), Binary(Plus, Var("x"), Num(1))) }

  lemma IncrementMeans(st: State, n: int)
    requires st.vars == map["x" := IntVal(n)] && 0 <= n < 100
    ensures Eval(Increment(), st) == Some((IntVal(n + 1), st.(vars := map["x" := IntVal(n + 1)])))
  {
    assert Eval(Binary(Plus, Var("x"), Num(1)), st) == Some((IntVal(n + 1), st));
    assert st.vars["x" := IntVal(n + 1)] == map["x" := IntVal(n + 1)];
  }

  function CountingRow(): seq<Stmt> { [Let(NoType, "x", Num(0)), Emit(Row([Increment()]))] }

  lemma CountingRowCompiles()
    ensures Compile(CountingRow()).Ok? && WidthsOkSeq(CountingRow())
  {
    hide *;
    CountingRowAnalyzes();
    CountingRowShaped();
    CountingRowNames();
    CompilesExactly(CountingRow());
  }

  lemma CountingRowShaped()
    ensures WidthsOkSeq(CountingRow()) && WellShaped(CountingRow())
  {
    hide WidthsOkSeq, AllocatableSeq, GenerableSeq, JumpsInsideSeq, DefinedSeq;
    CountingRowShapes(Attributes(DefinedSeq(CountingRow())));
  }

  lemma CountingRowSplits()
    ensures CountingRow() == [Let(NoType, "x", Num(0)), Emit(Row([Increment()]))]
    ensures CountingRow()[1..] == [Emit(Row([Increment()]))]
    ensures [Emit(Row([Increment()]))][1..] == [] && [Increment()][1..] == []
  {
  }

  lemma CountingRowShapes(tables: map<bytes, seq<Attr>>)
    ensures WidthsOkSeq(CountingRow()) && AllocatableSeq({}, CountingRow()) && GenerableSeq(tables, CountingRow())
    ensures JumpsInsideSeq(CountingRow(), false)
  {
    CountingRowSplits();
    var m, e, sum := CountingRow()[1], Increment(), Binary(Plus, Var("x"), Num(1));
    assert LowerableExpr(sum) && WidthsOk(m) && WidthsOkSeq([m]);
    assert Typable(sum) && TypeOf(sum) == I64 && Slotted(e) && SlottedAll([e]) && AllocatableSeq({}, [m]);
    assert Generable(sum) && GenerableAll([e]) && GenerableSeq(tables, [m]);
    assert JumpsInsideSeq([m], false);
  }

  lemma CountingRowNames()
    ensures ReadsKnownSeq({}, CountingRow()) && UsedSeq(CountingRow()) <= DeclaredSeq(CountingRow())
  {
    CountingRowSplits();
    var l, m, e, sum := CountingRow()[0], CountingRow()[1], Increment(), Binary(Plus, Var("x"), Num(1));
    assert VarsOf(sum) == {"x"} && VarsOfAll([e]) == {"x"} && UsedSeq([m]) == {"x"};
    assert DeclaredSeq([m]) == {} && TypeVars(sum) == {"x"} && TypeVarsAll([e]) == {"x"};
    assert ReadsKnownSeq({"x"}, [m]);
    assert {} + Declared(l) == {"x"} && {"x"} + DeclaredInside(l) == {"x"};
  }

  lemma CountingRowAnalyzes()
    ensures AnalyzeSeq(NoTypes, CountingRow()).Ok?
  {
    var l, m, e := CountingRow()[0], CountingRow()[1], Increment();
    assert CountingRow()[1..] == [m] && [m][1..] == [] && [e][1..] == [];
    var env := AnalyzeStmt(NoTypes, l).value;
    assert env == TypeEnv(map["x" := IntegerTy], {});
    assert AnalyzeExpr(env, Binary(Plus, Var("x"), Num(1))) == Ok(IntegerTy);
    assert AnalyzeExpr(env, e) == Ok(IntegerTy);
    assert AnalyzeAll(env, [e]).Ok?;
    assert AnalyzeSeq(env, [m]).Ok?;
  }

  ghost predicate HaltsShowing(p: Program, n: nat, k: Conf, out: seq<Event>) { HaltsAt(p, n, k) && k.out == out }

  /** `let x = 0 emit {x = x + 1}` means to emit 1; its blocks halt, and after
      emitting 2 and nothing else. */
  lemma EffectfulRowRunsTwice()
    ensures Completes(CountingRow(), Once, 0) && ExecSeq(CountingRow(), Init(Once), 0).st.out == [Emitted([1])]
    ensures Compile(CountingRow()).Ok?
    ensures exists n: nat, k: Conf :: HaltsShowing(Compile(CountingRow()).value, n, k, [Emitted([2])])
    ensures forall n: nat, k: Conf :: HaltsAt(Compile(CountingRow()).value, n, k) ==> k.out == [Emitted([2])]
  {
    hide ExecSeq, Compile, HaltsAt, WidthsOkSeq;
    EffectfulRow(Once);
    EffectfulRow(Twice);
    CountingRowCompiles();
    var p := Compile(CountingRow()).value;
    HaltsExactly(CountingRow(), Twice);
    assert Completes(CountingRow(), Twice, 0);
    forall n: nat, k: Conf | HaltsAt(p, n, k) ensures HaltsShowing(p, n, k, [Emitted([2])]) {
      SameResult(CountingRow(), Twice, 0, n, k);
    }
    var n: nat, k: Conf :| HaltsAt(p, n, k);
    assert HaltsShowing(p, n, k, [Emitted([2])]);
  }

  lemma EffectfulRow(rows: RowMode)
    ensures var m := if rows.Once? then 1 else 2;
            ExecSeq(CountingRow(), Init(rows), 0) == Done(Normal, State(map["x" := IntVal(m)], [Emitted([m])], rows))
  {
    hide Eval;
    var l, e := CountingRow()[0], CountingRow()[1];
    var m := if rows.Once? then 1 else 2;
    assert CountingRow()[1..] == [e] && [e][1..] == [] && [Increment()][1..] == [];
    var st := State(map["x" := IntVal(0)], [], rows);
    assert Exec(l, Init(rows), 0) == Done(Normal, st) by { LetMeans(rows); }
    IncrementMeans(st, 0);
    var st1 := State(map["x" := IntVal(1)], [], rows);
    IncrementMeans(st1, 1);
    var st2 := State(map["x" := IntVal(m)], [], rows);
    assert EvalElement(Increment(), st) == Some((IntVal(m), st2));
    assert EvalRow([], st2) == Some(([], st2));
    assert [m] + [] == [m];
    assert EvalRow([Increment()], st) == Some(([m], st2));
    assert Exec(e, st, 0) == Done(Normal, st2.(out := [Emitted([m])]));
    assert ExecSeq([e], st, 0) == Exec(e, st, 0);
  }

  lemma LetMeans(rows: RowMode)
    ensures Exec(Let(NoType, "x", Num(0)), Init(rows), 0) == Done(Normal, State(map["x" := IntVal(0)], [], rows))
  {
  }
}
