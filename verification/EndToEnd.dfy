/** From source text to the events of a run. */
module EndToEnd {
  import opened Ast
  import opened Machine
  import opened Semantics
  import Lexer
  import Layout
  import Grammar
  import opened Printer
  import opened StmtPrinter
  import opened RunOn
  import opened SourceText
  import opened Lowerable
  import opened Compiler
  import opened Preservation
  import Limits
  import Tables

  /** Tokenize, parse, compile; `None` if the parser does not stop. */
  function CompileText(text: string): Option<Result<Program>> {
    match Lexer.Lex(text)
    case Err(e) => Some(Err(e))
    case Ok(ts) =>
      match Grammar.ParseProgram(ts)
      case Parsed(prog) => Some(Compile(prog))
      case Failed(e) => Some(Err(e))
      case Diverges => None
  }

  /** The text of a program compiles as the program does. If the values in it have
      sound widths, a run of the blocks halts exactly when the program completes,
      with the same events, and faults exactly when it goes wrong. */
  lemma TextMeansProgram(prog: seq<Stmt>, gaps: seq<string>, rows: RowMode)
    requires PrintableStmts(prog) && SeparateAll(prog) && Layout.ValidLayout(gaps, PrintStmts(prog))
    ensures CompileText(Layout.Render(gaps, PrintStmts(prog))) == Some(Compile(prog))
    ensures Compile(prog).Ok? && WidthsOkSeq(prog) && Admits(prog, rows) ==>
              var p := Compile(prog).value;
              && ((exists n: nat, k: Conf :: HaltsAt(p, n, k)) <==> (exists fuel: nat :: Completes(prog, rows, fuel)))
              && ((exists n: nat, k: Conf :: FaultsAt(p, n, k)) <==> (exists fuel: nat :: GoesWrong(prog, rows, fuel)))
              && forall n: nat, k: Conf, fuel: nat :: HaltsAt(p, n, k) && Completes(prog, rows, fuel) ==>
                   k.out == ExecSeq(prog, Init(rows), fuel).st.out
  {
    hide PrintableStmts, SeparateAll, PrintStmts, Compile, WidthsOkSeq, Lexer.Lex, Grammar.ParseProgram,
         Layout.Render, Layout.ValidLayout, HaltsAt, FaultsAt, GoesWrong, ExecSeq, Admits;
    LayoutLength(gaps, PrintStmts(prog));
    SourceRoundTrip(prog, gaps);
    if Compile(prog).Ok? && WidthsOkSeq(prog) && Admits(prog, rows) {
      HaltsExactly(prog, rows);
      FaultsExactly(prog, rows);
      var p := Compile(prog).value;
      forall n: nat, k: Conf, fuel: nat | HaltsAt(p, n, k) && Completes(prog, rows, fuel)
        ensures k.out == ExecSeq(prog, Init(rows), fuel).st.out
      {
        SameResult(prog, rows, fuel, n, k);
      }
    }
  }

  /** The parser gives this program for the text of its tokens. */
  ghost predicate Delivered(prog: seq<Stmt>) {
    PrintableStmts(prog) && Grammar.ParseProgram(PrintStmts(prog)) == Grammar.Parsed(prog)
  }

  lemma SeparateIsDelivered(prog: seq<Stmt>)
    requires PrintableStmts(prog) && SeparateAll(prog)
    ensures Delivered(prog)
  {
    ProgramRoundTrip(prog);
  }

  lemma LoopIsDelivered(s: Stmt)
    requires s.For? && PrintableStmt(s) && Separate(s)
    ensures Delivered([s])
  {
    hide PrintableStmt, Separate;
    assert [s][1..] == [];
    assert PrintableStmts([]) && SeparateAll([]);
    SeparateIsDelivered([s]);
  }

  lemma NestedIsDelivered(inner: Stmt)
    requires PrintableStmt(inner) && Separate(inner)
    ensures Delivered(Limits.NestedInit(inner))
  {
    var prog := Limits.NestedInit(inner);
    assert [inner][1..] == [] && PrintableStmts([]) && SeparateAll([]);
    assert PrintableStmts([inner]) && SeparateAll([inner]);
    assert PrintableStmt(Block([inner])) && Separate(Block([inner]));
    assert Printable(Limits.LessTest());
    LoopIsDelivered(prog[0]);
  }

  lemma DeadCondIsDelivered()
    ensures Delivered(Limits.DeadCond())
  {
    var body, e := Limits.BehindBreak(), Limits.BothOnes();
    assert body[1..] == [ExprStmt(e)] && body[1..][1..] == [] && PrintableStmts([]) && SeparateAll([]);
    assert Printable(e) && PrintableStmts(body[1..]) && SeparateAll(body[1..]);
    assert PrintableStmts(body) && SeparateAll(body);
    assert Printable(Limits.LessTest());
    LoopIsDelivered(Limits.DeadCond()[0]);
  }

  lemma HeadlessIsDelivered()
    ensures Delivered([Limits.Headless()])
  {
    var body := [Jump(BreakJump)];
    assert body[1..] == [] && PrintableStmts([]) && SeparateAll([]);
    assert PrintableStmts(body) && SeparateAll(body);
    LoopIsDelivered(Limits.Headless());
  }

  lemma TakenNameIsDelivered()
    ensures Delivered(Limits.TakenName())
  {
    var prog := Limits.TakenName();
    var d, s := prog[0], prog[1];
    assert prog[1..] == [s] && [s][1..] == [] && PrintableStmts([]) && SeparateAll([]);
    assert Printable(s.value) && PrintableStmt(d);
    assert PrintableStmts([s]) && SeparateAll([s]);
    SeparateIsDelivered(prog);
  }

  lemma RedefinedIsDelivered()
    ensures Delivered(Tables.Redefined())
  {
    var d, s, w := Tables.Narrow(), Tables.Pair(), Tables.Wide();
    Tables.RedefinedSplits();
    assert PrintableAll([]) && PrintableAll([Num(2)]) && PrintableAll([Num(1), Num(2)]) && PrintableStmts([])
           && SeparateAll([]);
    assert w.schema.t.columns[1..] == [Tables.KeyColumn("b")] && PrintableColumns([Tables.KeyColumn("b")]);
    assert PrintableStmt(d) && PrintableStmt(w) && PrintableStmt(s);
    assert PrintableStmts([w]) && SeparateAll([w]) && PrintableStmts([s, w]) && SeparateAll([s, w]);
    SeparateIsDelivered(Tables.Redefined());
  }

  /** The programs on which the passes disagree can all be written as text. */
  lemma LimitsAreDelivered()
    ensures Delivered([Limits.Headless()]) && Delivered(Limits.DeadCond())
    ensures Delivered(Limits.NestedInit(Let(NoType, "i", Num(0)))) && Delivered(Limits.NestedInit(Emit(Row([Num(1)]))))
    ensures Delivered(Limits.TakenName()) && Delivered(Tables.Redefined())
  {
    hide Delivered;
    HeadlessIsDelivered();
    DeadCondIsDelivered();
    NestedIsDelivered(Let(NoType, "i", Num(0)));
    assert [Num(1)][1..] == [] && PrintableAll([]) && PrintableAll([Num(1)]);
    NestedIsDelivered(Emit(Row([Num(1)])));
    TakenNameIsDelivered();
    RedefinedIsDelivered();
  }
}
