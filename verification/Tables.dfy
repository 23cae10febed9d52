/** Compiled programs and their tables: the rows a program inserts, wherever it
    does so, are the rows that the byte store holds after the run of its blocks
    and that a scan finds there. */
module Tables {
  import opened Ast
  import opened Int64
  import opened Bytes
  import opened Rows
  import opened ScanRange
  import opened Store
  import opened Values
  import opened Machine
  import opened Semantics
  import opened Lowerable
  import opened Analysis
  import opened Compiler
  import opened Resolution
  import opened Preservation
  import opened Columns
  import opened Engine
  import opened Keys

  /** The insert calls of a run, in order. */
  function Insertions(out: seq<Event>): seq<Insertion> {
    if out == [] then []
    else
      var before, e := Insertions(out[..|out| - 1]), out[|out| - 1];
      if e.Inserted? then before + [Insertion(e.table, e.row)] else before
  }

  lemma InsertionsStep(out: seq<Event>, e: Event)
    ensures Insertions(out + [e]) == Insertions(out) + if e.Inserted? then [Insertion(e.table, e.row)] else []
  {
    assert (out + [e])[..|out|] == out;
  }

  // Buffers.

  /** The buffers sized for the columns `visit` hold what an insert copies for the
      columns `last`: a table may be defined again between the two. */
  predicate Room(visit: seq<Column>, last: seq<Column>) {
    KeysIn(last) <= KeysIn(visit) && |last| - KeysIn(last) <= |visit| - KeysIn(visit)
  }

  /** The bytes of a record go into the buffers exactly if there is room; the spare
      byte of the key buffer is never enough for another column. */
  lemma RoomExactly(op: Insertion, visit: seq<Column>, last: seq<Column>)
    requires |op.row| == |last|
    ensures var r, sizes := RecordOf(AttrsOf(last), op), Eights(|visit|);
            && |r.key| <= |op.table| + 1 + Total(KeyFlags(AttrsOf(visit)), sizes, true) + 1
            && |r.value| <= Total(KeyFlags(AttrsOf(visit)), sizes, false)
            <==> Room(visit, last)
  {
    hide Total, KeyFlags, Eights, EncAll, KeyCols, ValueCols, AttrsOf;
    TotalInts(AttrsOf(visit));
    KeysCounted(visit);
    KeysCounted(last);
  }

  type Definitions = map<bytes, seq<Column>>

  /** One visit of the allocation pass sizes the buffers of an insert. */
  predicate Roomy(tables: Definitions, cat: Definitions, s: Stmt) {
    s.Insert? && NameBytes(s.table) in tables && NameBytes(s.table) in cat ==>
      Room(tables[NameBytes(s.table)], cat[NameBytes(s.table)])
  }

  predicate RoomyInside(tables: Definitions, cat: Definitions, s: Stmt)
    decreases s, 1
  {
    match s
    case Block(ss) => RoomySeq(tables, cat, ss)
    case Transaction(_, ss) => RoomySeq(tables, cat, ss)
    case If(_, thn, els) =>
      RoomySeq(tables, cat, thn) && (els.ElseBlock? ==> RoomySeq(tables + DefinedSeq(thn), cat, els.stmts))
    case For(init, _, _, body) => RoomySeq(tables + (if init.JustStmt? then Defined(init.s) else map[]), cat, body)
    case _ => true
  }

  /** Every insert has room for its row when it runs, whatever was defined since its
      buffers were allocated. */
  predicate RoomySeq(tables: Definitions, cat: Definitions, ss: seq<Stmt>)
    decreases ss, 0
  {
    ss != [] ==>
      && Roomy(tables, cat, ss[0])
      && RoomyInside(tables + Defined(ss[0]), cat, ss[0])
      && RoomySeq(tables + Defined(ss[0]) + DefinedInside(ss[0]), cat, ss[1..])
  }

  // Programs whose inserts fit their tables.

  /** The tables of a program, with their last definitions. */
  function CatalogueOf(prog: seq<Stmt>): Catalogue { Attributes(DefinedSeq(prog)) }

  predicate SmallLiterals(e: Expr) {
    match e
    case Num(n) => IsInt64(n)
    case Binary(_, l, r) => SmallLiterals(l) && SmallLiterals(r)
    case Assign(_, v) => SmallLiterals(v)
    case Call(_, args) => forall i :: 0 <= i < |args| ==> SmallLiterals(args[i])
    case _ => true
  }

  predicate SmallAll(es: seq<Expr>) { forall i :: 0 <= i < |es| ==> SmallLiterals(es[i]) }

  predicate SmallMaybe(e: MaybeExpr) { e.JustExpr? ==> SmallLiterals(e.e) }

  /** Every inserted row has as many elements as its table has columns, table names
      are plain and literals are 64-bit integers. */
  ghost predicate FitsTables(cat: Catalogue, s: Stmt)
    decreases s, 1
  {
    match s
    case Block(ss) => FitsTablesSeq(cat, ss)
    case Transaction(_, ss) => FitsTablesSeq(cat, ss)
    case Let(_, _, e) => SmallLiterals(e)
    case If(e, thn, els) =>
      SmallLiterals(e) && FitsTablesSeq(cat, thn) && (els.ElseBlock? ==> FitsTablesSeq(cat, els.stmts))
    case For(init, test, every, body) =>
      && (init.JustStmt? ==> FitsTables(cat, init.s))
      && SmallMaybe(test) && SmallMaybe(every) && FitsTablesSeq(cat, body)
    case Emit(Row(es)) => SmallAll(es)
    case Insert(t, Row(es)) =>
      SmallAll(es) && NameBytes(t) in cat && |es| == |cat[NameBytes(t)]| && Scannable(NameBytes(t))
    case ExprStmt(e) => SmallLiterals(e)
    case _ => true
  }

  ghost predicate FitsTablesSeq(cat: Catalogue, ss: seq<Stmt>)
    decreases ss, 0
  {
    ss != [] ==> FitsTables(cat, ss[0]) && FitsTablesSeq(cat, ss[1..])
  }

  predicate Small(v: Value) { v.IntVal? ==> IsInt64(v.n) }

  /** Variables hold 64-bit integers and the inserts so far fit their tables. */
  ghost predicate Sane(cat: Catalogue, st: State) {
    (forall x :: x in st.vars ==> Small(st.vars[x])) && ValidHistory(cat, Insertions(st.out))
  }

  lemma OperateSmall(op: BinOp, x: Value, y: Value)
    requires Operate(op, x, y).Some?
    ensures Small(Operate(op, x, y).value)
  {
  }

  lemma {:induction false} EvalSane(cat: Catalogue, e: Expr, st: State)
    requires Sane(cat, st) && SmallLiterals(e) && Eval(e, st).Some?
    ensures Small(Eval(e, st).value.0) && Sane(cat, Eval(e, st).value.1)
  {
    hide Operate, ValidHistory, IsInt64;
    match e
    case Binary(op, l, r) =>
      EvalSane(cat, l, st);
      var (x, st1) := Eval(l, st).value;
      if Eval(r, st1).Some? {
        EvalSane(cat, r, st1);
        if Operate(op, x, Eval(r, st1).value.0).Some? { OperateSmall(op, x, Eval(r, st1).value.0); }
      }
    case Assign(Var(_), v) => EvalSane(cat, v, st);
    case Call(Var(_), args) =>
      EvalSane(cat, args[0], st);
      var (v, st1) := Eval(args[0], st).value;
      InsertionsStep(st1.out, Printed(v.n));
    case _ =>
  }

  lemma ElementSane(cat: Catalogue, e: Expr, st: State)
    requires Sane(cat, st) && SmallLiterals(e) && EvalElement(e, st).Some?
    ensures Small(EvalElement(e, st).value.0) && Sane(cat, EvalElement(e, st).value.1)
  {
    hide Eval, SmallLiterals, Sane, Small;
    EvalSane(cat, e, st);
    if st.rows.Twice? { EvalSane(cat, e, Eval(e, st).value.1); }
  }

  lemma {:induction false} RowSane(cat: Catalogue, es: seq<Expr>, st: State)
    requires Sane(cat, st) && SmallAll(es) && EvalRow(es, st).Some?
    ensures var (ns, st1) := EvalRow(es, st).value; |ns| == |es| && AllInt64(ns) && Sane(cat, st1)
  {
    hide EvalElement, SmallLiterals, Sane, IsInt64;
    if es != [] {
      ElementSane(cat, es[0], st);
      RowSane(cat, es[1..], EvalElement(es[0], st).value.1);
    }
  }

  lemma {:induction false} StmtSane(cat: Catalogue, s: Stmt, st: State, fuel: nat)
    requires Sane(cat, st) && FitsTables(cat, s) && Exec(s, st, fuel).Done?
    ensures Sane(cat, Exec(s, st, fuel).st)
    decreases fuel, s, 1
  {
    hide Eval, EvalRow, ExecSeq, Loop, SmallLiterals, SmallAll, FitsTablesSeq, ValidHistory, Small, NameBytes;
    match s
    case Block(ss) => SeqSane(cat, ss, st, fuel);
    case Transaction(_, ss) =>
      InsertionsStep(st.out, BeganTxn);
      SeqSane(cat, ss, st.(out := st.out + [BeganTxn]), fuel);
      InsertionsStep(ExecSeq(ss, st.(out := st.out + [BeganTxn]), fuel).st.out, Committed);
    case Let(_, _, e) => EvalSane(cat, e, st);
    case If(e, thn, els) =>
      EvalSane(cat, e, st);
      var (v, st1) := Eval(e, st).value;
      if Truth(v).value { SeqSane(cat, thn, st1, fuel); } else if els.ElseBlock? { SeqSane(cat, els.stmts, st1, fuel); }
    case For(init, _, _, _) =>
      if init.JustStmt? { StmtSane(cat, init.s, st, fuel); }
      var r := match init case NoStmt => Done(Normal, st) case JustStmt(s0) => Exec(s0, st, fuel);
      if r.Done? && r.sig.Normal? { LoopSane(cat, s, r.st, fuel); }
    case Emit(Row(es)) =>
      RowSane(cat, es, st);
      InsertionsStep(EvalRow(es, st).value.1.out, Emitted(EvalRow(es, st).value.0));
    case Insert(t, Row(es)) => InsertSane(cat, t, es, st);
    case ExprStmt(e) => EvalSane(cat, e, st);
    case _ =>
  }

  lemma InsertSane(cat: Catalogue, t: string, es: seq<Expr>, st: State)
    requires Sane(cat, st) && EvalRow(es, st).Some?
    requires SmallAll(es) && NameBytes(t) in cat && |es| == |cat[NameBytes(t)]| && Scannable(NameBytes(t))
    ensures var (ns, st1) := EvalRow(es, st).value; Sane(cat, st1.(out := st1.out + [Inserted(NameBytes(t), ns)]))
  {
    hide EvalRow, SmallAll, AllInt64, Scannable;
    RowSane(cat, es, st);
    var (ns, st1) := EvalRow(es, st).value;
    InsertionsStep(st1.out, Inserted(NameBytes(t), ns));
  }

  lemma {:induction false} SeqSane(cat: Catalogue, ss: seq<Stmt>, st: State, fuel: nat)
    requires Sane(cat, st) && FitsTablesSeq(cat, ss) && ExecSeq(ss, st, fuel).Done?
    ensures Sane(cat, ExecSeq(ss, st, fuel).st)
    decreases fuel, ss, 0
  {
    hide Exec, FitsTables, Sane;
    if ss != [] {
      StmtSane(cat, ss[0], st, fuel);
      var r := Exec(ss[0], st, fuel);
      if r.sig.Normal? { SeqSane(cat, ss[1..], r.st, fuel); }
    }
  }

  lemma {:induction false} LoopSane(cat: Catalogue, s: Stmt, st: State, fuel: nat)
    requires s.For? && Sane(cat, st) && SmallMaybe(s.test) && SmallMaybe(s.every) && FitsTablesSeq(cat, s.body)
    requires Loop(s, st, fuel).Done?
    ensures Sane(cat, Loop(s, st, fuel).st)
    decreases fuel, s, 0
  {
    hide Eval, ExecSeq, SmallLiterals, FitsTablesSeq, Sane, Small;
    if s.test.JustExpr? { EvalSane(cat, s.test.e, st); }
    var t := EvalTest(s.test, st).value;
    if t.0 {
      SeqSane(cat, s.body, t.1, fuel - 1);
      var r := ExecSeq(s.body, t.1, fuel - 1);
      if !r.sig.Broke? {
        if s.every.JustExpr? { EvalSane(cat, s.every.e, r.st); }
        LoopSane(cat, s, EvalEvery(s.every, r.st).value, fuel - 1);
      }
    }
  }

  /** After a halted run of a compiled program the byte store holds exactly the rows
      the source program inserted, the first one for each key, and a scan of a table
      that no other name strays into produces exactly that table's rows, each once. */
  lemma RunFillsTables(prog: seq<Stmt>, rows: RowMode, fuel: nat, n: nat, k: Conf)
    requires Compile(prog).Ok? && WidthsOkSeq(prog) && Admits(prog, rows)
    requires FitsTablesSeq(CatalogueOf(prog), prog) && RoomySeq(map[], DefinedSeq(prog), prog)
    requires Completes(prog, rows, fuel) && HaltsAt(Compile(prog).value, n, k)
    ensures AllocSeq(Entry(), prog).value.tables == CatalogueOf(prog)
    ensures var cat, ops := CatalogueOf(prog), Insertions(ExecSeq(prog, Init(rows), fuel).st.out);
            && Insertions(k.out) == ops && ValidHistory(cat, ops)
            && Refines(cat, StoreAfter(cat, Insertions(k.out)), RowsAfter(cat, ops))
            && forall t :: t in cat && Scannable(t) && Undisturbed(cat, t) ==> Shows(cat, ops, t)
  {
    hide ExecSeq, Compile, WidthsOkSeq, Admits, FitsTablesSeq, HaltsAt, ValidHistory, Refines, Undisturbed, Shows,
         CatalogueOf, AllocSeq;
    var cat := CatalogueOf(prog);
    CompiledTables(prog);
    SameResult(prog, rows, fuel, n, k);
    StartsSane(cat, rows);
    SeqSane(cat, prog, Init(rows), fuel);
    var ops := Insertions(ExecSeq(prog, Init(rows), fuel).st.out);
    HistoryRefines(cat, ops);
    forall t | t in cat && Scannable(t) && Undisturbed(cat, t) ensures Shows(cat, ops, t) { TableShows(cat, ops, t); }
  }

  /** After a halted run of a compiled program the store holds the record of a row
      exactly if some insert of that row was the first into its table with these
      elements in the columns written with `key`. */
  lemma RunKeepsFirst(prog: seq<Stmt>, rows: RowMode, fuel: nat, n: nat, k: Conf, op: Insertion)
    requires Compile(prog).Ok? && WidthsOkSeq(prog) && Admits(prog, rows)
    requires FitsTablesSeq(CatalogueOf(prog), prog) && RoomySeq(map[], DefinedSeq(prog), prog)
    requires Completes(prog, rows, fuel) && HaltsAt(Compile(prog).value, n, k)
    requires ValidInsertion(CatalogueOf(prog), op)
    ensures ValidHistory(CatalogueOf(prog), Insertions(k.out))
    ensures var ops := Insertions(ExecSeq(prog, Init(rows), fuel).st.out);
            RecordIn(CatalogueOf(prog), op) in StoreAfter(CatalogueOf(prog), Insertions(k.out)) <==>
            exists i :: 0 <= i < |ops| && ops[i] == op && !ClashesBefore(DefinedSeq(prog), ops, i, op)
  {
    hide ExecSeq, Compile, WidthsOkSeq, Admits, FitsTablesSeq, RoomySeq, HaltsAt, ValidHistory, Refines, Undisturbed,
         Shows, AllocSeq, DefinedSeq, AttrsOf, RecordIn, ClashesBefore, StoreAfter, ValidInsertion;
    RunFillsTables(prog, rows, fuel, n, k);
    FirstStays(CatalogueOf(prog), DefinedSeq(prog), Insertions(k.out), op);
  }

  /** The program's last definitions are the tables of the compiled program. */
  lemma CompiledTables(prog: seq<Stmt>)
    requires Compile(prog).Ok?
    ensures AllocSeq(Entry(), prog).Ok? && AllocSeq(Entry(), prog).value.tables == CatalogueOf(prog)
  {
    hide AllocSeq, AnalyzeSeq, DefinedSeq, Attributes;
    AllocSeqTables(Entry(), prog);
    assert map[] + CatalogueOf(prog) == CatalogueOf(prog);
  }

  /** A scan of `t` produces exactly the rows of `t`, each once. */
  ghost predicate Shows(cat: Catalogue, ops: seq<Insertion>, t: bytes)
    requires ValidHistory(cat, ops) && t in cat && Scannable(t) && Undisturbed(cat, t)
  {
    && (forall row :: row in ScanAfter(cat, ops, t) <==>
          exists id :: id in RowsAfter(cat, ops) && id.0 == t && RowsAfter(cat, ops)[id] == row)
    && (forall i, j :: 0 <= i < j < |ScanAfter(cat, ops, t)| ==> ScanAfter(cat, ops, t)[i] != ScanAfter(cat, ops, t)[j])
  }

  lemma TableShows(cat: Catalogue, ops: seq<Insertion>, t: bytes)
    requires ValidHistory(cat, ops) && t in cat && Scannable(t) && Undisturbed(cat, t)
    ensures Shows(cat, ops, t)
  {
    hide ScanAfter, RowsAfter, ValidHistory, Undisturbed;
    ScanIsTable(cat, ops, t);
  }

  lemma StartsSane(cat: Catalogue, rows: RowMode)
    ensures Sane(cat, Init(rows))
  {
  }

  // A table defined again.

  function KeyColumn(x: string): Column { Column("int", NoParam, x, Props(true, false, false)) }

  function Narrow(): Stmt { Define(JustType(TupleType([KeyColumn("a")])), "t") }

  function Wide(): Stmt { Define(JustType(TupleType([KeyColumn("a"), KeyColumn("b")])), "t") }

  function Pair(): Stmt { Insert("t", Row([Num(1), Num(2)])) }

  /** `define <{int: a key}> t insert t {1, 2} define <{int: a key, int: b key}> t`. */
  function Redefined(): seq<Stmt> { [Narrow(), Pair(), Wide()] }

  lemma RedefinedSplits()
    ensures Redefined()[1..] == [Pair(), Wide()] && Redefined()[1..][1..] == [Wide()] && [Wide()][1..] == []
    ensures [Num(1), Num(2)][1..] == [Num(2)] && [Num(2)][1..] == []
    ensures IntTable(Narrow().schema) && IntTable(Wide().schema)
  {
  }

  function LastColumns(): seq<Column> { [KeyColumn("a"), KeyColumn("b")] }

  lemma RedefinedTables()
    ensures Defined(Narrow()) == map[NameBytes("t") := [KeyColumn("a")]] && DefinedInside(Narrow()) == map[]
    ensures Defined(Pair()) == map[] && DefinedInside(Pair()) == map[]
    ensures DefinedSeq(Redefined()) == map[NameBytes("t") := LastColumns()]
    ensures NameBytes("t") in CatalogueOf(Redefined()) && |CatalogueOf(Redefined())[NameBytes("t")]| == 2
  {
    hide NameBytes;
    RedefinedSplits();
    assert DefinedSeq([]) == map[] && DefinedSeq([Wide()]) == map[NameBytes("t") := LastColumns()];
    assert DefinedSeq([Pair(), Wide()]) == map[NameBytes("t") := LastColumns()];
  }

  lemma RedefinedAnalyzes()
    ensures AnalyzeSeq(NoTypes, Redefined()).Ok?
  {
    RedefinedSplits();
    var env := TypeEnv(map[], {"t"});
    assert {} + {"t"} == {"t"} && {"t"} + {"t"} == {"t"};
    assert AnalyzeStmt(NoTypes, Narrow()) == Ok(env) && AnalyzeStmt(env, Wide()) == Ok(env);
    assert AnalyzeAll(env, [Num(2)]).Ok? && AnalyzeAll(env, [Num(1), Num(2)]).Ok?;
    assert AnalyzeStmt(env, Pair()) == Ok(env);
    assert AnalyzeSeq(env, []).Ok? && AnalyzeSeq(env, [Wide()]).Ok? && AnalyzeSeq(env, [Pair(), Wide()]).Ok?;
  }

  lemma PairShapes(tables: Catalogue)
    requires NameBytes("t") in tables && |tables[NameBytes("t")]| == 2
    ensures WidthsOk(Pair()) && GenerableStmt(tables, Pair()) && FitsTables(tables, Pair())
            && JumpsInside(Pair(), false)
    ensures Allocatable({NameBytes("t")}, Pair()) && ReadsKnown({}, Pair()) && Used(Pair()) == {}
  {
    var es := [Num(1), Num(2)];
    RedefinedSplits();
    assert Slotted(Num(1)) && Slotted(Num(2)) && SlottedAll([Num(2)]) && SlottedAll(es);
    assert GenerableAll([Num(2)]) && GenerableAll(es);
    assert TypeVarsAll([Num(2)]) == {} && TypeVarsAll(es) == {} && VarsOfAll([Num(2)]) == {} && VarsOfAll(es) == {};
  }

  lemma RedefinedShapes(tables: Catalogue)
    requires NameBytes("t") in tables && |tables[NameBytes("t")]| == 2
    ensures WidthsOkSeq(Redefined()) && GenerableSeq(tables, Redefined()) && FitsTablesSeq(tables, Redefined())
    ensures JumpsInsideSeq(Redefined(), false) && UsedSeq(Redefined()) == {}
  {
    hide NameBytes;
    RedefinedSplits();
    PairShapes(tables);
    assert WidthsOkSeq([]) && GenerableSeq(tables, []) && FitsTablesSeq(tables, []) && JumpsInsideSeq([], false)
           && UsedSeq([]) == {};
    var rest := [Wide()];
    assert WidthsOkSeq(rest) && GenerableSeq(tables, rest) && FitsTablesSeq(tables, rest)
           && JumpsInsideSeq(rest, false);
    assert UsedSeq(rest) == {};
    var rest1 := [Pair(), Wide()];
    assert WidthsOkSeq(rest1) && GenerableSeq(tables, rest1) && FitsTablesSeq(tables, rest1)
           && JumpsInsideSeq(rest1, false);
    assert UsedSeq(rest1) == {};
  }

  lemma RedefinedAllocates()
    ensures AllocatableSeq({}, Redefined())
  {
    hide NameBytes;
    RedefinedSplits();
    RedefinedTables();
    PairShapes(CatalogueOf(Redefined()));
    var t := {NameBytes("t")};
    assert {} + Defined(Narrow()).Keys == t && t + DefinedInside(Narrow()).Keys == t;
    assert t + Defined(Pair()).Keys == t && t + DefinedInside(Pair()).Keys == t;
    assert AllocatableSeq(t + Defined(Wide()).Keys + DefinedInside(Wide()).Keys, []);
    assert AllocatableSeq(t, [Wide()]) && AllocatableSeq(t, [Pair(), Wide()]);
  }

  lemma RedefinedReads()
    ensures ReadsKnownSeq({}, Redefined())
  {
    hide NameBytes;
    RedefinedSplits();
    RedefinedTables();
    PairShapes(CatalogueOf(Redefined()));
    assert {} + Declared(Narrow()) + DeclaredInside(Narrow()) == {};
    assert {} + Declared(Pair()) + DeclaredInside(Pair()) == {};
    assert ReadsKnownSeq({} + Declared(Wide()) + DeclaredInside(Wide()), []);
    assert ReadsKnownSeq({}, [Wide()]) && ReadsKnownSeq({}, [Pair(), Wide()]);
  }

  lemma RedefinedLacksRoom()
    ensures !RoomySeq(map[], DefinedSeq(Redefined()), Redefined())
  {
    hide NameBytes;
    RedefinedSplits();
    RedefinedTables();
    var tables := map[] + Defined(Narrow()) + DefinedInside(Narrow());
    assert tables == map[NameBytes("t") := [KeyColumn("a")]];
    CountsKeys();
    assert !Roomy(tables, DefinedSeq(Redefined()), Pair());
    assert !RoomySeq(tables, DefinedSeq(Redefined()), [Pair(), Wide()]);
  }

  lemma CountsKeys()
    ensures KeysIn([KeyColumn("a")]) == 1 && KeysIn(LastColumns()) == 2
  {
    var one, two := [KeyColumn("a")], LastColumns();
    assert one[1..] == [] && two[1..] == [KeyColumn("b")] && two[1..][1..] == [] && KeysIn(two[1..]) == 1;
  }

  /** The program compiles, its row fits the last definition, and its insert copies two
      key columns into a buffer for one. */
  lemma RedefinedOverflows()
    ensures Compile(Redefined()).Ok? && WidthsOkSeq(Redefined())
    ensures FitsTablesSeq(CatalogueOf(Redefined()), Redefined())
            && !RoomySeq(map[], DefinedSeq(Redefined()), Redefined())
  {
    hide AnalyzeSeq, WidthsOkSeq, GenerableSeq, FitsTablesSeq, JumpsInsideSeq, UsedSeq, AllocatableSeq, ReadsKnownSeq,
         RoomySeq, DefinedSeq, DeclaredSeq, Redefined, NameBytes, Compile, Attributes;
    RedefinedAnalyzes();
    RedefinedTables();
    RedefinedShapes(CatalogueOf(Redefined()));
    RedefinedAllocates();
    RedefinedReads();
    RedefinedLacksRoom();
    CompilesExactly(Redefined());
  }
}
