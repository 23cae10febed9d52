/** Which names the passes look up, and exactly when they find them. Analysis,
    allocation and generation walk the program differently; the sets below say
    in the program's own terms what each walk reads and what allocation
    declares. */
module Resolution {
  import opened Ast
  import opened Bytes
  import opened Rows
  import opened Machine
  import opened Codegen
  import opened Analysis
  import opened Compiler

  const UNRESOLVED: string := "value not defined"

  // What each pass looks up.

  /** The variables whose slots decide the type of an expression. */
  function TypeVars(e: Expr): set<string> {
    match e
    case Var(x) => {x}
    case Binary(_, l, r) => TypeVars(r) + TypeVars(l)
    case Assign(_, v) => TypeVars(v)
    case _ => {}
  }

  /** The variables asked for below an expression statement. */
  function NestedVars(e: Expr): set<string> {
    match e
    case Var(x) => {x}
    case Assign(_, v) => TypeVars(v) + NestedVars(v)
    case Call(_, args) => NestedVarsAll(args)
    case _ => {}
  }

  function NestedVarsAll(es: seq<Expr>): set<string> {
    if es == [] then {} else TypeVars(es[0]) + NestedVars(es[0]) + NestedVarsAll(es[1..])
  }

  function TypeVarsAll(es: seq<Expr>): set<string> {
    if es == [] then {} else TypeVars(es[0]) + TypeVarsAll(es[1..])
  }

  /** The names one visit of the allocation pass declares. */
  function Declared(s: Stmt): set<string> {
    match s
    case Let(_, x, _) => {x}
    case For(init, _, _, _) => if init.JustStmt? then Declared(init.s) else {}
    case _ => {}
  }

  /** The names declared at the statements inside. */
  function DeclaredInside(s: Stmt): set<string>
    decreases s, 1
  {
    match s
    case Block(ss) => DeclaredSeq(ss)
    case Transaction(_, ss) => DeclaredSeq(ss)
    case If(_, thn, els) => DeclaredSeq(thn) + if els.ElseBlock? then DeclaredSeq(els.stmts) else {}
    case For(init, _, _, body) => (if init.JustStmt? then Declared(init.s) else {}) + DeclaredSeq(body)
    case _ => {}
  }

  function DeclaredSeq(ss: seq<Stmt>): set<string>
    decreases ss, 0
  {
    if ss == [] then {} else Declared(ss[0]) + DeclaredInside(ss[0]) + DeclaredSeq(ss[1..])
  }

  /** The tables one visit defines, with their columns as written, and the tables
      defined inside; the last definition counts. */
  function Defined(s: Stmt): map<bytes, seq<Column>> {
    match s
    case Define(t, name) => if TableOfIntegers(t) then map[NameBytes(name) := t.t.columns] else map[]
    case For(init, _, _, _) => if init.JustStmt? then Defined(init.s) else map[]
    case _ => map[]
  }

  function DefinedInside(s: Stmt): map<bytes, seq<Column>>
    decreases s, 1
  {
    match s
    case Block(ss) => DefinedSeq(ss)
    case Transaction(_, ss) => DefinedSeq(ss)
    case If(_, thn, els) => DefinedSeq(thn) + if els.ElseBlock? then DefinedSeq(els.stmts) else map[]
    case For(init, _, _, body) => (if init.JustStmt? then Defined(init.s) else map[]) + DefinedSeq(body)
    case _ => map[]
  }

  function DefinedSeq(ss: seq<Stmt>): map<bytes, seq<Column>>
    decreases ss, 0
  {
    if ss == [] then map[] else Defined(ss[0]) + DefinedInside(ss[0]) + DefinedSeq(ss[1..])
  }

  /** What the columns of tables are to the store. */
  function Attributes(tables: map<bytes, seq<Column>>): map<bytes, seq<Attr>> {
    map t | t in tables :: AttrsOf(tables[t])
  }

  /** Whether one visit of the allocation pass finds all it reads among `names`. */
  predicate ReadsKnown(names: set<string>, s: Stmt) {
    match s
    case Let(_, _, e) => TypeVars(e) <= names
    case For(init, _, _, _) => init.JustStmt? ==> ReadsKnown(names, init.s)
    case Emit(Row(es)) => TypeVarsAll(es) <= names
    case Insert(_, Row(es)) => TypeVarsAll(es) <= names
    case ExprStmt(e) => TypeVars(e) + NestedVars(e) <= names
    case _ => true
  }

  predicate ReadsKnownInside(names: set<string>, s: Stmt)
    decreases s, 1
  {
    match s
    case Block(ss) => ReadsKnownSeq(names, ss)
    case Transaction(_, ss) => ReadsKnownSeq(names, ss)
    case If(_, thn, els) =>
      ReadsKnownSeq(names, thn) && (els.ElseBlock? ==> ReadsKnownSeq(names + DeclaredSeq(thn), els.stmts))
    case For(init, _, _, body) =>
      && (init.JustStmt? ==> ReadsKnown(names, init.s))
      && ReadsKnownSeq(names + (if init.JustStmt? then Declared(init.s) else {}), body)
    case _ => true
  }

  /** Every name that a visited statement reads was declared at an earlier visit. */
  predicate ReadsKnownSeq(names: set<string>, ss: seq<Stmt>)
    decreases ss, 0
  {
    ss != [] ==>
      && ReadsKnown(names, ss[0])
      && ReadsKnownInside(names + Declared(ss[0]), ss[0])
      && ReadsKnownSeq(names + Declared(ss[0]) + DeclaredInside(ss[0]), ss[1..])
  }

  // What each pass can handle, apart from names.

  /** A table whose columns are integers or dates and never null. */
  predicate TableOfIntegers(t: MaybeType) {
    && t.JustType? && t.t.TupleType?
    && forall i :: 0 <= i < |t.t.columns| ==>
         t.t.columns[i].typeName in {"int", "integer", "date"} && !t.t.columns[i].props.nullable
  }

  /** How many emits and inserts a statement contains. */
  function BuffersNeeded(s: Stmt): nat
    decreases s, 1
  {
    match s
    case Block(ss) => BuffersNeededSeq(ss)
    case Transaction(_, ss) => BuffersNeededSeq(ss)
    case If(_, thn, els) => BuffersNeededSeq(thn) + if els.ElseBlock? then BuffersNeededSeq(els.stmts) else 0
    case For(init, _, _, body) => (if init.JustStmt? then BuffersNeeded(init.s) else 0) + BuffersNeededSeq(body)
    case Emit(_) => 1
    case Insert(_, _) => 1
    case _ => 0
  }

  function BuffersNeededSeq(ss: seq<Stmt>): nat
    decreases ss, 0
  {
    if ss == [] then 0 else BuffersNeeded(ss[0]) + BuffersNeededSeq(ss[1..])
  }

  /** How many of them have a buffer after the one visit of an initializer. */
  function BuffersMade(s: Stmt): nat {
    match s
    case Emit(_) => 1
    case For(init, _, _, _) => if init.JustStmt? then BuffersMade(init.s) else 0
    case _ => 0
  }

  /** How many inserts one visit reaches; a second visit of an insert is an error. */
  function InsertVisits(s: Stmt): nat {
    match s
    case Insert(_, _) => 1
    case For(init, _, _, _) => if init.JustStmt? then InsertVisits(init.s) else 0
    case _ => 0
  }

  /** The type an expression reports once its variables are found. */
  function TypeOf(e: Expr): SlotType {
    match e
    case Binary(_, _, r) => TypeOf(r)
    case Assign(_, v) => TypeOf(v)
    case Call(_, _) => VoidType
    case _ => I64
  }

  predicate PrintCallee(f: Expr) { f.Var? && f.name == "print_int" }

  /** Calls are calls of `print_int`, and no operator mixes one with a value. */
  predicate Typable(e: Expr) {
    match e
    case Num(_) => true
    case Var(_) => true
    case Binary(_, l, r) => Typable(l) && Typable(r) && TypeOf(l) == TypeOf(r)
    case Assign(_, v) => Typable(v)
    case Call(f, _) => PrintCallee(f)
    case _ => false
  }

  predicate NestedTypable(e: Expr) {
    match e
    case Assign(_, v) => Typable(v) && NestedTypable(v)
    case Call(_, args) => NestedTypableAll(args)
    case _ => true
  }

  predicate NestedTypableAll(es: seq<Expr>) {
    es != [] ==> Typable(es[0]) && NestedTypable(es[0]) && NestedTypableAll(es[1..])
  }

  /** The expression can be given a slot. */
  predicate Slotted(e: Expr) { Typable(e) && TypeOf(e).I64? }

  predicate SlottedAll(es: seq<Expr>) { es != [] ==> Slotted(es[0]) && SlottedAll(es[1..]) }

  /** Whether one visit of the allocation pass can type its expressions and knows its
      table, apart from variables. */
  predicate Allocatable(tables: set<bytes>, s: Stmt) {
    match s
    case Let(_, _, e) => Slotted(e)
    case For(init, _, _, _) => init.JustStmt? ==> Allocatable(tables, init.s)
    case Emit(Row(es)) => SlottedAll(es)
    case Insert(t, Row(es)) => NameBytes(t) in tables && SlottedAll(es)
    case Define(t, _) => TableOfIntegers(t)
    case ExprStmt(e) => Typable(e) && NestedTypable(e)
    case _ => s.Block? || s.Transaction? || s.If? || s.Jump?
  }

  predicate AllocatableInside(tables: set<bytes>, s: Stmt)
    decreases s, 1
  {
    match s
    case Block(ss) => AllocatableSeq(tables, ss)
    case Transaction(_, ss) => AllocatableSeq(tables, ss)
    case If(_, thn, els) =>
      AllocatableSeq(tables, thn) && (els.ElseBlock? ==> AllocatableSeq(tables + DefinedSeq(thn).Keys, els.stmts))
    case For(init, _, _, body) =>
      && (init.JustStmt? ==> InsertVisits(init.s) == 0 && Allocatable(tables, init.s))
      && AllocatableSeq(tables + (if init.JustStmt? then Defined(init.s).Keys else {}), body)
    case _ => true
  }

  /** Every table that a visited insert names was defined at an earlier visit. */
  predicate AllocatableSeq(tables: set<bytes>, ss: seq<Stmt>)
    decreases ss, 0
  {
    ss != [] ==>
      && Allocatable(tables, ss[0])
      && AllocatableInside(tables + Defined(ss[0]).Keys, ss[0])
      && AllocatableSeq(tables + Defined(ss[0]).Keys + DefinedInside(ss[0]).Keys, ss[1..])
  }

  /** Assignments go to variables, calls print one value that is not a call. */
  predicate Generable(e: Expr) {
    match e
    case Num(_) => true
    case Var(_) => true
    case Binary(_, l, r) => Generable(l) && Generable(r)
    case Assign(t, v) => t.Var? && Generable(v)
    case Call(f, args) => PrintCallee(f) && |args| == 1 && Generable(args[0]) && !args[0].Call?
    case _ => false
  }

  predicate GenerableAll(es: seq<Expr>) { es != [] ==> Generable(es[0]) && GenerableAll(es[1..]) }

  predicate GenerableMaybe(e: MaybeExpr) { e.JustExpr? ==> Generable(e.e) }

  /** Stored, emitted and inserted values have slots, inserted rows have no more
      elements than their table has columns, and no initializer lacks buffers. */
  predicate GenerableStmt(tables: map<bytes, seq<Attr>>, s: Stmt)
    decreases s, 1
  {
    match s
    case Block(ss) => GenerableSeq(tables, ss)
    case Transaction(_, ss) => GenerableSeq(tables, ss)
    case Let(_, _, e) => Generable(e) && Slotted(e)
    case If(e, thn, els) =>
      Generable(e) && GenerableSeq(tables, thn) && (els.ElseBlock? ==> GenerableSeq(tables, els.stmts))
    case For(init, test, every, body) =>
      && (init.JustStmt? ==> BuffersMade(init.s) == BuffersNeeded(init.s) && GenerableStmt(tables, init.s))
      && GenerableMaybe(test) && GenerableMaybe(every) && GenerableSeq(tables, body)
    case Jump(_) => true
    case Emit(Row(es)) => GenerableAll(es) && SlottedAll(es)
    case Insert(t, Row(es)) =>
      && NameBytes(t) in tables && |es| <= |tables[NameBytes(t)]|
      && GenerableAll(es) && SlottedAll(es)
    case Define(_, _) => true
    case ExprStmt(e) => Generable(e)
    case _ => false
  }

  predicate GenerableSeq(tables: map<bytes, seq<Attr>>, ss: seq<Stmt>)
    decreases ss, 0
  {
    ss != [] ==> GenerableStmt(tables, ss[0]) && GenerableSeq(tables, ss[1..])
  }

  // The predicates of the passes.

  lemma TablesExact(t: MaybeType)
    ensures IntTable(t) <==> TableOfIntegers(t)
  {
    if t.JustType? && t.t.TupleType? {
      var cols := t.t.columns;
      assert forall i :: 0 <= i < |cols| ==>
        (IntColumn(cols[i]) <==> cols[i].typeName in {"int", "integer", "date"} && !cols[i].props.nullable);
    }
  }

  lemma {:induction false} NeedsExactly(s: Stmt)
    ensures NeedsBuffers(s) <==> BuffersNeeded(s) > 0
    decreases s, 1
  {
    match s
    case Block(ss) => NeedsExactlySeq(ss);
    case Transaction(_, ss) => NeedsExactlySeq(ss);
    case If(_, thn, els) => NeedsExactlySeq(thn); if els.ElseBlock? { NeedsExactlySeq(els.stmts); }
    case For(init, _, _, body) => if init.JustStmt? { NeedsExactly(init.s); } NeedsExactlySeq(body);
    case _ =>
  }

  lemma {:induction false} NeedsExactlySeq(ss: seq<Stmt>)
    ensures NeedsBuffersSeq(ss) <==> BuffersNeededSeq(ss) > 0
    decreases ss, 0
  {
    if ss != [] { NeedsExactly(ss[0]); NeedsExactlySeq(ss[1..]); }
  }

  /** An initializer is rejected exactly if it needs more buffers than its visit
      makes. */
  lemma {:induction false} UnbufferedExactly(s: Stmt)
    ensures BuffersMade(s) <= BuffersNeeded(s)
    ensures Unbuffered(s) <==> BuffersMade(s) < BuffersNeeded(s)
  {
    NeedsExactly(s);
    match s
    case For(init, _, _, body) => if init.JustStmt? { UnbufferedExactly(init.s); } NeedsExactlySeq(body);
    case _ =>
  }

  lemma {:induction false} ReinsertsExactly(s: Stmt)
    ensures Reinserts(s) <==> InsertVisits(s) > 0
  {
    if s.For? && s.init.JustStmt? { ReinsertsExactly(s.init.s); }
  }

  // Types.

  lemma {:induction false} TypeExactly(vars: map<string, nat>, e: Expr)
    ensures GetType(vars, e).Ok? <==> Typable(e) && TypeVars(e) <= vars.Keys
    ensures GetType(vars, e).Ok? ==> GetType(vars, e).value == TypeOf(e)
    ensures TypeVars(e) <= vars.Keys ==> GetType(vars, e) != Err(UNRESOLVED)
    ensures Typable(e) && !(TypeVars(e) <= vars.Keys) ==> GetType(vars, e) == Err(UNRESOLVED)
  {
    match e
    case Binary(_, l, r) => TypeExactly(vars, l); TypeExactly(vars, r);
    case Assign(_, v) => TypeExactly(vars, v);
    case _ =>
  }

  lemma {:induction false} NestedExactly(vars: map<string, nat>, e: Expr)
    ensures GetNested(vars, e).Ok? <==> NestedTypable(e) && NestedVars(e) <= vars.Keys
    ensures NestedVars(e) <= vars.Keys ==> GetNested(vars, e) != Err(UNRESOLVED)
    ensures NestedTypable(e) && !(NestedVars(e) <= vars.Keys) ==> GetNested(vars, e) == Err(UNRESOLVED)
    decreases e, 1
  {
    hide GetType, Typable, TypeVars;
    match e
    case Var(_) => VarType(vars, e);
    case Assign(_, v) => AssignType(vars, e); NestedExactly(vars, v);
    case Call(_, args) => NestedAllExactly(vars, args);
    case _ =>
  }

  lemma VarType(vars: map<string, nat>, e: Expr)
    requires e.Var?
    ensures GetType(vars, e) == if e.name in vars then Ok(I64) else Err(UNRESOLVED)
  {
  }

  lemma AssignType(vars: map<string, nat>, e: Expr)
    requires e.Assign?
    ensures GetType(vars, e).Ok? <==> Typable(e.value) && TypeVars(e.value) <= vars.Keys
    ensures TypeVars(e.value) <= vars.Keys ==> GetType(vars, e) != Err(UNRESOLVED)
    ensures Typable(e.value) && !(TypeVars(e.value) <= vars.Keys) ==> GetType(vars, e) == Err(UNRESOLVED)
  {
    TypeExactly(vars, e.value);
  }

  lemma {:induction false} NestedAllExactly(vars: map<string, nat>, es: seq<Expr>)
    ensures GetNestedAll(vars, es).Ok? <==> NestedTypableAll(es) && NestedVarsAll(es) <= vars.Keys
    ensures NestedVarsAll(es) <= vars.Keys ==> GetNestedAll(vars, es) != Err(UNRESOLVED)
    ensures NestedTypableAll(es) && !(NestedVarsAll(es) <= vars.Keys) ==> GetNestedAll(vars, es) == Err(UNRESOLVED)
    decreases es, 0
  {
    hide GetType, Typable, TypeVars, GetNested, NestedTypable, NestedVars;
    if es != [] {
      TypeExactly(vars, es[0]);
      NestedExactly(vars, es[0]);
      NestedAllExactly(vars, es[1..]);
    }
  }

  lemma SlotExactly(vars: map<string, nat>, e: Expr)
    ensures GetSlot(vars, e).Ok? <==> Slotted(e) && TypeVars(e) <= vars.Keys
    ensures TypeVars(e) <= vars.Keys ==> GetSlot(vars, e) != Err(UNRESOLVED)
    ensures Slotted(e) && !(TypeVars(e) <= vars.Keys) ==> GetSlot(vars, e) == Err(UNRESOLVED)
  {
    hide GetType, Typable, TypeVars, TypeOf;
    TypeExactly(vars, e);
  }

  lemma {:induction false} SlotsExactly(vars: map<string, nat>, es: seq<Expr>)
    ensures GetSlots(vars, es).Ok? <==> SlottedAll(es) && TypeVarsAll(es) <= vars.Keys
    ensures TypeVarsAll(es) <= vars.Keys ==> GetSlots(vars, es) != Err(UNRESOLVED)
    ensures SlottedAll(es) && !(TypeVarsAll(es) <= vars.Keys) ==> GetSlots(vars, es) == Err(UNRESOLVED)
  {
    hide GetSlot, Slotted, TypeVars;
    if es != [] {
      SlotExactly(vars, es[0]);
      SlotsExactly(vars, es[1..]);
    }
  }

  // Allocation.

  /** What one step of the allocation pass does: it succeeds exactly on known names
      and shapes, declares its names and defines its tables; with known names it
      never misses one, and if only names are at fault it says so. */
  ghost predicate Resolves(c: Ctx, r: Result<Ctx>, known: bool, shape: bool, declared: set<string>,
      defined: set<bytes>) {
    && (r.Ok? <==> known && shape)
    && (r.Ok? ==> r.value.vars.Keys == c.vars.Keys + declared && r.value.tables.Keys == c.tables.Keys + defined)
    && (known ==> r != Err(UNRESOLVED))
    && (shape && !known ==> r == Err(UNRESOLVED))
  }

  /** What one visit of the allocation pass does. */
  ghost predicate VisitResolves(c: Ctx, s: Stmt)
    requires Open(c)
  {
    Resolves(c, AllocStmt(c, s),
             ReadsKnown(c.vars.Keys, s), Allocatable(c.tables.Keys, s), Declared(s), Defined(s).Keys)
  }

  lemma LetExactly(c: Ctx, s: Stmt)
    requires Open(c) && s.Let?
    ensures VisitResolves(c, s)
  {
    hide GetSlot, Slotted, TypeVars;
    SlotExactly(c.vars, s.value);
  }

  lemma RowStmtResolves(c: Ctx, s: Stmt)
    requires Open(c) && (s.Emit? || s.Insert?)
    ensures VisitResolves(c, s)
  {
    hide GetSlots, SlottedAll, TypeVarsAll, NameBytes;
    if s.value.Row? { SlotsExactly(c.vars, s.value.elements); }
  }

  lemma {:induction false} AllocStmtExactly(c: Ctx, s: Stmt)
    requires Open(c)
    ensures VisitResolves(c, s)
    decreases s
  {
    hide GetType, GetSlot, GetSlots, GetNested, Typable, Slotted, SlottedAll, NestedTypable, TypeVars, TypeVarsAll,
         NestedVars, TypeOf, IntTable, TableOfIntegers, AttrsOf, NameBytes;
    if s.Define? { TablesExact(s.schema); }
    match s
    case Let(_, _, _) => LetExactly(c, s);
    case For(init, _, _, _) => if init.JustStmt? { AllocStmtExactly(c, init.s); }
    case Emit(_) => RowStmtResolves(c, s);
    case Insert(_, _) => RowStmtResolves(c, s);
    case ExprStmt(e) => TypeExactly(c.vars, e); NestedExactly(c.vars, e);
    case _ =>
  }

  lemma {:induction false} AllocInsideExactly(c: Ctx, s: Stmt)
    requires Open(c)
    ensures Resolves(c, AllocInside(c, s), ReadsKnownInside(c.vars.Keys, s), AllocatableInside(c.tables.Keys, s),
                     DeclaredInside(s), DefinedInside(s).Keys)
    decreases s, 1
  {
    hide AllocSeq, AllocStmt, ReadsKnown, ReadsKnownSeq, Allocatable, AllocatableSeq, Declared, DeclaredSeq, Defined,
         DefinedSeq;
    match s
    case Block(ss) => AllocSeqExactly(c, ss);
    case Transaction(_, ss) => AllocSeqExactly(c, ss);
    case If(_, thn, els) =>
      AllocSeqExactly(c, thn);
      if AllocSeq(c, thn).Ok? && els.ElseBlock? { AllocSeqExactly(AllocSeq(c, thn).value, els.stmts); }
    case For(_, _, _, _) => AllocForExactly(c, s);
    case _ =>
  }

  lemma {:induction false} AllocForExactly(c: Ctx, s: Stmt)
    requires Open(c) && s.For?
    ensures Resolves(c, AllocInside(c, s), ReadsKnownInside(c.vars.Keys, s), AllocatableInside(c.tables.Keys, s),
                     DeclaredInside(s), DefinedInside(s).Keys)
    decreases s, 0
  {
    hide AllocSeq, AllocStmt, ReadsKnown, ReadsKnownSeq, Allocatable, AllocatableSeq, Declared, DeclaredSeq, Defined,
         DefinedSeq, Reinserts, InsertVisits;
    if s.init.JustStmt? { ReinsertsExactly(s.init.s); }
    if !s.init.JustStmt? {
      assert c.vars.Keys + {} == c.vars.Keys && c.tables.Keys + {} == c.tables.Keys;
      AllocSeqExactly(c, s.body);
    } else if !Reinserts(s.init.s) {
      AllocStmtExactly(c, s.init.s);
      if AllocStmt(c, s.init.s).Ok? { AllocSeqExactly(AllocStmt(c, s.init.s).value, s.body); }
    }
  }

  /** The allocation pass succeeds exactly when every name it reads was declared and
      every table it needs was defined at an earlier visit, every expression it
      visits has a type, and no insert is an initializer. */
  lemma {:induction false} AllocSeqExactly(c: Ctx, ss: seq<Stmt>)
    requires Open(c)
    ensures Resolves(c, AllocSeq(c, ss), ReadsKnownSeq(c.vars.Keys, ss), AllocatableSeq(c.tables.Keys, ss),
                     DeclaredSeq(ss), DefinedSeq(ss).Keys)
    decreases ss, 0
  {
    hide AllocStmt, AllocInside, ReadsKnown, ReadsKnownInside, Allocatable, AllocatableInside, Declared,
         DeclaredInside, Defined, DefinedInside;
    if ss != [] {
      var names, tables := c.vars.Keys, c.tables.Keys;
      var names1, tables1 := names + Declared(ss[0]), tables + Defined(ss[0]).Keys;
      var names2, tables2 := names1 + DeclaredInside(ss[0]), tables1 + DefinedInside(ss[0]).Keys;
      AllocHeadExactly(c, ss[0]);
      var r := AllocHead(c, ss[0]);
      if r.Ok? {
        assert r.value.vars.Keys == names2 && r.value.tables.Keys == tables2;
        AllocSeqExactly(r.value, ss[1..]);
      }
      ResolvesThen(c, r, AllocSeq(c, ss),
                   ReadsKnown(names, ss[0]) && ReadsKnownInside(names1, ss[0]),
                   Allocatable(tables, ss[0]) && AllocatableInside(tables1, ss[0]),
                   Declared(ss[0]) + DeclaredInside(ss[0]), Defined(ss[0]).Keys + DefinedInside(ss[0]).Keys,
                   ReadsKnownSeq(names2, ss[1..]), AllocatableSeq(tables2, ss[1..]),
                   DeclaredSeq(ss[1..]), DefinedSeq(ss[1..]).Keys);
    }
  }

  /** One step after another. */
  lemma ResolvesThen(c: Ctx, r1: Result<Ctx>, r: Result<Ctx>,
                     known1: bool, shape1: bool, declared1: set<string>, defined1: set<bytes>,
                     known2: bool, shape2: bool, declared2: set<string>, defined2: set<bytes>)
    requires Resolves(c, r1, known1, shape1, declared1, defined1)
    requires if r1.Ok? then Resolves(r1.value, r, known2, shape2, declared2, defined2) else r == r1
    ensures Resolves(c, r, known1 && known2, shape1 && shape2, declared1 + declared2, defined1 + defined2)
  {
  }

  /** A statement and then what is inside it. */
  ghost function AllocHead(c: Ctx, s: Stmt): (r: Result<Ctx>)
    requires Open(c)
    ensures r.Ok? ==> Open(r.value)
  {
    var c1 :- AllocStmt(c, s);
    AllocInside(c1, s)
  }

  lemma {:induction false} AllocHeadExactly(c: Ctx, s: Stmt)
    requires Open(c)
    ensures Resolves(c, AllocHead(c, s),
                     ReadsKnown(c.vars.Keys, s) && ReadsKnownInside(c.vars.Keys + Declared(s), s),
                     Allocatable(c.tables.Keys, s) && AllocatableInside(c.tables.Keys + Defined(s).Keys, s),
                     Declared(s) + DeclaredInside(s), Defined(s).Keys + DefinedInside(s).Keys)
    decreases s, 2
  {
    hide AllocStmt, AllocInside, ReadsKnown, ReadsKnownInside, Allocatable, AllocatableInside, Declared,
         DeclaredInside, Defined, DefinedInside;
    AllocStmtExactly(c, s);
    var r := AllocStmt(c, s);
    if r.Ok? { AllocInsideExactly(r.value, s); }
    ResolvesThen(c, r, AllocHead(c, s),
                 ReadsKnown(c.vars.Keys, s), Allocatable(c.tables.Keys, s), Declared(s), Defined(s).Keys,
                 ReadsKnownInside(c.vars.Keys + Declared(s), s), AllocatableInside(c.tables.Keys + Defined(s).Keys, s),
                 DeclaredInside(s), DefinedInside(s).Keys);
  }

  /** The tables after allocation, with their last definitions. */
  lemma {:induction false} AllocStmtTables(c: Ctx, s: Stmt)
    requires Open(c) && AllocStmt(c, s).Ok?
    ensures AllocStmt(c, s).value.tables == c.tables + Attributes(Defined(s))
    decreases s
  {
    hide GetSlot, GetSlots, GetType, GetNested, IntTable, TableOfIntegers, AttrsOf, NameBytes;
    if s.Define? { TablesExact(s.schema); }
    match s
    case For(init, _, _, _) => if init.JustStmt? { AllocStmtTables(c, init.s); }
    case _ =>
  }

  lemma {:induction false} AllocInsideTables(c: Ctx, s: Stmt)
    requires Open(c) && AllocInside(c, s).Ok?
    ensures AllocInside(c, s).value.tables == c.tables + Attributes(DefinedInside(s))
    decreases s, 1
  {
    hide AllocStmt, AllocSeq, Defined, DefinedSeq, Reinserts, Attributes;
    NoAttributes();
    match s
    case Block(ss) => AllocSeqTables(c, ss);
    case Transaction(_, ss) => AllocSeqTables(c, ss);
    case If(_, thn, els) =>
      AllocSeqTables(c, thn);
      if els.ElseBlock? {
        AllocSeqTables(AllocSeq(c, thn).value, els.stmts);
        MergeTwo(c.tables, DefinedSeq(thn), DefinedSeq(els.stmts));
      } else {
        MergeTwo(c.tables, DefinedSeq(thn), map[]);
      }
    case For(init, _, _, body) =>
      if init.JustStmt? {
        AllocStmtTables(c, init.s);
        AllocSeqTables(AllocStmt(c, init.s).value, body);
        MergeTwo(c.tables, Defined(init.s), DefinedSeq(body));
      } else {
        AllocSeqTables(c, body);
        MergeTwo(c.tables, map[], DefinedSeq(body));
      }
    case _ =>
  }

  lemma NoAttributes()
    ensures Attributes(map[]) == map[]
  {
  }

  lemma AttributesMerge(a: map<bytes, seq<Column>>, b: map<bytes, seq<Column>>)
    ensures Attributes(a + b) == Attributes(a) + Attributes(b)
  {
    hide AttrsOf;
  }

  lemma MergeTwo(m: map<bytes, seq<Attr>>, a: map<bytes, seq<Column>>, b: map<bytes, seq<Column>>)
    ensures m + Attributes(a) + Attributes(b) == m + Attributes(a + b) && m + Attributes(map[]) == m
  {
    hide AttrsOf;
    AttributesMerge(a, b);
  }

  lemma {:induction false} AllocSeqTables(c: Ctx, ss: seq<Stmt>)
    requires Open(c) && AllocSeq(c, ss).Ok?
    ensures AllocSeq(c, ss).value.tables == c.tables + Attributes(DefinedSeq(ss))
    decreases ss, 0
  {
    hide AllocStmt, AllocInside, Defined, DefinedInside, Attributes;
    NoAttributes();
    if ss != [] {
      AllocStmtTables(c, ss[0]);
      var c1 := AllocStmt(c, ss[0]).value;
      AllocInsideTables(c1, ss[0]);
      AllocSeqTables(AllocInside(c1, ss[0]).value, ss[1..]);
      var a, b, d := Defined(ss[0]), DefinedInside(ss[0]), DefinedSeq(ss[1..]);
      MergeTwo(c.tables, a, b);
      MergeTwo(c.tables, a + b, d);
    }
  }

  // Generation.

  /** A step of generation succeeds exactly on known names and shapes, declares
      nothing, and with known names never misses one. */
  ghost predicate Finds(c: Ctx, r: Result<Ctx>, known: bool, shape: bool) {
    && (r.Ok? <==> known && shape)
    && (r.Ok? ==> r.value.vars == c.vars && r.value.tables == c.tables)
    && (known ==> r != Err(UNRESOLVED))
    && (shape && !known ==> r == Err(UNRESOLVED))
  }

  function Drop<T>(r: Result<(Ctx, T)>): Result<Ctx> {
    if r.Ok? then Ok(r.value.0) else Err(r.error)
  }

  lemma {:induction false} ExprExactly(c: Ctx, e: Expr)
    requires Open(c)
    ensures Finds(c, Drop(GenExpr(c, e)), VarsOf(e) <= c.vars.Keys, Generable(e))
    decreases e, 1
  {
    hide GenCond;
    match e
    case Binary(op, l, r) =>
      if op.IsCond() {
        CondExactly(c, e);
      } else {
        ExprExactly(c, l);
        if GenExpr(c, l).Ok? { ExprExactly(GenExpr(c, l).value.0, r); }
      }
    case Assign(t, v) => ExprExactly(c, v);
    case Call(_, args) => if |args| == 1 { ArgExactly(c, args); }
    case _ =>
  }

  lemma {:induction false} ArgExactly(c: Ctx, args: seq<Expr>)
    requires Open(c) && |args| == 1
    ensures Finds(c, Drop(GenExpr(c, args[0])), VarsOfAll(args) <= c.vars.Keys, Generable(args[0]))
    ensures GenExpr(c, args[0]).Ok? ==> (GenExpr(c, args[0]).value.1.NoValue? <==> args[0].Call?)
    decreases args
  {
    hide GenExpr, VarsOf, Generable, Finds;
    ExprExactly(c, args[0]);
    OneArg(args);
    if GenExpr(c, args[0]).Ok? { OnlyCallsVoid(c, args[0]); }
  }

  /** Only a call leaves no value. */
  lemma OnlyCallsVoid(c: Ctx, e: Expr)
    requires Open(c) && GenExpr(c, e).Ok?
    ensures GenExpr(c, e).value.1.NoValue? <==> e.Call?
  {
  }

  lemma OneArg(args: seq<Expr>)
    requires |args| == 1
    ensures VarsOfAll(args) == VarsOf(args[0])
  {
    assert args[1..] == [];
  }

  lemma {:induction false} CondExactly(c: Ctx, e: Expr)
    requires Open(c) && e.Binary?
    ensures Finds(c, Drop(GenCond(c, e)), VarsOf(e) <= c.vars.Keys, Generable(e))
    decreases e, 0
  {
    hide GenExpr;
    var next, fin := |c.blocks|, |c.blocks| + 1;
    var c0 := c.(blocks := c.blocks + [[], []]);
    ExprExactly(c0, e.lhs);
    if GenExpr(c0, e.lhs).Ok? {
      var (c1, a) := GenExpr(c0, e.lhs).value;
      var (c2, a1) := ToI1(c1, a);
      var br := if e.op.CondAnd? then CondBr(a1, next, fin) else CondBr(a1, fin, next);
      ExprExactly(Append(c2, br).(cur := next), e.rhs);
    }
  }

  lemma {:induction false} RowExactly(c: Ctx, es: seq<Expr>)
    requires Open(c)
    ensures Finds(c, Drop(GenRow(c, es)), VarsOfAll(es) <= c.vars.Keys, GenerableAll(es))
    decreases es
  {
    hide GenExpr, Generable, VarsOf;
    if es != [] {
      ExprExactly(c, es[0]);
      if GenExpr(c, es[0]).Ok? {
        var c1 := GenExpr(c, es[0]).value.0;
        ExprExactly(c1, es[0]);
        RowExactly(GenExpr(c1, es[0]).value.0, es[1..]);
      }
    }
  }

  lemma {:induction false} StmtExactly(c: Ctx, s: Stmt)
    requires Open(c)
    ensures Finds(c, GenStmt(c, s), Used(s) <= c.vars.Keys,
                  GenerableStmt(c.tables, s) && JumpsInside(s, c.loops != []))
    decreases s, 2
  {
    hide GenExpr, GenRow, GenIf, GenLoop, GenSeq, Generable, GenerableAll, GenerableSeq, VarsOf, VarsOfAll, UsedSeq,
         JumpsInsideSeq, GetSlot, GetSlots, Slotted, SlottedAll, Unbuffered, BuffersMade, BuffersNeeded, NameBytes;
    match s
    case Block(ss) => SeqExactly(c, ss);
    case Transaction(_, ss) => SeqExactly(Append(c, CallBegin), ss);
    case Let(_, _, e) => SlotExactly(c.vars, e); ExprExactly(c, e); TypeVarsBound(e);
    case If(_, _, _) => IfExactly(c, s);
    case For(_, _, _, _) => ForExactly(c, s);
    case Emit(_) => RowStmtExactly(c, s);
    case Insert(_, _) => RowStmtExactly(c, s);
    case ExprStmt(e) => ExprExactly(c, e);
    case _ =>
  }

  lemma RowStmtExactly(c: Ctx, s: Stmt)
    requires Open(c) && (s.Emit? || s.Insert?)
    ensures Finds(c, GenStmt(c, s), Used(s) <= c.vars.Keys,
                  GenerableStmt(c.tables, s) && JumpsInside(s, c.loops != []))
  {
    hide GenRow, GenerableAll, VarsOfAll, GetSlots, SlottedAll, TypeVarsAll, NameBytes;
    if s.value.Row? {
      SlotsExactly(c.vars, s.value.elements);
      RowExactly(c, s.value.elements);
      AllVarsBound(s.value.elements);
    }
  }

  lemma {:induction false} ForExactly(c: Ctx, s: Stmt)
    requires Open(c) && s.For?
    ensures Finds(c, GenStmt(c, s), Used(s) <= c.vars.Keys,
                  GenerableStmt(c.tables, s) && JumpsInside(s, c.loops != []))
    decreases s, 1
  {
    hide GenExpr, GenRow, GenIf, GenLoop, GenSeq, Generable, GenerableAll, GenerableSeq, VarsOf, VarsOfAll, UsedSeq,
         JumpsInsideSeq, GetSlot, GetSlots, Slotted, SlottedAll, Unbuffered, BuffersMade, BuffersNeeded, NameBytes;
    var init := s.init;
    if init.JustStmt? { UnbufferedExactly(init.s); }
    if !init.JustStmt? {
      LoopExactly(c, s);
    } else if !Unbuffered(init.s) {
      StmtExactly(c, init.s);
      if GenStmt(c, init.s).Ok? { LoopExactly(GenStmt(c, init.s).value, s); }
    }
  }

  lemma {:induction false} SeqExactly(c: Ctx, ss: seq<Stmt>)
    requires Open(c)
    ensures Finds(c, GenSeq(c, ss), UsedSeq(ss) <= c.vars.Keys,
                  GenerableSeq(c.tables, ss) && JumpsInsideSeq(ss, c.loops != []))
    decreases ss, 0
  {
    hide GenStmt, GenerableStmt, Used, JumpsInside;
    if ss != [] {
      StmtExactly(c, ss[0]);
      if GenStmt(c, ss[0]).Ok? { SeqExactly(GenStmt(c, ss[0]).value, ss[1..]); }
    }
  }

  lemma {:induction false} IfExactly(c: Ctx, s: Stmt)
    requires Open(c) && s.If?
    ensures Finds(c, GenIf(c, s), Used(s) <= c.vars.Keys,
                  GenerableStmt(c.tables, s) && JumpsInside(s, c.loops != []))
    decreases s, 0
  {
    hide GenExpr, GenSeq, GenStmt, Generable, GenerableSeq, VarsOf, UsedSeq, JumpsInsideSeq;
    var t, f, fin := |c.blocks|, |c.blocks| + 1, |c.blocks| + 2;
    var c0 := c.(blocks := c.blocks + [[], [], []]);
    ExprExactly(c0, s.cond);
    if GenExpr(c0, s.cond).Ok? {
      var (c1, v) := GenExpr(c0, s.cond).value;
      var (c2, v1) := ToI1(c1, v);
      var c3 := Append(c2, CondBr(v1, t, f)).(cur := t);
      SeqExactly(c3, s.thn);
      if GenSeq(c3, s.thn).Ok? && s.els.ElseBlock? {
        SeqExactly(Append(GenSeq(c3, s.thn).value, Br(fin)).(cur := f), s.els.stmts);
      }
    }
  }

  /** The part of a For after its initializer. */
  lemma {:induction false} LoopExactly(c: Ctx, s: Stmt)
    requires Open(c) && s.For?
    ensures Finds(c, GenLoop(c, s), VarsOfMaybe(s.test) + VarsOfMaybe(s.every) + UsedSeq(s.body) <= c.vars.Keys,
                  GenerableMaybe(s.test) && GenerableMaybe(s.every) && GenerableSeq(c.tables, s.body)
                      && JumpsInsideSeq(s.body, true))
    decreases s, 0
  {
    hide GenExpr, GenSeq, Generable, GenerableSeq, VarsOf, UsedSeq, JumpsInsideSeq, EnterLoop;
    var c1 := EnterLoop(c);
    var loop := c1.loops[0];
    EnterKeeps(c);
    if s.test.JustExpr? { ExprExactly(c1, s.test.e); }
    if GenTest(c1, loop, s.test).Ok? {
      var c2 := GenTest(c1, loop, s.test).value.(cur := loop.body);
      SeqExactly(c2, s.body);
      if GenSeq(c2, s.body).Ok? && s.every.JustExpr? {
        ExprExactly(Append(GenSeq(c2, s.body).value, Br(loop.every)).(cur := loop.every), s.every.e);
      }
    }
  }

  lemma EnterKeeps(c: Ctx)
    requires Open(c)
    ensures EnterLoop(c).vars == c.vars && EnterLoop(c).tables == c.tables && EnterLoop(c).loops != []
  {
  }

  // The whole compilation.

  /** What a program must look like to compile, names of variables aside: jumps inside
      loops, expressions of the fragment, tables defined before they are used, inserted
      rows no longer than their tables are wide, and buffers for initializers. */
  predicate WellShaped(prog: seq<Stmt>) {
    JumpsInsideSeq(prog, false) && AllocatableSeq({}, prog) && GenerableSeq(Attributes(DefinedSeq(prog)), prog)
  }

  /** A program compiles exactly when analysis accepts it, it is well shaped, and its
      variables are declared: the ones allocation reads at an earlier visit, the ones
      generation uses at some visit. If only variables are at fault, the error says
      so. */
  lemma CompilesExactly(prog: seq<Stmt>)
    ensures Compile(prog).Ok? <==>
            && AnalyzeSeq(NoTypes, prog).Ok? && WellShaped(prog)
            && ReadsKnownSeq({}, prog) && UsedSeq(prog) <= DeclaredSeq(prog)
    ensures AnalyzeSeq(NoTypes, prog).Ok? && WellShaped(prog) ==> Compile(prog).Ok? || Compile(prog) == Err(UNRESOLVED)
  {
    hide AnalyzeSeq, AllocSeq, GenSeq, JumpsInsideSeq, AllocatableSeq, GenerableSeq, ReadsKnownSeq, UsedSeq,
         DeclaredSeq, Allocated, DefinedSeq;
    var c := Entry();
    assert c.vars.Keys == {} && c.tables.Keys == {};
    AllocSeqExactly(c, prog);
    if AllocSeq(c, prog).Ok? {
      EntryAllocated();
      AllocKeeps(c, prog);
      AllocatedOpen(AllocSeq(c, prog).value);
      AllocSeqTables(c, prog);
      assert {} + DeclaredSeq(prog) == DeclaredSeq(prog);
      assert c.tables + Attributes(DefinedSeq(prog)) == Attributes(DefinedSeq(prog));
      SeqExactly(AllocSeq(c, prog).value, prog);
    }
  }

  // Analysis.

  lemma {:induction false} TypeVarsBound(e: Expr)
    ensures TypeVars(e) <= VarsOf(e) && NestedVars(e) <= VarsOf(e)
    decreases e, 1
  {
    match e
    case Binary(_, l, r) => TypeVarsBound(l); TypeVarsBound(r);
    case Assign(_, v) => TypeVarsBound(v);
    case Call(_, args) => AllVarsBound(args);
    case _ =>
  }

  lemma {:induction false} AllVarsBound(es: seq<Expr>)
    ensures TypeVarsAll(es) <= VarsOfAll(es) && NestedVarsAll(es) <= VarsOfAll(es)
    decreases es, 0
  {
    if es != [] {
      TypeVarsBound(es[0]);
      AllVarsBound(es[1..]);
    }
  }

  /** Names that are enough for a statement and what it leaves declared. */
  ghost predicate Covers(env: TypeEnv, env1: TypeEnv, names: set<string>, used: set<string>, declared: set<string>) {
    env.vars.Keys <= names ==> env1.vars.Keys + used <= names + declared
  }

  /** A statement without inner statements. */
  lemma SimpleCovered(env: TypeEnv, s: Stmt, names: set<string>)
    requires AnalyzeStmt(env, s).Ok? && env.vars.Keys <= names
    requires s.Let? || s.ExprStmt? || s.Emit? || s.Jump? || s.Insert? || s.Define?
    ensures ReadsKnown(names, s) && Covers(env, AnalyzeStmt(env, s).value, names, Used(s), Declared(s))
  {
    hide AnalyzeExpr, AnalyzeAll, TypeVars, TypeVarsAll, NestedVars, VarsOf, VarsOfAll;
    match s
    case Let(_, _, e) => AnalyzedVars(env, e); TypeVarsBound(e);
    case ExprStmt(e) => AnalyzedVars(env, e); TypeVarsBound(e);
    case Emit(Row(es)) => AnalyzedVarsAll(env, es); AllVarsBound(es);
    case Insert(_, Row(es)) => AnalyzedVarsAll(env, es); AllVarsBound(es);
    case Jump(_) =>
    case Define(_, _) =>
  }

  lemma {:induction false} StmtCovered(env: TypeEnv, s: Stmt, names: set<string>)
    requires AnalyzeStmt(env, s).Ok? && SimpleInits(s) && env.vars.Keys <= names
    ensures ReadsKnown(names, s) && ReadsKnownInside(names + Declared(s), s)
    ensures Covers(env, AnalyzeStmt(env, s).value, names, Used(s), Declared(s) + DeclaredInside(s))
    decreases s, 1
  {
    hide AnalyzeExpr, AnalyzeSeq, ReadsKnownSeq, DeclaredSeq, UsedSeq, VarsOf, SimpleInitsSeq;
    match s
    case Block(ss) => assert names + {} == names; SeqCovered(env, ss, names);
    case Transaction(_, ss) => assert names + {} == names; SeqCovered(env, ss, names);
    case If(e, thn, els) =>
      assert names + {} == names;
      AnalyzedVars(env, e);
      SeqCovered(env, thn, names);
      if els.ElseBlock? { SeqCovered(AnalyzeSeq(env, thn).value, els.stmts, names + DeclaredSeq(thn)); }
    case For(_, _, _, _) => ForCovered(env, s, names);
    case _ => SimpleCovered(env, s, names);
  }

  lemma {:induction false} ForCovered(env: TypeEnv, s: Stmt, names: set<string>)
    requires s.For? && AnalyzeStmt(env, s).Ok? && SimpleInits(s) && env.vars.Keys <= names
    ensures ReadsKnown(names, s) && ReadsKnownInside(names + Declared(s), s)
    ensures Covers(env, AnalyzeStmt(env, s).value, names, Used(s), Declared(s) + DeclaredInside(s))
    decreases s, 0
  {
    hide AnalyzeExpr, AnalyzeSeq, ReadsKnownSeq, DeclaredSeq, UsedSeq, VarsOf, SimpleInitsSeq;
    var env1, here := env, names + Declared(s);
    if s.init.JustStmt? {
      env1 := AnalyzeStmt(env, s.init.s).value;
      SimpleCovered(env, s.init.s, names);
      SimpleCovered(env, s.init.s, here);
      assert here + Declared(s.init.s) == here;
    } else {
      assert here + {} == here;
    }
    if s.test.JustExpr? { AnalyzedVars(env1, s.test.e); }
    if s.every.JustExpr? { AnalyzedVars(env1, s.every.e); }
    SeqCovered(env1, s.body, here);
  }

  lemma {:induction false} SeqCovered(env: TypeEnv, ss: seq<Stmt>, names: set<string>)
    requires AnalyzeSeq(env, ss).Ok? && SimpleInitsSeq(ss) && env.vars.Keys <= names
    ensures ReadsKnownSeq(names, ss) && Covers(env, AnalyzeSeq(env, ss).value, names, UsedSeq(ss), DeclaredSeq(ss))
    decreases ss, 0
  {
    hide AnalyzeStmt, ReadsKnown, ReadsKnownInside, Declared, DeclaredInside, Used, SimpleInits;
    if ss != [] {
      StmtCovered(env, ss[0], names);
      SeqCovered(AnalyzeStmt(env, ss[0]).value, ss[1..], names + Declared(ss[0]) + DeclaredInside(ss[0]));
    }
  }

  /** With all names declared no pass misses one. */
  lemma NamesResolved(prog: seq<Stmt>)
    requires ReadsKnownSeq({}, prog) && UsedSeq(prog) <= DeclaredSeq(prog)
    ensures AllocSeq(Entry(), prog) != Err(UNRESOLVED)
    ensures AnalyzeSeq(NoTypes, prog).Ok? ==> Compile(prog) != Err(UNRESOLVED)
  {
    hide AnalyzeSeq, AllocSeq, GenSeq, ReadsKnownSeq, UsedSeq, DeclaredSeq, Allocated;
    var c := Entry();
    assert c.vars.Keys == {};
    AllocSeqExactly(c, prog);
    if AllocSeq(c, prog).Ok? {
      EntryAllocated();
      AllocKeeps(c, prog);
      AllocatedOpen(AllocSeq(c, prog).value);
      SeqExactly(AllocSeq(c, prog).value, prog);
    }
  }

  /** No unresolved variable after analysis: with simple initializers, neither the
      allocation pass nor generation misses a name of an analyzed program. */
  lemma AnalyzedResolves(prog: seq<Stmt>)
    requires AnalyzeSeq(NoTypes, prog).Ok? && SimpleInitsSeq(prog)
    ensures ReadsKnownSeq({}, prog) && UsedSeq(prog) <= DeclaredSeq(prog)
    ensures AllocSeq(Entry(), prog) != Err(UNRESOLVED) && Compile(prog) != Err(UNRESOLVED)
  {
    hide AnalyzeSeq, AllocSeq, GenSeq, ReadsKnownSeq, UsedSeq, DeclaredSeq, SimpleInitsSeq, Compile;
    SeqCovered(NoTypes, prog, {});
    NamesResolved(prog);
  }
}
