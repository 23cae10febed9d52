/** Parsing printed programs gives them back, exactly when no expression runs on
    into the next statement. */
module StmtRoundTrip {
  import opened Ast
  import opened Tokens
  import opened Grammar
  import opened Printer
  import opened StmtPrinter

  lemma BlockStops(ss: seq<Stmt>, rest: Toks)
    requires PrintableStmts(ss)
    ensures Stops(PrintBlock(ss) + rest) && KindAt(PrintBlock(ss) + rest) == OpenBrace
  {
    hide Sym, PrintStmts, PrintableStmts;
  }

  /** A printed statement followed by what may follow it is parsed back. */
  lemma {:induction false} StmtParses(s: Stmt, rest: Toks)
    requires PrintableStmt(s) && Separate(s) && Follows(s, rest)
    ensures ParseStmt(PrintStmt(s) + rest) == Ok((JustStmt(s), rest))
    decreases s, 2
  {
    hide PrintStmt, ParseStmt, PrintableStmt, Separate;
    match s
    case Block(_) => BlockStmtParses(s, rest);
    case Transaction(_, _) => TransactionParses(s, rest);
    case Let(_, _, _) => LetParses(s, rest);
    case If(_, _, _) => IfParses(s, rest);
    case For(_, _, _, _) => ForParses(s, rest);
    case Scan(_, _, _) => ScanParses(s, rest);
    case _ => SimpleParses(s, rest);
  }

  lemma {:induction false} BlockStmtParses(s: Stmt, rest: Toks)
    requires PrintableStmt(s) && Separate(s) && s.Block?
    ensures ParseStmt(PrintStmt(s) + rest) == Ok((JustStmt(s), rest))
    decreases s, 1
  {
    hide Sym, ParseBlock, PrintBlock, PrintableStmts, SeparateAll;
    BlockParses(s.stmts, rest);
    BlockStops(s.stmts, rest);
  }

  /** Without an isolation level a transaction is serializable. */
  lemma BareTransactionParses(ss: seq<Stmt>, rest: Toks)
    requires PrintableStmts(ss) && SeparateAll(ss)
    ensures ParseStmt([Sym(KwTransaction)] + (PrintBlock(ss) + rest)) ==
            Ok((JustStmt(Transaction("SERIALIZABLE", ss)), rest))
  {
    hide ParseBlock, PrintStmts, PrintableStmts, SeparateAll;
    var ts := [Sym(KwTransaction)] + (PrintBlock(ss) + rest);
    assert ts[1..] == PrintBlock(ss) + rest && ts[1] == Sym(OpenBrace);
    BlockParses(ss, rest);
  }

  lemma {:induction false} TransactionParses(s: Stmt, rest: Toks)
    requires PrintableStmt(s) && Separate(s) && s.Transaction?
    ensures ParseStmt(PrintStmt(s) + rest) == Ok((JustStmt(s), rest))
    decreases s, 1
  {
    hide Sym, ParseBlock, PrintBlock, PrintableStmts, SeparateAll, WordToken;
    var ts := PrintStmt(s) + rest;
    assert ts[2..] == PrintBlock(s.stmts) + rest;
    WordText(s.isolation);
    BlockParses(s.stmts, rest);
  }

  lemma RuleLet(ts: Toks, ty: MaybeType, rest: Toks, x: string, e: Expr, rest1: Toks)
    requires ts != [] && ts[0].kind.KwLet? && ParseLetType(ts[1..]) == Ok((ty, rest))
             && ParseBinding(rest) == Ok(((x, e), rest1))
    ensures ParseStmt(ts) == Ok((JustStmt(Let(ty, x, e)), rest1))
  {
    hide ParseLetType, ParseBinding;
    assert ParseLet(ts) == Ok((JustStmt(Let(ty, x, e)), rest1));
  }

  lemma LetTypeParses(ty: MaybeType, rest: Toks)
    requires (ty.JustType? ==> PrintableType(ty.t)) && KindAt(rest) != OpenAngle
    ensures ParseLetType((if ty.JustType? then PrintRowType(ty.t) else []) + rest) == Ok((ty, rest))
  {
    hide Sym, ParseRowType, PrintRowType;
    if ty.JustType? {
      RowTypeParses(ty.t, rest);
      RowTypeStarts(ty.t, rest);
    } else {
      assert [] + rest == rest;
    }
  }

  lemma LetParses(s: Stmt, rest: Toks)
    requires PrintableStmt(s) && s.Let? && Stops(rest)
    ensures ParseStmt(PrintStmt(s) + rest) == Ok((JustStmt(s), rest))
  {
    hide Sym, ParseStmt, ParseLetType, PrintRowType, ParseBinding, Print, Stops, Printable, PrintableType;
    var ts := PrintStmt(s) + rest;
    var tail := [Ident(s.name), Sym(EqualSign)] + (Print(s.value) + rest);
    assert ts[1..] == (if s.ty.JustType? then PrintRowType(s.ty.t) else []) + tail;
    BindingParses(s.name, s.value, rest);
    LetTypeParses(s.ty, tail);
    RuleLet(ts, s.ty, tail, s.name, s.value, rest);
  }

  lemma RowTypeStarts(t: Type, rest: Toks)
    requires PrintableType(t)
    ensures KindAt(PrintRowType(t) + rest) == OpenAngle
  {
    hide Sym;
  }

  lemma BindingParses(x: string, e: Expr, rest: Toks)
    requires Printable(e) && Stops(rest)
    ensures ParseBinding([Ident(x), Sym(EqualSign)] + (Print(e) + rest)) == Ok(((x, e), rest))
  {
    hide Sym, ParseExpr, Print, Stops;
    var ts := [Ident(x), Sym(EqualSign)] + (Print(e) + rest);
    assert ts[1..] == [Sym(EqualSign)] + (Print(e) + rest) && ts[1..][1..] == Print(e) + rest;
    ExprParses(e, rest);
  }

  lemma RuleIf(ts: Toks, e: Expr, rest: Toks, thn: seq<Stmt>, rest1: Toks)
    requires ts != [] && ts[0].kind.KwIf? && ParseExpr(ts[1..]) == Ok((e, rest)) && ParseBlock(rest) == Ok((thn, rest1))
    requires KindAt(rest1) != KwElse
    ensures ParseStmt(ts) == Ok((JustStmt(If(e, thn, NoElse)), rest1))
  {
    hide ParseExpr, ParseBlock;
    assert ParseIf(ts) == Ok((JustStmt(If(e, thn, NoElse)), rest1));
  }

  lemma RuleIfElse(ts: Toks, e: Expr, rest: Toks, thn: seq<Stmt>, rest1: Toks, els: seq<Stmt>, rest2: Toks)
    requires ts != [] && ts[0].kind.KwIf? && ParseExpr(ts[1..]) == Ok((e, rest)) && ParseBlock(rest) == Ok((thn, rest1))
    requires KindAt(rest1) == KwElse && ParseBlock(rest1[1..]) == Ok((els, rest2))
    ensures ParseStmt(ts) == Ok((JustStmt(If(e, thn, ElseBlock(els))), rest2))
  {
    hide ParseExpr, ParseBlock;
    assert ParseIf(ts) == Ok((JustStmt(If(e, thn, ElseBlock(els))), rest2));
  }

  lemma {:induction false} IfParses(s: Stmt, rest: Toks)
    requires PrintableStmt(s) && Separate(s) && s.If? && Follows(s, rest)
    ensures ParseStmt(PrintStmt(s) + rest) == Ok((JustStmt(s), rest))
    decreases s, 1
  {
    hide Sym, ParseStmt, ParseBlock, PrintBlock, PrintableStmts, SeparateAll, ParseExpr, Print, Stops, Printable;
    var ts := PrintStmt(s) + rest;
    var tail1 := PrintElse(s.els) + rest;
    var tail := PrintBlock(s.thn) + tail1;
    assert ts[0].kind.KwIf? && ts[1..] == Print(s.cond) + tail;
    BlockStops(s.thn, tail1);
    ExprParses(s.cond, tail);
    BlockParses(s.thn, tail1);
    if s.els.ElseBlock? {
      assert KindAt(tail1) == KwElse && tail1[1..] == PrintBlock(s.els.stmts) + rest;
      BlockParses(s.els.stmts, rest);
      RuleIfElse(ts, s.cond, tail, s.thn, tail1, s.els.stmts, rest);
    } else {
      assert tail1 == rest;
      RuleIf(ts, s.cond, tail, s.thn, tail1);
    }
  }

  lemma RuleHeader(ts: Toks, test: MaybeExpr, rest: Toks, every: MaybeExpr, rest1: Toks)
    requires KindAt(ts) == Semicolon && ParseHeader(ts[1..]) == Ok((test, rest))
    requires KindAt(rest) == Semicolon && ParseHeader(rest[1..]) == Ok((every, rest1))
    ensures ParseForHeader(ts) == Ok(((test, every), rest1))
  {
    hide ParseHeader;
  }

  /** A part of a loop header before whatever ends it; an absent one before `;`. */
  lemma PartParses(e: MaybeExpr, rest: Toks)
    requires PrintableMaybe(e) && Stops(rest) && (e.NoExpr? ==> KindAt(rest) == Semicolon)
    ensures ParseHeader(PrintMaybe(e) + rest) == Ok((e, rest))
  {
    hide ParseExpr, Print, Stops, Printable;
    if e.JustExpr? {
      ExprParses(e.e, rest);
      PrintStarts(e.e);
    } else {
      assert PrintMaybe(e) + rest == rest;
    }
  }

  lemma HeaderParses(test: MaybeExpr, every: MaybeExpr, rest: Toks)
    requires PrintableMaybe(test) && every.JustExpr? && PrintableMaybe(every) && Stops(rest)
    ensures ParseForHeader(PrintHeader(test, every) + rest) == Ok(((test, every), rest))
  {
    hide Sym, ParseHeader, PrintMaybe, Stops, ParseForHeader, PrintableMaybe;
    var tail2 := PrintMaybe(every) + rest;
    var tail1 := [Sym(Semicolon)] + tail2;
    var ts := PrintHeader(test, every) + rest;
    assert ts == [Sym(Semicolon)] + (PrintMaybe(test) + tail1) && ts[1..] == PrintMaybe(test) + tail1
           && tail1[1..] == tail2;
    StopsAt(Semicolon, tail1);
    PartParses(test, tail1);
    PartParses(every, rest);
    RuleHeader(ts, test, tail1, every, rest);
  }

  lemma RuleFor(ts: Toks, init: MaybeStmt, rest: Toks, h: (MaybeExpr, MaybeExpr), rest1: Toks, body: seq<Stmt>,
      rest2: Toks)
    requires ts != [] && ts[0].kind.KwFor? && ParseInit(ts[1..]) == Ok((init, rest))
    requires ParseForHeader(rest) == Ok((h, rest1)) && ParseBlock(rest1) == Ok((body, rest2))
    ensures ParseStmt(ts) == Ok((JustStmt(For(init, h.0, h.1, body)), rest2))
  {
    hide ParseForHeader, ParseBlock, ParseInit;
    assert ParseFor(ts) == Ok((JustStmt(For(init, h.0, h.1, body)), rest2));
  }

  /** An initializer that is no statement is the empty one before `;`. */
  lemma InitParsed(init: MaybeStmt, rest: Toks)
    requires init.JustStmt? ==> PrintableStmt(init.s) && ParseStmt(PrintStmt(init.s) + rest) == Ok((init, rest))
    requires KindAt(rest) == Semicolon
    ensures ParseInit(PrintInit(init) + rest) == Ok((init, rest))
  {
    hide ParseStmt, PrintStmt, PrintableStmt;
    if init.JustStmt? { StmtSeparates(init.s); } else { assert PrintInit(init) + rest == rest; }
  }

  lemma {:induction false} ForParses(s: Stmt, rest: Toks)
    requires PrintableStmt(s) && Separate(s) && s.For?
    ensures ParseStmt(PrintStmt(s) + rest) == Ok((JustStmt(s), rest))
    decreases s, 1
  {
    hide Sym, ParseBlock, PrintBlock, PrintableStmts, SeparateAll, ParseForHeader, PrintHeader, Stops, PrintableMaybe,
         ParseStmt, PrintInit, ParseInit;
    var ts := PrintStmt(s) + rest;
    var tail1 := PrintBlock(s.body) + rest;
    var tail := PrintHeader(s.test, s.every) + tail1;
    assert ts[0].kind.KwFor? && ts[1..] == PrintInit(s.init) + tail;
    HeaderStops(s.test, s.every, tail1);
    if s.init.JustStmt? { StmtParses(s.init.s, tail); }
    InitParsed(s.init, tail);
    BlockStops(s.body, rest);
    HeaderParses(s.test, s.every, tail1);
    BlockParses(s.body, rest);
    RuleFor(ts, s.init, tail, (s.test, s.every), tail1, s.body, rest);
  }

  lemma HeaderStops(test: MaybeExpr, every: MaybeExpr, rest: Toks)
    requires PrintableMaybe(test) && PrintableMaybe(every)
    ensures Stops(PrintHeader(test, every) + rest) && KindAt(PrintHeader(test, every) + rest) == Semicolon
  {
    hide Sym, PrintMaybe;
    StopsAt(Semicolon, PrintHeader(test, every) + rest);
  }

  lemma RuleScan(ts: Toks, table: string, row: string, rest: Toks, body: seq<Stmt>, rest1: Toks)
    requires ts != [] && ts[0].kind.KwScan? && ParseScanHead(ts[1..]) == Ok(((table, row), rest))
             && ParseBlock(rest) == Ok((body, rest1))
    ensures ParseStmt(ts) == Ok((JustStmt(Scan(table, row, body)), rest1))
  {
    hide ParseBlock, ParseScanHead;
    assert ParseScan(ts) == Ok((JustStmt(Scan(table, row, body)), rest1));
  }

  lemma ScanHeadParses(table: string, row: string, rest: Toks)
    ensures ParseScanHead([Ident(table), Sym(Comma), Ident(row)] + rest) == Ok(((table, row), rest))
  {
    hide Sym;
    var ts := [Ident(table), Sym(Comma), Ident(row)] + rest;
    assert ts[1..] == [Sym(Comma), Ident(row)] + rest;
    assert ts[1..][1..] == [Ident(row)] + rest && ([Ident(row)] + rest)[1..] == rest;
  }

  lemma {:induction false} ScanParses(s: Stmt, rest: Toks)
    requires PrintableStmt(s) && Separate(s) && s.Scan?
    ensures ParseStmt(PrintStmt(s) + rest) == Ok((JustStmt(s), rest))
    decreases s, 1
  {
    hide Sym, ParseStmt, ParseBlock, ParseScanHead, PrintBlock, PrintableStmts, SeparateAll;
    var ts, tail := PrintStmt(s) + rest, PrintBlock(s.body) + rest;
    assert ts[0].kind.KwScan? && ts[1..] == [Ident(s.table), Sym(Comma), Ident(s.row)] + tail;
    ScanHeadParses(s.table, s.row, tail);
    BlockParses(s.body, rest);
    RuleScan(ts, s.table, s.row, tail, s.body, rest);
  }

  predicate StartsSimple(k: TokenType) {
    StartsExpr(k) || k.KwDefine? || k.KwEmit? || k.KwInsert? || k.KwBreak? || k.KwContinue? || k.KwTuple?
  }

  lemma RuleSimple(ts: Toks)
    requires ts != [] && StartsSimple(ts[0].kind)
    ensures ParseStmt(ts) == ParseSimple(ts)
  {
    hide ParseSimple, ParseLet, ParseIf, ParseFor, ParseScan, ParseTransaction, ParseBlock;
  }

  lemma SimpleStarts(s: Stmt)
    requires PrintableStmt(s)
    requires s.Jump? || s.Emit? || s.ExprStmt? || s.Define? || s.DefineTuple? || s.Insert?
    ensures PrintStmt(s) != [] && StartsSimple(PrintStmt(s)[0].kind)
  {
    hide Sym, Print, PrintRowType, PrintType, PrintableType, Printable, PrintExprStmt;
    if s.ExprStmt? { ExprStmtStarts(s.value); }
  }

  lemma SimpleParses(s: Stmt, rest: Toks)
    requires PrintableStmt(s) && Follows(s, rest)
    requires s.Jump? || s.Emit? || s.ExprStmt? || s.Define? || s.DefineTuple? || s.Insert?
    ensures ParseStmt(PrintStmt(s) + rest) == Ok((JustStmt(s), rest))
  {
    hide Sym, ParseExpr, Print, Stops, ParseStmt, ParseSimple, ParseRowType, PrintRowType, ParseType, PrintType,
         StartsSimple, Printable, PrintExprStmt;
    var ts := PrintStmt(s) + rest;
    SimpleStarts(s);
    RuleSimple(ts);
    if s.Jump? {
      JumpParses(s, rest);
    } else if s.ExprStmt? {
      ExprStmtParses(s.value, rest);
    } else if s.Emit? {
      assert ts == [Sym(KwEmit)] + (Print(s.value) + rest);
      EmitParses(s.value, rest);
    } else if s.Insert? {
      assert ts == [Sym(KwInsert), Ident(s.table)] + (Print(s.value) + rest);
      InsertParses(s.table, s.value, rest);
    } else if s.Define? {
      assert ts == [Sym(KwDefine)] + (PrintRowType(s.schema.t) + ([Ident(s.name)] + rest));
      DefineParses(s.schema.t, s.name, rest);
    } else {
      assert ts == [Sym(KwTuple), Ident(s.name)] + (PrintType(s.tuple) + rest);
      DefineTupleParses(s.name, s.tuple, rest);
    }
  }

  lemma JumpParses(s: Stmt, rest: Toks)
    requires s.Jump?
    ensures ParseSimple(PrintStmt(s) + rest) == Ok((JustStmt(s), rest))
  {
    hide Sym;
    assert (PrintStmt(s) + rest)[1..] == rest;
  }

  lemma EmitParses(e: Expr, rest: Toks)
    requires Printable(e) && Stops(rest)
    ensures ParseSimple([Sym(KwEmit)] + (Print(e) + rest)) == Ok((JustStmt(Emit(e)), rest))
  {
    hide Sym, ParseExpr, Print, Stops;
    assert ([Sym(KwEmit)] + (Print(e) + rest))[1..] == Print(e) + rest;
    ExprParses(e, rest);
  }

  /** In parentheses an expression is read up to the closing one, and on. */
  lemma WrappedParses(e: Expr, rest: Toks)
    requires Printable(e)
    ensures ParseExpr([Sym(OpenParen)] + (Print(e) + [Sym(CloseParen)]) + rest) == Postfix(e, rest)
  {
    hide Sym, ParseExpr, Print, Stops, Postfix;
    var close := [Sym(CloseParen)] + rest;
    var ts := [Sym(OpenParen)] + (Print(e) + [Sym(CloseParen)]) + rest;
    assert ts[1..] == Print(e) + close && close[1..] == rest;
    StopsAt(CloseParen, close);
    ExprParses(e, close);
    RuleParen(ts, e, close);
  }

  lemma ExprStmtParses(e: Expr, rest: Toks)
    requires Printable(e) && Stops(rest)
    ensures ParseSimple(PrintExprStmt(e) + rest) == Ok((JustStmt(ExprStmt(e)), rest))
  {
    hide Sym, ParseExpr, Print, Stops, Postfix;
    ExprStmtStarts(e);
    if StartsExpr(KindAt(Print(e))) {
      ExprParses(e, rest);
    } else {
      WrappedParses(e, rest);
      RuleStop(e, rest);
    }
  }

  lemma InsertParses(x: string, e: Expr, rest: Toks)
    requires Printable(e) && KindAt(Print(e)) == OpenBrace && Stops(rest)
    ensures ParseSimple([Sym(KwInsert), Ident(x)] + (Print(e) + rest)) == Ok((JustStmt(Insert(x, e)), rest))
  {
    hide Sym, ParseExpr, Print, Stops;
    var ts := [Sym(KwInsert), Ident(x)] + (Print(e) + rest);
    assert ts[1..][1..] == Print(e) + rest;
    PrintStarts(e);
    ExprParses(e, rest);
  }

  lemma DefineParses(t: Type, x: string, rest: Toks)
    requires t.TupleType? && PrintableType(t)
    ensures ParseSimple([Sym(KwDefine)] + (PrintRowType(t) + ([Ident(x)] + rest))) ==
            Ok((JustStmt(Define(JustType(t), x)), rest))
  {
    hide Sym, ParseRowType, PrintRowType;
    var tail := [Ident(x)] + rest;
    var ts := [Sym(KwDefine)] + (PrintRowType(t) + tail);
    assert ts[1..] == PrintRowType(t) + tail && tail[1..] == rest;
    RowTypeParses(t, tail);
  }

  lemma DefineTupleParses(x: string, t: Type, rest: Toks)
    requires t.TupleType? && PrintableType(t)
    ensures ParseSimple([Sym(KwTuple), Ident(x)] + (PrintType(t) + rest)) == Ok((JustStmt(DefineTuple(x, t)), rest))
  {
    hide Sym, ParseType, PrintType;
    var ts := [Sym(KwTuple), Ident(x)] + (PrintType(t) + rest);
    assert ts[1..][1..] == PrintType(t) + rest;
    TypeParses(t, rest);
  }

  lemma {:induction false} BlockParses(ss: seq<Stmt>, rest: Toks)
    requires PrintableStmts(ss) && SeparateAll(ss)
    ensures ParseBlock(PrintBlock(ss) + rest) == Ok((ss, rest))
    decreases ss, 1
  {
    hide Sym, ParseStmts, PrintStmts, PrintableStmts, SeparateAll;
    var ts, tail := PrintBlock(ss) + rest, PrintStmts(ss) + ([Sym(CloseBrace)] + rest);
    assert ts == [Sym(OpenBrace)] + tail && ts[1..] == tail;
    StmtsParse(ss, rest);
  }

  /** What follows the first statement of a list may follow it. */
  lemma ListFollows(ss: seq<Stmt>, rest: Toks)
    requires PrintableStmts(ss) && ss != [] && (|ss| > 1 ==> Apart(ss[0], ss[1])) && Stops(rest)
             && KindAt(rest) != KwElse
    ensures Follows(ss[0], PrintStmts(ss[1..]) + rest)
  {
    hide PrintStmt, Sym, Continues;
    if |ss| > 1 {
      StmtSeparates(ss[1]);
      assert (PrintStmts(ss[1..]) + rest)[0] == PrintStmt(ss[1])[0];
    } else {
      assert PrintStmts(ss[1..]) + rest == rest;
    }
  }

  lemma {:induction false} StmtsParse(ss: seq<Stmt>, rest: Toks)
    requires PrintableStmts(ss) && SeparateAll(ss)
    ensures ParseStmts(PrintStmts(ss) + ([Sym(CloseBrace)] + rest)) == Ok((ss, rest))
    decreases ss, 0
  {
    hide Sym, ParseStmt, PrintStmt, PrintableStmt, Separate, Stops;
    var close := [Sym(CloseBrace)] + rest;
    assert close[1..] == rest;
    StopsAt(CloseBrace, close);
    if ss == [] {
      assert PrintStmts(ss) + close == close;
    } else {
      var tail := PrintStmts(ss[1..]) + close;
      assert PrintStmts(ss) + close == PrintStmt(ss[0]) + tail;
      ListFollows(ss, close);
      StmtParses(ss[0], tail);
      StmtSeparates(ss[0]);
      StmtsParse(ss[1..], rest);
      assert ss == [ss[0]] + ss[1..];
    }
  }

  /** Parsing the tokens of a printed program gives the program back. */
  lemma {:induction false} ProgramParses(ss: seq<Stmt>)
    requires PrintableStmts(ss) && SeparateAll(ss)
    ensures ParseProgram(PrintStmts(ss)) == Parsed(ss)
    decreases ss
  {
    hide Sym, ParseStmt, PrintStmt, PrintableStmt, Separate, Stops;
    if ss != [] {
      var tail := PrintStmts(ss[1..]);
      RuleNoTokens();
      assert tail + [] == tail;
      ListFollows(ss, []);
      StmtParses(ss[0], tail);
      StmtSeparates(ss[0]);
      ProgramParses(ss[1..]);
      assert ss == [ss[0]] + ss[1..];
    }
  }

  lemma RuleNoTokens()
    ensures Stops([]) && KindAt([]) != KwElse
  {
  }
}
