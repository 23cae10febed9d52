/** An expression goes on into a following `(` or `[`. Hence printed statements
    that are not kept apart do not parse back, at any depth. */
module RunOn {
  import opened Ast
  import opened Tokens
  import opened Grammar
  import opened Printer
  import opened StmtPrinter
  import opened StmtRoundTrip

  /** The number of wrappings along the left edge of a tree. */
  function Spine(e: Expr): nat {
    match e
    case Binary(_, l, _) => 1 + Spine(l)
    case Assign(t, _) => 1 + Spine(t)
    case Call(f, _) => 1 + Spine(f)
    case Index(_, _) => 1
    case Member(b, _) => 1 + Spine(b)
    case _ => 0
  }

  predicate OpensSuffix(ts: Toks) { ts != [] && (ts[0].kind.OpenParen? || ts[0].kind.OpenBracket?) }

  /** One suffix makes the tree larger, or unprintable. */
  lemma SuffixGrows(e: Expr, ts: Toks)
    requires ts != [] && ParseSuffix(e, ts).Ok? && Printable(ParseSuffix(e, ts).value.0)
    ensures Printable(e) && Spine(ParseSuffix(e, ts).value.0) > Spine(e)
  {
    hide ParseExpr, ParseList;
  }

  lemma {:induction false} PostfixGrows(e: Expr, ts: Toks)
    requires Postfix(e, ts).Ok? && Printable(Postfix(e, ts).value.0)
    ensures Printable(e) && Spine(Postfix(e, ts).value.0) >= Spine(e)
    ensures !Stops(ts) ==> Spine(Postfix(e, ts).value.0) > Spine(e)
    decreases |ts|
  {
    hide ParseExpr, ParseSuffix, BinaryOp;
    if !Stops(ts) && BinaryOp(ts[0].kind).None? {
      var (e1, rest) := ParseSuffix(e, ts).value;
      PostfixGrows(e1, rest);
      SuffixGrows(e, ts);
    }
  }

  predicate Yields<T(==)>(r: Result<(T, Toks)>, x: T) { r.Ok? && r.value.0 == x }

  lemma BracketGoesOn(ts: Toks)
    requires OpensSuffix(ts)
    ensures !Stops(ts)
  {
  }

  /** A printed expression before `(` or `[` is not parsed back. */
  lemma {:induction false} ExprRunsOn(e: Expr, rest: Toks)
    requires Printable(e) && OpensSuffix(rest)
    ensures !Yields(ParseExpr(Print(e) + rest), e)
    decreases e
  {
    hide Postfix, ParseExpr, ParseList, Sym, BinaryOp, Stops, PrintLeft, OpensSuffix;
    BracketGoesOn(rest);
    if e.Binary? {
      BinaryRunsOn(e, rest);
    } else if e.Assign? {
      AssignRunsOn(e, rest);
    } else if e.PointerOf? {
      PointerRunsOn(e, rest);
    } else {
      LeftParses(e, rest);
      if Yields(Postfix(e, rest), e) { PostfixGrows(e, rest); }
    }
  }

  lemma BinaryInverse(l: Expr, ts: Toks, e: Expr)
    requires ts != [] && BinaryOp(ts[0].kind).Some? && Yields(Postfix(l, ts), e)
    ensures e.Binary? && Yields(ParseExpr(ts[1..]), e.rhs)
  {
    hide ParseExpr, BinaryOp;
  }

  lemma {:induction false} BinaryRunsOn(e: Expr, rest: Toks)
    requires Printable(e) && e.Binary? && OpensSuffix(rest)
    ensures !Yields(ParseExpr(Print(e) + rest), e)
    decreases e, 0
  {
    hide Postfix, ParseExpr, ParseList, Sym, BinaryOp, Stops, PrintLeft, OpensSuffix;
    var tail := [Sym(OpKind(e.op))] + (Print(e.rhs) + rest);
    assert Print(e) + rest == PrintLeft(e.lhs) + tail && tail[1..] == Print(e.rhs) + rest;
    LeftParses(e.lhs, tail);
    ExprRunsOn(e.rhs, rest);
    if Yields(Postfix(e.lhs, tail), e) { BinaryInverse(e.lhs, tail, e); }
  }

  lemma AssignInverse(t: Expr, ts: Toks, e: Expr)
    requires ts != [] && ts[0].kind.EqualSign? && e.Assign? && Yields(Postfix(t, ts), e)
    ensures Yields(ParseExpr(ts[1..]), e.value)
  {
    hide ParseExpr;
    var (v, rest) := ParseExpr(ts[1..]).value;
    RuleStop(Assign(t, v), rest);
  }

  lemma {:induction false} AssignRunsOn(e: Expr, rest: Toks)
    requires Printable(e) && e.Assign? && OpensSuffix(rest)
    ensures !Yields(ParseExpr(Print(e) + rest), e)
    decreases e, 0
  {
    hide Postfix, ParseExpr, ParseList, Sym, BinaryOp, Stops, PrintLeft, OpensSuffix;
    var tail := [Sym(EqualSign)] + (Print(e.value) + rest);
    assert Print(e) + rest == PrintLeft(e.target) + tail && tail[1..] == Print(e.value) + rest;
    LeftParses(e.target, tail);
    ExprRunsOn(e.value, rest);
    if Yields(Postfix(e.target, tail), e) { AssignInverse(e.target, tail, e); }
  }

  lemma PointerInverse(ts: Toks, e: Expr)
    requires ts != [] && ts[0].kind.Ampersand? && e.PointerOf? && Yields(ParseExpr(ts), e)
    ensures Yields(ParseExpr(ts[1..]), e.pointee)
  {
    hide Stops, Postfix;
    var (p, rest) := ParseExpr(ts[1..]).value;
    RuleStop(PointerOf(p), rest);
  }

  lemma {:induction false} PointerRunsOn(e: Expr, rest: Toks)
    requires Printable(e) && e.PointerOf? && OpensSuffix(rest)
    ensures !Yields(ParseExpr(Print(e) + rest), e)
    decreases e, 0
  {
    hide Postfix, ParseExpr, ParseList, Sym, BinaryOp, Stops, PrintLeft, OpensSuffix;
    assert (Print(e) + rest)[1..] == Print(e.pointee) + rest;
    ExprRunsOn(e.pointee, rest);
    if Yields(ParseExpr(Print(e) + rest), e) { PointerInverse(Print(e) + rest, e); }
  }

  // Statements.

  predicate YieldsStmt(ts: Toks, s: Stmt) { Yields(ParseStmt(ts), JustStmt(s)) }

  lemma SimpleInverse(ts: Toks, s: Stmt)
    requires ts != [] && StartsSimple(ts[0].kind) && YieldsStmt(ts, s)
    ensures s.ExprStmt? && StartsExpr(ts[0].kind) ==> Yields(ParseExpr(ts), s.value)
    ensures s.Emit? && ts[0].kind.KwEmit? ==> Yields(ParseExpr(ts[1..]), s.value)
    ensures s.Insert? && ts[0].kind.KwInsert? ==> |ts| > 2 && Yields(ParseExpr(ts[2..]), s.value)
  {
    hide ParseExpr, ParseStmt, ParseRowType, ParseType;
    RuleSimple(ts);
    if ts[0].kind.KwInsert? { InsertInverse(ts, s); }
  }

  lemma InsertInverse(ts: Toks, s: Stmt)
    requires ts != [] && ts[0].kind.KwInsert? && Yields(ParseSimple(ts), JustStmt(s))
    ensures s.Insert? ==> |ts| > 2 && Yields(ParseExpr(ts[2..]), s.value)
  {
    hide ParseExpr, ParseStmt, ParseRowType, ParseType;
    assert |ts| > 1 ==> ts[1..][1..] == ts[2..];
  }

  lemma ExprStmtRunsOn(e: Expr, rest: Toks)
    requires Printable(e) && OpensSuffix(rest)
    ensures !Yields(ParseExpr(PrintExprStmt(e) + rest), e)
  {
    hide Sym, ParseExpr, Print, Printable, OpensSuffix, Postfix, Stops;
    if StartsExpr(KindAt(Print(e))) {
      ExprRunsOn(e, rest);
    } else {
      WrappedParses(e, rest);
      BracketGoesOn(rest);
      if Yields(Postfix(e, rest), e) { PostfixGrows(e, rest); }
    }
  }

  lemma SimpleRunsOn(s: Stmt, rest: Toks)
    requires PrintableStmt(s) && (s.ExprStmt? || s.Emit? || s.Insert?) && OpensSuffix(rest)
    ensures !YieldsStmt(PrintStmt(s) + rest, s)
  {
    hide Sym, ParseExpr, Print, ParseStmt, StartsSimple, Printable, OpensSuffix, PrintExprStmt;
    var ts := PrintStmt(s) + rest;
    SimpleStarts(s);
    ExprRunsOn(s.value, rest);
    if s.ExprStmt? {
      ExprStmtRunsOn(s.value, rest);
      ExprStmtStarts(s.value);
    } else if s.Emit? {
      assert ts[1..] == Print(s.value) + rest;
    } else if s.Insert? {
      assert ts[2..] == Print(s.value) + rest;
    }
    if YieldsStmt(ts, s) { SimpleInverse(ts, s); }
  }

  lemma LetInverse(ts: Toks, s: Stmt)
    requires ts != [] && ts[0].kind.KwLet? && s.Let? && YieldsStmt(ts, s)
    ensures ParseLetType(ts[1..]).Ok?
    ensures var rest := ParseLetType(ts[1..]).value.1; |rest| > 2 && Yields(ParseExpr(rest[2..]), s.value)
  {
    hide ParseExpr, ParseLetType;
    assert ParseStmt(ts) == ParseLet(ts);
    var rest := ParseLetType(ts[1..]).value.1;
    assert ParseBinding(rest).Ok?;
    assert rest[1..][1..] == rest[2..];
  }

  lemma LetRunsOn(s: Stmt, rest: Toks)
    requires PrintableStmt(s) && s.Let? && OpensSuffix(rest)
    ensures !YieldsStmt(PrintStmt(s) + rest, s)
  {
    hide Sym, ParseStmt, ParseLetType, PrintRowType, Print, Printable, PrintableType, OpensSuffix;
    var ts := PrintStmt(s) + rest;
    var tail := [Ident(s.name), Sym(EqualSign)] + (Print(s.value) + rest);
    assert ts[1..] == (if s.ty.JustType? then PrintRowType(s.ty.t) else []) + tail;
    LetTypeParses(s.ty, tail);
    assert tail[2..] == Print(s.value) + rest;
    ExprRunsOn(s.value, rest);
    if YieldsStmt(ts, s) { LetInverse(ts, s); }
  }

  lemma BlockInverse(ts: Toks, ss: seq<Stmt>)
    requires Yields(ParseBlock(ts), ss)
    ensures ts != [] && Yields(ParseStmts(ts[1..]), ss)
  {
    hide ParseStmts;
  }

  lemma StmtsInverse(ts: Toks, ss: seq<Stmt>)
    requires ss != [] && Yields(ParseStmts(ts), ss)
    ensures ParseStmt(ts).Ok? && YieldsStmt(ts, ss[0]) && Yields(ParseStmts(ParseStmt(ts).value.1), ss[1..])
  {
    hide ParseStmt;
    var (s, rest) := ParseStmt(ts).value;
    var ss1 := ParseStmts(rest).value.0;
    assert ss == [s.s] + ss1 && ss[1..] == ss1;
  }

  lemma BlockStmtInverse(ts: Toks, s: Stmt)
    requires ts != [] && ts[0].kind.OpenBrace? && s.Block? && YieldsStmt(ts, s)
    ensures Yields(ParseBlock(ts), s.stmts)
  {
    hide ParseBlock;
  }

  lemma TransactionInverse(ts: Toks, s: Stmt)
    requires |ts| > 1 && ts[0].kind.KwTransaction? && !ts[1].kind.OpenBrace? && s.Transaction? && YieldsStmt(ts, s)
    ensures Yields(ParseBlock(ts[2..]), s.stmts)
  {
    hide ParseBlock;
    assert ParseStmt(ts) == ParseTransaction(ts);
  }

  lemma ScanInverse(ts: Toks, s: Stmt)
    requires ts != [] && ts[0].kind.KwScan? && s.Scan? && YieldsStmt(ts, s)
    ensures |ts| > 4 && Yields(ParseBlock(ts[4..]), s.body)
  {
    hide ParseBlock;
    assert ParseStmt(ts) == ParseScan(ts);
    assert ts[1..][1..] == ts[2..] && ts[2..][1..] == ts[3..] && ts[3..][1..] == ts[4..];
  }

  lemma {:induction false} NestedRunsOn(s: Stmt, rest: Toks)
    requires PrintableStmt(s) && !Separate(s) && (s.Block? || s.Transaction? || s.Scan?)
    ensures !YieldsStmt(PrintStmt(s) + rest, s)
    decreases s, 0
  {
    hide Sym, ParseStmt, ParseBlock, PrintBlock, PrintableStmts, SeparateAll, WordToken;
    var ts := PrintStmt(s) + rest;
    if s.Block? {
      BlockRunsOn(s.stmts, rest);
      BlockStops(s.stmts, rest);
      if YieldsStmt(ts, s) { BlockStmtInverse(ts, s); }
    } else if s.Transaction? {
      BlockRunsOn(s.stmts, rest);
      WordText(s.isolation);
      assert ts[2..] == PrintBlock(s.stmts) + rest;
      if YieldsStmt(ts, s) { TransactionInverse(ts, s); }
    } else {
      BlockRunsOn(s.body, rest);
      assert ts[4..] == PrintBlock(s.body) + rest;
      if YieldsStmt(ts, s) { ScanInverse(ts, s); }
    }
  }

  lemma IfInverse(ts: Toks, s: Stmt)
    requires ts != [] && ts[0].kind.KwIf? && s.If? && YieldsStmt(ts, s)
    ensures ParseExpr(ts[1..]).Ok?
    ensures var rest := ParseExpr(ts[1..]).value.1;
            && Yields(ParseBlock(rest), s.thn)
            && var rest1 := ParseBlock(rest).value.1;
               s.els.ElseBlock? ==> rest1 != [] && Yields(ParseBlock(rest1[1..]), s.els.stmts)
  {
    hide ParseExpr, ParseBlock;
    assert ParseStmt(ts) == ParseIf(ts);
  }

  lemma {:induction false} IfRunsOn(s: Stmt, rest: Toks)
    requires PrintableStmt(s) && !Separate(s) && s.If?
    ensures !YieldsStmt(PrintStmt(s) + rest, s)
    decreases s, 0
  {
    hide Sym, ParseStmt, ParseBlock, PrintBlock, PrintableStmts, SeparateAll, ParseExpr, Print, Stops, Printable;
    var ts := PrintStmt(s) + rest;
    var tail1 := PrintElse(s.els) + rest;
    var tail := PrintBlock(s.thn) + tail1;
    assert ts[1..] == Print(s.cond) + tail;
    BlockStops(s.thn, tail1);
    ExprParses(s.cond, tail);
    if !SeparateAll(s.thn) {
      BlockRunsOn(s.thn, tail1);
    } else {
      BlockParses(s.thn, tail1);
      assert tail1[1..] == PrintBlock(s.els.stmts) + rest;
      BlockRunsOn(s.els.stmts, rest);
    }
    if YieldsStmt(ts, s) { IfInverse(ts, s); }
  }

  lemma ForInverse(ts: Toks, s: Stmt)
    requires ts != [] && ts[0].kind.KwFor? && s.For? && YieldsStmt(ts, s)
    ensures ParseInit(ts[1..]).Ok? && ParseInit(ts[1..]).value.0 == s.init
    ensures var rest := ParseInit(ts[1..]).value.1;
            ParseForHeader(rest).Ok? && Yields(ParseBlock(ParseForHeader(rest).value.1), s.body)
  {
    hide ParseForHeader, ParseBlock, ParseInit;
    assert ParseStmt(ts) == ParseFor(ts);
  }

  lemma InitInverse(ts: Toks, s: Stmt)
    requires KindAt(ts) != Semicolon && ParseInit(ts).Ok? && ParseInit(ts).value.0 == JustStmt(s)
    ensures YieldsStmt(ts, s)
  {
    hide ParseStmt;
  }

  lemma {:induction false} ForRunsOn(s: Stmt, rest: Toks)
    requires PrintableStmt(s) && !Separate(s) && s.For?
    ensures !YieldsStmt(PrintStmt(s) + rest, s)
    decreases s, 0
  {
    hide Sym, ParseBlock, PrintBlock, PrintableStmts, SeparateAll, ParseForHeader, PrintHeader, Stops, PrintableMaybe,
         ParseStmt, PrintInit, ParseInit;
    var ts := PrintStmt(s) + rest;
    var tail1 := PrintBlock(s.body) + rest;
    var tail := PrintHeader(s.test, s.every) + tail1;
    assert ts[0].kind.KwFor? && ts[1..] == PrintInit(s.init) + tail;
    HeaderStops(s.test, s.every, tail1);
    BlockStops(s.body, rest);
    HeaderParses(s.test, s.every, tail1);
    if YieldsStmt(ts, s) {
      ForInverse(ts, s);
      if s.init.JustStmt? && !Separate(s.init.s) {
        InitRunsOn(s.init.s, tail);
      } else {
        if s.init.JustStmt? { StmtParses(s.init.s, tail); }
        InitParsed(s.init, tail);
        BlockRunsOn(s.body, rest);
      }
    }
  }

  lemma {:induction false} InitRunsOn(s: Stmt, rest: Toks)
    requires PrintableStmt(s) && !Separate(s)
    ensures !(ParseInit(PrintInit(JustStmt(s)) + rest).Ok?
            && ParseInit(PrintInit(JustStmt(s)) + rest).value.0 == JustStmt(s))
    decreases s, 2
  {
    hide ParseInit, PrintStmt, PrintableStmt, Separate, ParseStmt;
    StmtRunsOn(s, rest);
    StmtSeparates(s);
    if ParseInit(PrintStmt(s) + rest).Ok? && ParseInit(PrintStmt(s) + rest).value.0 == JustStmt(s) {
      InitInverse(PrintStmt(s) + rest, s);
    }
  }

  /** A statement with a run-on inside is not parsed back. */
  lemma {:induction false} StmtRunsOn(s: Stmt, rest: Toks)
    requires PrintableStmt(s) && !Separate(s)
    ensures !YieldsStmt(PrintStmt(s) + rest, s)
    decreases s, 1
  {
    hide PrintStmt, ParseStmt, PrintableStmt, SeparateAll;
    if s.If? {
      IfRunsOn(s, rest);
    } else if s.For? {
      ForRunsOn(s, rest);
    } else {
      NestedRunsOn(s, rest);
    }
  }

  lemma {:induction false} BlockRunsOn(ss: seq<Stmt>, rest: Toks)
    requires PrintableStmts(ss) && !SeparateAll(ss)
    ensures !Yields(ParseBlock(PrintBlock(ss) + rest), ss)
    decreases ss, 2
  {
    hide Sym, ParseBlock, ParseStmts, PrintStmts, PrintableStmts, SeparateAll;
    var ts, tail := PrintBlock(ss) + rest, PrintStmts(ss) + ([Sym(CloseBrace)] + rest);
    assert ts == [Sym(OpenBrace)] + tail && ts[1..] == tail;
    StmtsRunOn(ss, rest);
    if Yields(ParseBlock(ts), ss) { BlockInverse(ts, ss); }
  }

  lemma BracketFirst(s: Stmt)
    requires PrintableStmt(s) && OpensBracket(s)
    ensures PrintStmt(s) != [] && OpensSuffix(PrintStmt(s))
  {
    hide PrintExprStmt;
    ExprStmtStarts(s.value);
  }

  /** The first statement of a list is well formed inside and apart from the next. */
  predicate HeadSeparate(ss: seq<Stmt>)
    requires ss != []
  {
    Separate(ss[0]) && (|ss| > 1 ==> Apart(ss[0], ss[1]))
  }

  lemma {:induction false} HeadRunsOn(ss: seq<Stmt>, rest: Toks)
    requires PrintableStmts(ss) && ss != [] && !HeadSeparate(ss)
    ensures !YieldsStmt(PrintStmt(ss[0]) + (PrintStmts(ss[1..]) + rest), ss[0])
    decreases ss, 0
  {
    hide ParseStmt, PrintStmt, Sym, PrintableStmt, OpensBracket, Separate;
    var tail := PrintStmts(ss[1..]) + rest;
    if !Separate(ss[0]) {
      StmtRunsOn(ss[0], tail);
    } else {
      BracketFirst(ss[1]);
      assert tail[0] == PrintStmt(ss[1])[0];
      if ss[0].Let? { LetRunsOn(ss[0], tail); } else { SimpleRunsOn(ss[0], tail); }
    }
  }

  lemma HeadParses(ss: seq<Stmt>, rest: Toks)
    requires PrintableStmts(ss) && ss != [] && HeadSeparate(ss) && Stops(rest) && KindAt(rest) != KwElse
    ensures ParseStmt(PrintStmt(ss[0]) + (PrintStmts(ss[1..]) + rest)) ==
            Ok((JustStmt(ss[0]), PrintStmts(ss[1..]) + rest))
  {
    hide ParseStmt, PrintStmt, Sym, PrintableStmt, Separate, Stops;
    ListFollows(ss, rest);
    StmtParses(ss[0], PrintStmts(ss[1..]) + rest);
  }

  lemma {:induction false} StmtsRunOn(ss: seq<Stmt>, rest: Toks)
    requires PrintableStmts(ss) && !SeparateAll(ss)
    ensures !Yields(ParseStmts(PrintStmts(ss) + ([Sym(CloseBrace)] + rest)), ss)
    decreases ss, 1
  {
    hide Sym, ParseStmt, ParseStmts, PrintStmt, PrintableStmt, Separate, Stops, Apart;
    var close := [Sym(CloseBrace)] + rest;
    var ts := PrintStmts(ss) + close;
    assert ts == PrintStmt(ss[0]) + (PrintStmts(ss[1..]) + close);
    if !HeadSeparate(ss) {
      HeadRunsOn(ss, close);
    } else {
      StopsAt(CloseBrace, close);
      HeadParses(ss, close);
      StmtsRunOn(ss[1..], rest);
    }
    if Yields(ParseStmts(ts), ss) { StmtsInverse(ts, ss); }
  }

  lemma ProgramInverse(ts: Toks, ss: seq<Stmt>)
    requires ss != [] && ParseProgram(ts) == Parsed(ss)
    ensures YieldsStmt(ts, ss[0]) && ParseProgram(ParseStmt(ts).value.1) == Parsed(ss[1..])
  {
    hide ParseStmt;
    var (s, rest) := ParseStmt(ts).value;
    var ss1 := ParseProgram(rest).program;
    assert ss == [s.s] + ss1 && ss[1..] == ss1;
  }

  lemma {:induction false} ProgramRunsOn(ss: seq<Stmt>)
    requires PrintableStmts(ss) && !SeparateAll(ss)
    ensures ParseProgram(PrintStmts(ss)) != Parsed(ss)
    decreases ss
  {
    hide Sym, ParseStmt, ParseProgram, PrintStmt, PrintableStmt, Separate, Stops, Apart;
    var ts := PrintStmts(ss);
    assert ts == PrintStmt(ss[0]) + (PrintStmts(ss[1..]) + []);
    assert PrintStmts(ss[1..]) + [] == PrintStmts(ss[1..]);
    if !HeadSeparate(ss) {
      HeadRunsOn(ss, []);
    } else {
      RuleNoTokens();
      HeadParses(ss, []);
      ProgramRunsOn(ss[1..]);
    }
    if ParseProgram(ts) == Parsed(ss) { ProgramInverse(ts, ss); }
  }

  /** Parsing the printed tokens of a program gives the program back exactly when
      nowhere in it an expression runs on into the next statement. */
  lemma ProgramRoundTrip(ss: seq<Stmt>)
    requires PrintableStmts(ss)
    ensures ParseProgram(PrintStmts(ss)) == Parsed(ss) <==> SeparateAll(ss)
  {
    if SeparateAll(ss) { ProgramParses(ss); } else { ProgramRunsOn(ss); }
  }
}
