/** Token printing of types and statements, and the proof that parsing undoes
    it. */
module StmtPrinter {
  import opened Ast
  import opened Tokens
  import opened Grammar
  import opened Printer

  // Types.

  predicate PrintableColumn(c: Column) { c.param.JustParam? ==> 0 <= c.param.p < 0x8000_0000 }

  predicate PrintableColumns(cs: seq<Column>) {
    cs != [] && PrintableColumn(cs[0]) && (|cs| > 1 ==> PrintableColumns(cs[1..]))
  }

  predicate PrintableType(t: Type) {
    match t
    case IntType => true
    case ArrayType(_) => true
    case TupleType(cs) => PrintableColumns(cs)
  }

  function Ident(x: string): Token { Token(Identifier, x) }

  function PrintProps(p: Props): Toks {
    (if p.key then [Ident("key")] else []) + (if p.nullable then [Ident("nullable")] else [])
    + (if p.unique then [Ident("unique")] else [])
  }

  function PrintParam(p: MaybeParam): Toks
    requires p.JustParam? ==> 0 <= p.p < 0x8000_0000
  {
    if p.NoParam? then [] else [Sym(OpenParen), Token(Number, Numeral(p.p)), Sym(CloseParen)]
  }

  function PrintColumn(c: Column): Toks
    requires PrintableColumn(c)
  {
    [WordToken(c.typeName)] + (PrintParam(c.param) + ([Sym(Colon), Ident(c.name)] + PrintProps(c.props)))
  }

  function PrintColumns(cs: seq<Column>): Toks
    requires PrintableColumns(cs)
  {
    if |cs| == 1 then PrintColumn(cs[0]) else PrintColumn(cs[0]) + ([Sym(Comma)] + PrintColumns(cs[1..]))
  }

  /** Some type with the given id. */
  function Sample(id: TypeId): (t: Type)
    ensures t.Id() == id && PrintableType(t) && !t.ArrayType?
  {
    match id
    case IntegerId => IntType
    case TupleId => TupleType([Column("int", NoParam, "a", Props(false, false, false))])
  }

  function PrintType(t: Type): Toks
    requires PrintableType(t)
    decreases t.ArrayType?
  {
    match t
    case IntType => [Sym(KwInt)]
    case ArrayType(id) => [Sym(OpenBracket)] + (PrintType(Sample(id)) + [Sym(CloseBracket)])
    case TupleType(cs) => [Sym(OpenBrace)] + (PrintColumns(cs) + [Sym(CloseBrace)])
  }

  lemma PropsParse(p: Props, rest: Toks)
    requires rest != [] && !rest[0].kind.Identifier?
    ensures ParseProps(PrintProps(p) + rest, Props(false, false, false)) == Ok((p, rest))
  {
    var p0 := Props(false, false, false);
    var ts3 := (if p.unique then [Ident("unique")] else []) + rest;
    var ts2 := (if p.nullable then [Ident("nullable")] else []) + ts3;
    assert PrintProps(p) + rest == (if p.key then [Ident("key")] else []) + ts2;
    PropParse(p.key, "key", ts2, p0);
    PropParse(p.nullable, "nullable", ts3, p0.(key := p.key));
    PropParse(p.unique, "unique", rest, p0.(key := p.key, nullable := p.nullable));
  }

  lemma PropParse(on: bool, word: string, ts: Toks, p: Props)
    requires word == "key" || word == "nullable" || word == "unique"
    ensures ParseProps((if on then [Ident(word)] else []) + ts, p) ==
            ParseProps(ts, if !on then p else if word == "key" then p.(key := true)
                           else if word == "nullable" then p.(nullable := true) else p.(unique := true))
  {
    if on {
      var us := [Ident(word)] + ts;
      assert us[1..] == ts;
    } else {
      assert [] + ts == ts;
    }
  }

  lemma ParamParses(p: MaybeParam, rest: Toks)
    requires p.JustParam? ==> 0 <= p.p < 0x8000_0000
    requires rest != [] && rest[0].kind.Colon?
    ensures ParseParam(PrintParam(p) + rest) == Ok((p, rest))
  {
    hide Sym, Numeral, Decimal, Stoi;
    var ts := PrintParam(p) + rest;
    if p.JustParam? {
      var close := [Sym(CloseParen)] + rest;
      var number := [Token(Number, Numeral(p.p))] + close;
      assert ts == [Sym(OpenParen)] + number && ts[1..] == number && number[1..] == close && close[1..] == rest;
      assert ts[1] == Token(Number, Numeral(p.p));
      NumeralReads(p.p);
    } else {
      assert ts == rest;
    }
  }

  /** A number is read back exactly if it fits a signed 32-bit integer. */
  lemma NumeralReads(n: nat)
    ensures Stoi(Numeral(n)) == if n < 0x8000_0000 then Ok(n) else Err("out of range")
  {
    hide Numeral;
  }

  lemma ColumnParses(c: Column, rest: Toks)
    requires PrintableColumn(c) && rest != [] && !rest[0].kind.Identifier?
    ensures ParseColumn(PrintColumn(c) + rest) == Ok((c, rest))
  {
    hide Sym, ParseProps, ParseParam, PrintProps, PrintParam, WordToken;
    var ts := PrintColumn(c) + rest;
    var tail3 := PrintProps(c.props) + rest;
    var tail2 := [Ident(c.name)] + tail3;
    var tail1 := [Sym(Colon)] + tail2;
    assert ts == [WordToken(c.typeName)] + (PrintParam(c.param) + tail1) && ts[1..] == PrintParam(c.param) + tail1;
    assert tail1[1..] == tail2 && tail2[1..] == tail3;
    ParamParses(c.param, tail1);
    PropsParse(c.props, rest);
    WordText(c.typeName);
  }

  lemma WordText(w: string)
    ensures WordToken(w).text == w && !WordToken(w).kind.OpenBrace?
  {
  }

  lemma {:induction false} ColumnsParse(cs: seq<Column>, rest: Toks)
    requires PrintableColumns(cs)
    ensures ParseColumns(PrintColumns(cs) + ([Sym(CloseBrace)] + rest)) == Ok((cs, rest))
  {
    hide Sym, ParseColumn, PrintColumn;
    var close := [Sym(CloseBrace)] + rest;
    assert close[1..] == rest;
    if |cs| == 1 {
      ColumnParses(cs[0], close);
      assert cs == [cs[0]];
    } else {
      var tail1 := PrintColumns(cs[1..]) + close;
      var tail := [Sym(Comma)] + tail1;
      assert PrintColumns(cs) + close == PrintColumn(cs[0]) + tail && tail[1..] == tail1;
      ColumnParses(cs[0], tail);
      ColumnsParse(cs[1..], rest);
      assert cs == [cs[0]] + cs[1..];
    }
  }

  lemma {:induction false} TypeParses(t: Type, rest: Toks)
    requires PrintableType(t)
    ensures ParseType(PrintType(t) + rest) == Ok((t, rest))
    decreases t.ArrayType?
  {
    hide Sym, ParseColumns, PrintColumns, ParseType;
    match t
    case IntType => IntParses(rest);
    case ArrayType(id) =>
      var close := [Sym(CloseBracket)] + rest;
      var ts := PrintType(t) + rest;
      assert ts[1..] == PrintType(Sample(id)) + close && close[1..] == rest;
      TypeParses(Sample(id), close);
      RuleArrayType(ts, Sample(id), close);
    case TupleType(cs) =>
      var ts := PrintType(t) + rest;
      assert ts[1..] == PrintColumns(cs) + ([Sym(CloseBrace)] + rest);
      ColumnsParse(cs, rest);
      RuleTupleType(ts, cs, rest);
  }

  lemma IntParses(rest: Toks)
    ensures ParseType(PrintType(IntType) + rest) == Ok((IntType, rest))
  {
    hide Sym, ParseColumns;
    IntSpelling();
    assert (PrintType(IntType) + rest)[1..] == rest;
  }

  lemma RuleArrayType(ts: Toks, t: Type, rest: Toks)
    requires ts != [] && ts[0].kind.OpenBracket? && ParseType(ts[1..]) == Ok((t, rest))
    requires rest != [] && rest[0].kind.CloseBracket?
    ensures ParseType(ts) == Ok((ArrayType(t.Id()), rest[1..]))
  {
    hide ParseColumns;
  }

  lemma RuleTupleType(ts: Toks, cs: seq<Column>, rest: Toks)
    requires ts != [] && ts[0].kind.OpenBrace? && ParseColumns(ts[1..]) == Ok((cs, rest))
    ensures ParseType(ts) == Ok((TupleType(cs), rest))
  {
    hide ParseColumns;
  }

  lemma IntSpelling()
    ensures Sym(KwInt).text == "int"
  {
  }

  function PrintRowType(t: Type): Toks
    requires PrintableType(t)
  {
    [Sym(OpenAngle)] + (PrintType(t) + [Sym(CloseAngle)])
  }

  lemma RowTypeParses(t: Type, rest: Toks)
    requires PrintableType(t)
    ensures ParseRowType(PrintRowType(t) + rest) == Ok((t, rest))
  {
    hide Sym, ParseType, PrintType;
    var ts, close := PrintRowType(t) + rest, [Sym(CloseAngle)] + rest;
    assert ts[1..] == PrintType(t) + close && close[1..] == rest;
    TypeParses(t, close);
  }

  // Statements.

  /** Statements whose last part is an expression. */
  predicate EndsInExpr(s: Stmt) { s.Let? || s.ExprStmt? || s.Emit? || s.Insert? }

  predicate PrintableMaybe(e: MaybeExpr) { e.JustExpr? ==> Printable(e.e) }

  /** Statements the parser can produce: loops have a step, and inserted values start
      like a row. */
  predicate PrintableStmt(s: Stmt)
    decreases s, 1
  {
    match s
    case Block(ss) => PrintableStmts(ss)
    case Transaction(_, ss) => PrintableStmts(ss)
    case Let(ty, _, e) => (ty.JustType? ==> PrintableType(ty.t)) && Printable(e)
    case If(e, thn, els) => Printable(e) && PrintableStmts(thn) && (els.ElseBlock? ==> PrintableStmts(els.stmts))
    case For(init, test, every, body) =>
      && (init.JustStmt? ==> PrintableStmt(init.s)) && PrintableMaybe(test)
      && every.JustExpr? && PrintableMaybe(every) && PrintableStmts(body)
    case Jump(_) => true
    case Emit(e) => Printable(e)
    case ExprStmt(e) => Printable(e)
    case Define(t, _) => t.JustType? && t.t.TupleType? && PrintableType(t.t)
    case DefineTuple(_, t) => t.TupleType? && PrintableType(t)
    case Insert(_, e) => Printable(e) && KindAt(Print(e)) == OpenBrace
    case Scan(_, _, body) => PrintableStmts(body)
  }

  predicate PrintableStmts(ss: seq<Stmt>)
    decreases ss, 0
  {
    ss != [] ==> PrintableStmt(ss[0]) && PrintableStmts(ss[1..])
  }

  /** Nowhere inside is a statement that ends in an expression followed by one that
      starts with `(` or `[`. */
  predicate Separate(s: Stmt)
    decreases s, 1
  {
    match s
    case Block(ss) => SeparateAll(ss)
    case Transaction(_, ss) => SeparateAll(ss)
    case If(_, thn, els) => SeparateAll(thn) && (els.ElseBlock? ==> SeparateAll(els.stmts))
    case For(init, _, _, body) => (init.JustStmt? ==> Separate(init.s)) && SeparateAll(body)
    case Scan(_, _, body) => SeparateAll(body)
    case _ => true
  }

  predicate SeparateAll(ss: seq<Stmt>)
    decreases ss, 0
  {
    ss != [] ==> Separate(ss[0]) && SeparateAll(ss[1..]) && (|ss| > 1 ==> Apart(ss[0], ss[1]))
  }

  predicate Apart(s: Stmt, t: Stmt) { EndsInExpr(s) ==> !OpensBracket(t) }

  /** Whether a statement is printed with `(` or `[` first. */
  predicate OpensBracket(t: Stmt) {
    && t.ExprStmt? && Printable(t.value)
    && (KindAt(PrintExprStmt(t.value)) == OpenParen || KindAt(PrintExprStmt(t.value)) == OpenBracket)
  }

  /** An expression as a statement; in parentheses if it would start like a block
      or with `&`. */
  function PrintExprStmt(e: Expr): Toks
    requires Printable(e)
  {
    if StartsExpr(KindAt(Print(e))) then Print(e) else [Sym(OpenParen)] + (Print(e) + [Sym(CloseParen)])
  }

  lemma ExprStmtStarts(e: Expr)
    requires Printable(e)
    ensures PrintExprStmt(e) != [] && StartsExpr(PrintExprStmt(e)[0].kind)
  {
    hide Sym, Print;
    PrintStarts(e);
  }

  function PrintStmt(s: Stmt): Toks
    requires PrintableStmt(s)
    decreases s, 1
  {
    match s
    case Block(ss) => PrintBlock(ss)
    case Transaction(iso, ss) => [Sym(KwTransaction), WordToken(iso)] + PrintBlock(ss)
    case If(e, thn, els) => [Sym(KwIf)] + (Print(e) + (PrintBlock(thn) + PrintElse(els)))
    case For(init, test, every, body) =>
      [Sym(KwFor)] + (PrintInit(init) + (PrintHeader(test, every) + PrintBlock(body)))
    case Scan(x, row, body) => [Sym(KwScan), Ident(x), Sym(Comma), Ident(row)] + PrintBlock(body)
    case _ => PrintFlat(s)
  }

  /** Statements without inner statements. */
  predicate IsFlat(s: Stmt) { s.Let? || s.Jump? || s.Emit? || s.ExprStmt? || s.Define? || s.DefineTuple? || s.Insert? }

  function PrintFlat(s: Stmt): Toks
    requires PrintableStmt(s) && IsFlat(s)
  {
    match s
    case Let(ty, x, e) =>
      [Sym(KwLet)] + ((if ty.JustType? then PrintRowType(ty.t) else []) + ([Ident(x), Sym(EqualSign)] + Print(e)))
    case Jump(k) => [Sym(if k.BreakJump? then KwBreak else KwContinue)]
    case Emit(e) => [Sym(KwEmit)] + Print(e)
    case ExprStmt(e) => PrintExprStmt(e)
    case Define(t, x) => [Sym(KwDefine)] + (PrintRowType(t.t) + [Ident(x)])
    case DefineTuple(x, t) => [Sym(KwTuple), Ident(x)] + PrintType(t)
    case Insert(x, e) => [Sym(KwInsert), Ident(x)] + Print(e)
  }

  function PrintElse(els: Else): Toks
    requires els.ElseBlock? ==> PrintableStmts(els.stmts)
    decreases els
  {
    if els.NoElse? then [] else [Sym(KwElse)] + PrintBlock(els.stmts)
  }

  function PrintInit(init: MaybeStmt): Toks
    requires init.JustStmt? ==> PrintableStmt(init.s)
    decreases init
  {
    if init.JustStmt? then PrintStmt(init.s) else []
  }

  function PrintMaybe(e: MaybeExpr): Toks
    requires PrintableMaybe(e)
  {
    if e.JustExpr? then Print(e.e) else []
  }

  function PrintHeader(test: MaybeExpr, every: MaybeExpr): Toks
    requires PrintableMaybe(test) && PrintableMaybe(every)
  {
    [Sym(Semicolon)] + (PrintMaybe(test) + ([Sym(Semicolon)] + PrintMaybe(every)))
  }

  function PrintBlock(ss: seq<Stmt>): Toks
    requires PrintableStmts(ss)
    decreases ss, 1
  {
    [Sym(OpenBrace)] + (PrintStmts(ss) + [Sym(CloseBrace)])
  }

  function PrintStmts(ss: seq<Stmt>): Toks
    requires PrintableStmts(ss)
    decreases ss, 0
  {
    if ss == [] then [] else PrintStmt(ss[0]) + PrintStmts(ss[1..])
  }

  /** What may follow a printed statement. */
  predicate Follows(s: Stmt, rest: Toks) {
    && (EndsInExpr(s) ==> Stops(rest))
    && (s.If? && s.els.NoElse? ==> KindAt(rest) != KwElse)
  }

  predicate StartsStmt(k: TokenType) {
    k.OpenBrace? || k.KwTransaction? || k.KwLet? || k.KwIf? || k.KwFor? || k.KwDefine? || k.KwEmit? || k.KwInsert?
    || k.KwScan? || k.KwBreak? || k.KwContinue? || k.KwTuple?
  }

  lemma StmtStarts(s: Stmt)
    requires PrintableStmt(s)
    ensures PrintStmt(s) != [] && (s.ExprStmt? || StartsStmt(PrintStmt(s)[0].kind))
  {
    hide Sym, Print, PrintableStmts, PrintStmts, PrintRowType, PrintType, WordToken, PrintExprStmt;
    if s.ExprStmt? { ExprStmtStarts(s.value); }
  }

  lemma KindFacts(k: TokenType)
    requires StartsStmt(k) || StartsExpr(k)
    ensures !k.CloseBrace? && !k.Semicolon? && !k.KwElse?
    ensures Continues(k) <==> k.OpenParen? || k.OpenBracket?
  {
  }

  /** A printed statement starts with a token that is neither `}`, `;`, `else` nor,
      except for brackets, a continuation of an expression. */
  lemma StmtSeparates(s: Stmt)
    requires PrintableStmt(s)
    ensures PrintStmt(s) != []
    ensures var k := PrintStmt(s)[0].kind;
            && !k.CloseBrace? && !k.Semicolon? && !k.KwElse?
            && (Continues(k) <==> OpensBracket(s))
  {
    hide Sym, Print, Continues, PrintableStmts, PrintExprStmt;
    StmtStarts(s);
    if s.ExprStmt? { ExprStmtStarts(s.value); }
    KindFacts(PrintStmt(s)[0].kind);
  }
}
