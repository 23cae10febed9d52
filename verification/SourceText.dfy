/** Programs as source text: printing, white space, tokenizing and parsing
    together. */
module SourceText {
  import opened Ast
  import opened Tokens
  import opened Grammar
  import opened Printer
  import opened StmtPrinter
  import RunOn
  import Lexer
  import Layout

  ghost predicate Lexes(ts: Toks) { forall t :: t in ts ==> Layout.WellFormed(t) }

  /** Keywords the printer uses. */
  predicate IsKeyword(k: TokenType) {
    k.KwInt? || k.KwDefine? || k.KwLet? || k.KwTransaction? || k.KwIf? || k.KwElse? || k.KwFor? || k.KwEmit?
    || k.KwInsert? || k.KwScan? || k.KwBreak? || k.KwContinue? || k.KwTuple?
  }

  predicate IsReserved(k: TokenType) { IsKeyword(k) || k.KwType? || k.KwSerializable? }

  lemma DiffersAt(w: string, keyword: string, i: nat)
    requires |w| == |keyword| ==> i < |w| && Capital(w[i]) != keyword[i] as int
    ensures !Spells(w, keyword)
  {
  }

  predicate Lower(w: string) { forall i :: 0 <= i < |w| ==> 'a' <= w[i] <= 'z' }

  lemma LowerCase(w: string)
    requires Lower(w)
    ensures forall i :: 0 <= i < |w| ==> Capital(w[i]) == w[i] as int - 32 && Layout.IsLetter(w[i])
  {
  }

  function Capitals(k: TokenType): string
    requires IsReserved(k)
  {
    match k
    case KwType => "TYPE"
    case KwSerializable => "SERIALIZABLE"
    case KwInt => "INT"
    case KwDefine => "DEFINE"
    case KwLet => "LET"
    case KwTransaction => "TRANSACTION"
    case KwIf => "IF"
    case KwElse => "ELSE"
    case KwFor => "FOR"
    case KwEmit => "EMIT"
    case KwInsert => "INSERT"
    case KwScan => "SCAN"
    case KwBreak => "BREAK"
    case KwContinue => "CONTINUE"
    case KwTuple => "TUPLE"
  }

  /** Each letter is the capital or the small letter 32 places behind it. */
  predicate AnyCase(w: string, capitals: string) {
    |w| == |capitals| && forall i :: 0 <= i < |w| ==> w[i] == capitals[i] || w[i] as int == capitals[i] as int + 32
  }

  predicate Upper(w: string) { forall i :: 0 <= i < |w| ==> 'A' <= w[i] <= 'Z' }

  lemma CapitalsUpper(k: TokenType)
    requires IsReserved(k)
    ensures Upper(Capitals(k))
  {
    hide Upper, Capitals;
    if k.KwType? || k.KwInt? || k.KwLet? || k.KwIf? || k.KwElse? || k.KwFor? {
      ShortUpper(k);
    } else if k.KwEmit? || k.KwScan? || k.KwBreak? || k.KwTuple? || k.KwDefine? {
      MiddleUpper(k);
    } else {
      LongUpper(k);
    }
  }

  lemma ShortUpper(k: TokenType)
    requires k.KwType? || k.KwInt? || k.KwLet? || k.KwIf? || k.KwElse? || k.KwFor?
    ensures Upper(Capitals(k))
  {
  }

  lemma MiddleUpper(k: TokenType)
    requires k.KwEmit? || k.KwScan? || k.KwBreak? || k.KwTuple? || k.KwDefine?
    ensures Upper(Capitals(k))
  {
  }

  lemma LongUpper(k: TokenType)
    requires k.KwTransaction? || k.KwSerializable? || k.KwInsert? || k.KwContinue?
    ensures Upper(Capitals(k))
  {
  }

  lemma SpellsExactly(w: string, capitals: string)
    requires Upper(capitals)
    ensures Spells(w, capitals) <==> AnyCase(w, capitals)
  {
  }

  /** A word is read as a reserved word exactly if it spells it, in any letter case. */
  lemma KeywordAnyCase(w: string, k: TokenType)
    requires IsReserved(k)
    ensures WordToken(w) == Token(k, w) <==> AnyCase(w, Capitals(k))
  {
    hide Spells, ReservedType, AnyCase, Capitals, Upper;
    CapitalsUpper(k);
    SpellsExactly(w, Capitals(k));
    KeywordSpells(w, k);
  }

  lemma KeywordSpells(w: string, k: TokenType)
    requires IsReserved(k)
    ensures WordToken(w) == Token(k, w) <==> Spells(w, Capitals(k))
  {
    hide Spells, ReservedType;
    if Spells(w, Capitals(k)) {
      if |Capitals(k)| <= 4 { ShortAnyCase(w, k); } else { LongAnyCase(w, k); }
    }
    ReservedSpelled(w);
  }

  lemma ReservedSpelled(w: string)
    ensures var k := ReservedType(w); k.Invalid? || (IsReserved(k) && Spells(w, Capitals(k)))
  {
    hide Spells;
  }

  lemma ShortAnyCase(w: string, k: TokenType)
    requires IsReserved(k) && Spells(w, Capitals(k)) && |Capitals(k)| <= 4
    ensures ReservedType(w) == k
  {
    hide Capital;
    match k
    case KwLet => DiffersAt(w, "INT", 0);
    case KwElse => DiffersAt(w, "TYPE", 0);
    case KwFor => DiffersAt(w, "INT", 0); DiffersAt(w, "LET", 0);
    case KwEmit => DiffersAt(w, "TYPE", 0); DiffersAt(w, "ELSE", 1);
    case KwScan => DiffersAt(w, "TYPE", 0); DiffersAt(w, "ELSE", 0); DiffersAt(w, "EMIT", 0);
    case _ =>
  }

  lemma LongAnyCase(w: string, k: TokenType)
    requires IsReserved(k) && Spells(w, Capitals(k)) && |Capitals(k)| > 4
    ensures ReservedType(w) == k
  {
    hide Capital;
    match k
    case KwInsert => DiffersAt(w, "DEFINE", 0);
    case KwTuple => DiffersAt(w, "BREAK", 0);
    case _ =>
  }

  lemma KeywordLexes(k: TokenType)
    requires IsKeyword(k)
    ensures Layout.WellFormed(Sym(k))
  {
    hide Capital, ClassOf, WordToken, Sym, Spells, Capitals;
    var w := Sym(k).text;
    KeywordSpelled(k);
    LowerCase(w);
    KeywordSpells(w, k);
  }

  predicate SpelledLow(w: string, keyword: string) {
    w != [] && |w| == |keyword| && forall i :: 0 <= i < |w| ==>
        'a' <= w[i] <= 'z' && w[i] as int == keyword[i] as int + 32
  }

  lemma KeywordSpelled(k: TokenType)
    requires IsKeyword(k)
    ensures Sym(k).text != [] && Lower(Sym(k).text) && Spells(Sym(k).text, Capitals(k))
  {
    hide Sym, Capital;
    if |Capitals(k)| <= 4 {
      ShortSpelled(k);
    } else if |Capitals(k)| <= 5 || k.KwDefine? {
      MiddleSpelled(k);
    } else {
      LongSpelled(k);
    }
    LowerCase(Sym(k).text);
  }

  lemma ShortSpelled(k: TokenType)
    requires IsKeyword(k) && |Capitals(k)| <= 4
    ensures SpelledLow(Sym(k).text, Capitals(k))
  {
  }

  lemma MiddleSpelled(k: TokenType)
    requires k.KwBreak? || k.KwTuple? || k.KwDefine?
    ensures SpelledLow(Sym(k).text, Capitals(k))
  {
  }

  lemma LongSpelled(k: TokenType)
    requires k.KwInsert? || k.KwContinue? || k.KwTransaction?
    ensures SpelledLow(Sym(k).text, Capitals(k))
  {
  }

  predicate IsSymbol(k: TokenType) {
    k.OpenBrace? || k.CloseBrace? || k.OpenParen? || k.CloseParen? || k.OpenBracket? || k.CloseBracket? || k.Comma?
    || k.Colon? || k.Semicolon?
  }

  lemma SymbolLexes(k: TokenType)
    requires IsSymbol(k)
    ensures Layout.WellFormed(Sym(k))
  {
    hide Sym, SymbolType;
    SymbolRead(k);
  }

  lemma SymbolRead(k: TokenType)
    requires IsSymbol(k)
    ensures |Sym(k).text| == 1 && SymbolType(Sym(k).text[0]) == Ok(k) && Layout.IsSymbol(Sym(k).text[0])
  {
  }

  predicate IsOperator(k: TokenType) {
    || k.Period? || k.EqualSign? || k.Ampersand? || BinaryOp(k).Some?
    || k.PlusEqual? || k.MinusEqual? || k.AsteriskEqual? || k.SlashEqual? || k.PercentEqual?
  }

  lemma OperatorLexes(k: TokenType)
    requires IsOperator(k)
    ensures Layout.WellFormed(Sym(k))
  {
    hide OperatorType, Sym;
    OperatorSpelled(k);
    OperatorRead(k);
  }

  lemma OperatorSpelled(k: TokenType)
    requires IsOperator(k)
    ensures var w := Sym(k).text;
            && 1 <= |w| <= 2 && Layout.IsOperator(w[0]) && !Layout.IsSymbol(w[0])
            && (|w| == 2 ==> Layout.IsOperator(w[1]))
  {
  }

  lemma OperatorRead(k: TokenType)
    requires IsOperator(k)
    ensures OperatorType(Sym(k).text) == Ok(k)
  {
  }

  /** No two spellings of an operator: the one its token is printed with is the only
      one that is read as it. */
  lemma OperatorsExact(w: string, k: TokenType)
    requires w != [] && (forall i :: 0 <= i < |w| ==> Layout.IsOperator(w[i])) && !k.Invalid?
    ensures OperatorType(w) == Ok(k) <==> IsOperator(k) && w == Sym(k).text
  {
    hide OperatorType, Sym, IsOperator, Layout.IsOperator;
    if OperatorType(w) == Ok(k) { OperatorOnce(w, k); }
    if IsOperator(k) { OperatorRead(k); }
  }

  lemma OperatorOnce(w: string, k: TokenType)
    requires w != [] && (forall i :: 0 <= i < |w| ==> Layout.IsOperator(w[i])) && !k.Invalid?
    requires OperatorType(w) == Ok(k)
    ensures IsOperator(k) && w == Sym(k).text
  {
    hide Sym, SymbolType;
    if |w| == 1 { SingleOnce(w, k); } else { DoubleOnce(w, k); }
  }

  lemma SingleOnce(w: string, k: TokenType)
    requires |w| == 1 && Layout.IsOperator(w[0]) && SymbolType(w[0]) == Ok(k)
    ensures IsOperator(k) && w == Sym(k).text
  {
    hide Sym, SymbolType, IsOperator, Layout.IsOperator;
    SymbolSpelled(w[0], k);
    SymbolOperates(w[0], k);
    assert w == [w[0]];
  }

  lemma SymbolSpelled(c: char, k: TokenType)
    requires SymbolType(c) == Ok(k)
    ensures Sym(k).text == [c]
  {
  }

  lemma SymbolOperates(c: char, k: TokenType)
    requires SymbolType(c) == Ok(k) && Layout.IsOperator(c)
    ensures IsOperator(k)
  {
  }

  lemma DoubleOnce(w: string, k: TokenType)
    requires |w| > 1 && !k.Invalid? && OperatorType(w) == Ok(k)
    ensures IsOperator(k) && w == Sym(k).text
  {
  }

  lemma NumeralLexes(n: nat)
    ensures Layout.WellFormed(Token(Number, Numeral(n)))
  {
    hide Numeral;
    var s := Numeral(n);
  }

  // Names and strings that can be written down.

  /** Starts like a name and contains no white space, quote, symbol or operator. */
  predicate Word(x: string) {
    x != [] && Layout.IsLetter(x[0]) && forall i :: 0 <= i < |x| ==> Layout.InWord(x[i])
  }

  ghost predicate Reserved(x: string) { exists k :: IsReserved(k) && AnyCase(x, Capitals(k)) }

  ghost predicate Name(x: string) { Word(x) && !Reserved(x) }

  lemma ReservedExactly(x: string)
    ensures ReservedType(x).Invalid? <==> !Reserved(x)
  {
    hide ReservedType, AnyCase, Spells, Capitals, Upper;
    if Reserved(x) {
      var k :| IsReserved(k) && AnyCase(x, Capitals(k));
      KeywordAnyCase(x, k);
    }
    ReservedSpelled(x);
    var k := ReservedType(x);
    if !k.Invalid? {
      CapitalsUpper(k);
      SpellsExactly(x, Capitals(k));
    }
  }

  /** No symbol or operator is read as a word. */
  lemma NoWord(w: string, k: TokenType)
    requires w != [] && (k.Identifier? || IsReserved(k))
    ensures SymbolType(w[0]) != Ok(k) && OperatorType(w) != Ok(k) && !k.Number? && !k.StringLiteral?
  {
    hide SymbolType, OperatorType;
    NoSymbol(w[0], k);
    OperatorRange(w);
  }

  lemma OperatorRange(w: string)
    requires w != []
    ensures var r := OperatorType(w);
            if |w| == 1 then r == SymbolType(w[0])
            else r.Ok? && !r.value.Identifier? && !IsReserved(r.value)
  {
    hide SymbolType;
  }

  lemma NoSymbol(c: char, k: TokenType)
    requires k.Identifier? || IsReserved(k)
    ensures SymbolType(c) != Ok(k)
  {
  }

  /** The words are the texts of word tokens. */
  lemma WordsExactly(x: string)
    ensures Layout.WellFormed(WordToken(x)) <==> Word(x)
  {
    hide ReservedType, SymbolType, OperatorType, Layout.IsLetter, Layout.InWord, Layout.IsSymbol, Layout.IsOperator,
         Layout.IsDigit, Spells, Capitals;
    ReservedSpelled(x);
    if x != [] { NoWord(x, WordToken(x).kind); LettersApart(x[0]); }
  }

  /** The names are the texts of identifiers. */
  lemma NamesExactly(x: string)
    ensures Layout.WellFormed(Ident(x)) <==> Name(x)
  {
    hide ReservedType, Reserved, SymbolType, OperatorType, Layout.IsLetter, Layout.InWord, Layout.IsSymbol,
         Layout.IsOperator, Layout.IsDigit, Spells, Capitals;
    ReservedExactly(x);
    ReservedSpelled(x);
    if x != [] { NoWord(x, Identifier); LettersApart(x[0]); }
  }

  lemma LettersApart(c: char)
    ensures Layout.IsLetter(c) ==> !Layout.IsSymbol(c) && !Layout.IsOperator(c) && !Layout.IsDigit(c)
  {
  }

  ghost predicate WritableExpr(e: Expr)
    decreases e, 1
  {
    match e
    case Num(_) => true
    case Str(s) => '"' !in s
    case Var(x) => Name(x)
    case Binary(_, l, r) => WritableExpr(l) && WritableExpr(r)
    case Assign(t, v) => WritableExpr(t) && WritableExpr(v)
    case Call(f, args) => WritableExpr(f) && WritableAll(args)
    case Index(p, i) => (p.JustExpr? ==> WritableExpr(p.e)) && WritableExpr(i)
    case Member(b, m) => WritableExpr(b) && Name(m)
    case Row(es) => WritableAll(es)
    case Array(es) => WritableAll(es)
    case PointerOf(p) => WritableExpr(p)
  }

  ghost predicate WritableAll(es: seq<Expr>)
    decreases es, 0
  {
    es != [] ==> WritableExpr(es[0]) && WritableAll(es[1..])
  }

  ghost predicate WritableColumns(cs: seq<Column>) {
    forall i :: 0 <= i < |cs| ==> Word(cs[i].typeName) && Name(cs[i].name)
  }

  ghost predicate WritableType(t: Type) { t.TupleType? ==> WritableColumns(t.columns) }

  ghost predicate WritableStmt(s: Stmt)
    decreases s, 1
  {
    match s
    case Block(ss) => WritableStmts(ss)
    case Transaction(iso, ss) => Word(iso) && WritableStmts(ss)
    case Let(ty, x, e) => (ty.JustType? ==> WritableType(ty.t)) && Name(x) && WritableExpr(e)
    case If(e, thn, els) => WritableExpr(e) && WritableStmts(thn) && (els.ElseBlock? ==> WritableStmts(els.stmts))
    case For(init, test, every, body) =>
      && (init.JustStmt? ==> WritableStmt(init.s)) && (test.JustExpr? ==> WritableExpr(test.e))
      && (every.JustExpr? ==> WritableExpr(every.e)) && WritableStmts(body)
    case Jump(_) => true
    case Emit(e) => WritableExpr(e)
    case ExprStmt(e) => WritableExpr(e)
    case Define(t, x) => (t.JustType? ==> WritableType(t.t)) && Name(x)
    case DefineTuple(x, t) => Name(x) && WritableType(t)
    case Insert(x, e) => Name(x) && WritableExpr(e)
    case Scan(x, row, body) => Name(x) && Name(row) && WritableStmts(body)
  }

  ghost predicate WritableStmts(ss: seq<Stmt>)
    decreases ss, 0
  {
    ss != [] ==> WritableStmt(ss[0]) && WritableStmts(ss[1..])
  }

  // The printed tokens are tokens of the language.

  lemma Symbols()
    ensures forall k :: IsSymbol(k) ==> Layout.WellFormed(Sym(k))
    ensures forall k :: IsOperator(k) ==> Layout.WellFormed(Sym(k))
    ensures forall k :: IsKeyword(k) ==> Layout.WellFormed(Sym(k))
    ensures forall x :: Name(x) ==> Layout.WellFormed(Ident(x))
    ensures forall x :: Word(x) ==> Layout.WellFormed(WordToken(x))
  {
    hide Sym, IsSymbol, IsOperator, IsKeyword, Layout.WellFormed, Name, Word;
    forall x | Name(x) ensures Layout.WellFormed(Ident(x)) { NamesExactly(x); }
    forall x | Word(x) ensures Layout.WellFormed(WordToken(x)) { WordsExactly(x); }
    forall k | IsSymbol(k) ensures Layout.WellFormed(Sym(k)) { SymbolLexes(k); }
    forall k | IsOperator(k) ensures Layout.WellFormed(Sym(k)) { OperatorLexes(k); }
    forall k | IsKeyword(k) ensures Layout.WellFormed(Sym(k)) { KeywordLexes(k); }
  }

  lemma StringLexes(s: string)
    requires '"' !in s
    ensures Layout.WellFormed(Token(StringLiteral, s))
  {
  }

  lemma {:induction false} PrintLexes(e: Expr)
    requires Printable(e) && WritableExpr(e)
    ensures Lexes(Print(e)) && Lexes(PrintLeft(e))
    decreases e, 1
  {
    hide Sym, Layout.WellFormed, Numeral, BinaryOp, Name, Word;
    Symbols();
    match e
    case Num(n) => NumeralLexes(n);
    case Str(s) => StringLexes(s);
    case Var(_) =>
    case Binary(op, l, r) => PrintLexes(l); PrintLexes(r); assert IsOperator(OpKind(op));
    case Assign(t, v) => PrintLexes(t); PrintLexes(v);
    case Call(f, args) => PrintLexes(f); ListLexes(args);
    case Index(p, i) => PrintLexes(i);
    case Member(b, m) => PrintLexes(b);
    case Row(es) => ListLexes(es);
    case Array(es) => ListLexes(es);
    case PointerOf(p) => PrintLexes(p);
  }

  lemma {:induction false} ListLexes(es: seq<Expr>)
    requires PrintableAll(es) && WritableAll(es)
    ensures Lexes(PrintList(es))
    decreases es, 0
  {
    hide Sym, Layout.WellFormed, Print;
    Symbols();
    if es != [] {
      PrintLexes(es[0]);
      ListLexes(es[1..]);
    }
  }

  lemma LowerName(w: string)
    requires w != [] && Lower(w) && ReservedType(w).Invalid?
    ensures Name(w)
  {
    hide Capital, ReservedType, Reserved;
    LowerCase(w);
    ReservedExactly(w);
  }

  lemma PropertyNames()
    ensures Name("key") && Name("nullable") && Name("unique")
  {
    hide ReservedType, Name;
    KeyUnreserved();
    NullableUnreserved();
    UniqueUnreserved();
    LowerName("key"); LowerName("nullable"); LowerName("unique");
  }

  lemma KeyUnreserved()
    ensures ReservedType("key").Invalid?
  {
    DiffersAt("key", "INT", 0); DiffersAt("key", "LET", 0); DiffersAt("key", "FOR", 0);
  }

  lemma NullableUnreserved()
    ensures ReservedType("nullable").Invalid?
  {
    DiffersAt("nullable", "CONTINUE", 0);
  }

  lemma UniqueUnreserved()
    ensures ReservedType("unique").Invalid?
  {
    DiffersAt("unique", "DEFINE", 0); DiffersAt("unique", "INSERT", 0);
  }

  lemma ColumnLexes(c: Column)
    requires PrintableColumn(c) && Word(c.typeName) && Name(c.name)
    ensures Lexes(PrintColumn(c))
  {
    hide Sym, Layout.WellFormed, Numeral, WordToken, Name, Word;
    Symbols();
    PropertyNames();
    if c.param.JustParam? { NumeralLexes(c.param.p); }
  }

  lemma {:induction false} ColumnsLex(cs: seq<Column>)
    requires PrintableColumns(cs) && WritableColumns(cs)
    ensures Lexes(PrintColumns(cs))
  {
    hide Sym, Layout.WellFormed, PrintColumn, Word, Name;
    Symbols();
    ColumnLexes(cs[0]);
    if |cs| > 1 { ColumnsLex(cs[1..]); }
  }

  lemma {:induction false} TypeLexes(t: Type)
    requires PrintableType(t) && WritableType(t)
    ensures Lexes(PrintType(t)) && Lexes(PrintRowType(t))
  {
    hide Sym, Layout.WellFormed, PrintColumns, WritableColumns;
    Symbols();
    if t.TupleType? { ColumnsLex(t.columns); }
    if t.ArrayType? && t.elem.TupleId? {
      SampleWritable();
      ColumnsLex(Sample(TupleId).columns);
    }
  }

  lemma SampleWritable()
    ensures WritableColumns(Sample(TupleId).columns)
  {
    hide Layout.WellFormed, WordToken, Name, Word;
    IntWord();
    NameA();
  }

  lemma NameA()
    ensures Name("a")
  {
    hide ReservedType, Name;
    AUnreserved();
    LowerName("a");
  }

  lemma AUnreserved()
    ensures ReservedType("a").Invalid?
  {
    hide Capital;
  }

  lemma IntWord()
    ensures Word("int")
  {
  }

  lemma FlatLexes(s: Stmt)
    requires PrintableStmt(s) && IsFlat(s) && WritableStmt(s)
    ensures Lexes(PrintFlat(s))
  {
    hide Sym, Layout.WellFormed, Print, PrintType, PrintRowType, WritableType, Name, Word, WritableExpr, Printable;
    Symbols();
    match s
    case Let(ty, x, e) => PrintLexes(e); if ty.JustType? { TypeLexes(ty.t); }
    case Emit(e) => PrintLexes(e);
    case ExprStmt(e) => PrintLexes(e); assert IsSymbol(OpenParen) && IsSymbol(CloseParen);
    case Define(t, x) => TypeLexes(t.t);
    case DefineTuple(x, t) => TypeLexes(t);
    case Insert(x, e) => PrintLexes(e);
    case Jump(_) =>
  }

  lemma {:induction false} StmtLexes(s: Stmt)
    requires PrintableStmt(s) && WritableStmt(s)
    ensures Lexes(PrintStmt(s))
    decreases s, 2
  {
    hide Sym, Layout.WellFormed, Print, PrintFlat, PrintBlock, WordToken, PrintableStmts, WritableStmts, WritableExpr,
         Name, Word;
    Symbols();
    match s
    case Block(ss) => BlockLexes(ss);
    case Transaction(_, ss) => BlockLexes(ss);
    case If(e, thn, els) =>
      PrintLexes(e);
      BlockLexes(thn);
      if els.ElseBlock? { BlockLexes(els.stmts); }
    case For(init, test, every, body) =>
      if init.JustStmt? { StmtLexes(init.s); }
      if test.JustExpr? { PrintLexes(test.e); }
      PrintLexes(every.e);
      BlockLexes(body);
    case Scan(_, _, body) => BlockLexes(body);
    case _ => FlatLexes(s);
  }

  lemma {:induction false} BlockLexes(ss: seq<Stmt>)
    requires PrintableStmts(ss) && WritableStmts(ss)
    ensures Lexes(PrintBlock(ss))
    decreases ss, 1
  {
    hide Sym, Layout.WellFormed, PrintStmts;
    Symbols();
    StmtsLex(ss);
  }

  lemma {:induction false} StmtsLex(ss: seq<Stmt>)
    requires PrintableStmts(ss) && WritableStmts(ss)
    ensures Lexes(PrintStmts(ss))
    decreases ss, 0
  {
    hide Layout.WellFormed, PrintStmt, PrintableStmt, WritableStmt;
    if ss != [] {
      StmtLexes(ss[0]);
      StmtsLex(ss[1..]);
    }
  }

  /** The tokens of a writable program may be set apart by any white space. */
  lemma SpacedIsLayout(ss: seq<Stmt>, gaps: seq<string>)
    requires PrintableStmts(ss) && WritableStmts(ss) && |gaps| == |PrintStmts(ss)| + 1
    requires forall i :: 0 <= i < |gaps| ==> Layout.Blank(gaps[i])
    requires forall i :: 0 < i < |gaps| - 1 ==> gaps[i] != []
    ensures Layout.ValidLayout(gaps, PrintStmts(ss))
  {
    hide PrintStmts, PrintableStmts, WritableStmts, Layout.WellFormed, Layout.Blank;
    StmtsLex(ss);
  }

  /** The same from text: with any spaces, line ends and tabs, at least one between two
      tokens, a writable program is read back exactly when its statements are
      separate. */
  lemma SpacedRoundTrip(ss: seq<Stmt>, gaps: seq<string>)
    requires PrintableStmts(ss) && WritableStmts(ss) && |gaps| == |PrintStmts(ss)| + 1
    requires forall i, j :: 0 <= i < |gaps| && 0 <= j < |gaps[i]| ==> gaps[i][j] in {' ', '\n', '\t'}
    requires forall i :: 0 < i < |gaps| - 1 ==> gaps[i] != []
    ensures var ts := Lexer.Lex(Layout.Render(gaps, PrintStmts(ss)));
            ts.Ok? && (ParseProgram(ts.value) == Parsed(ss) <==> SeparateAll(ss))
  {
    hide PrintStmts, PrintableStmts, WritableStmts, ParseProgram, SeparateAll, Layout.ValidLayout, Lexer.Lex,
         Layout.Render;
    forall i | 0 <= i < |gaps| ensures Layout.Blank(gaps[i]) {}
    SpacedIsLayout(ss, gaps);
    SourceRoundTrip(ss, gaps);
  }

  /** An accepted text consists of its tokens and of spaces, line ends and tabs. */
  lemma OnlyWhiteSpaceIsLost(s: string) returns (gaps: seq<string>)
    requires Lexer.Lex(s).Ok?
    ensures |gaps| == |Lexer.Lex(s).value| + 1 && Layout.Render(gaps, Lexer.Lex(s).value) == s
    ensures forall i, j :: 0 <= i < |gaps| && 0 <= j < |gaps[i]| ==> gaps[i][j] in {' ', '\n', '\t'}
  {
    hide Lexer.Lex, Layout.Render, Layout.WellFormed, Layout.CanAbut;
    gaps := Layout.LexedIsLayout(s);
  }

  /** Tokenizing and parsing the text of a program, laid out in any way that keeps
      its tokens from merging, gives the program back exactly when its statements
      are separate. */
  lemma SourceRoundTrip(ss: seq<Stmt>, gaps: seq<string>)
    requires PrintableStmts(ss) && Layout.ValidLayout(gaps, PrintStmts(ss))
    ensures var ts := Lexer.Lex(Layout.Render(gaps, PrintStmts(ss)));
            ts.Ok? && (ParseProgram(ts.value) == Parsed(ss) <==> SeparateAll(ss))
  {
    hide PrintStmts, PrintableStmts, ParseProgram, SeparateAll, Layout.ValidLayout, Lexer.Lex, Layout.Render;
    LayoutLength(gaps, PrintStmts(ss));
    Layout.LexInvertsRender(gaps, PrintStmts(ss));
    RunOn.ProgramRoundTrip(ss);
  }

  lemma LayoutLength(gaps: seq<string>, ts: Toks)
    requires Layout.ValidLayout(gaps, ts)
    ensures |gaps| == |ts| + 1
  {
  }
}
