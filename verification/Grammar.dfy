/** The recursive-descent grammar as functions from the remaining tokens to a
    tree and the tokens left over. Exceptions become `Err`. */
module Grammar {
  import opened Ast
  import opened Tokens

  type Toks = seq<Token>

  const INT_MAX: int := 2147483647

  function DigitValue(c: char): int { c as int - '0' as int }

  predicate AllDigits(s: string) { forall i :: 0 <= i < |s| ==> '0' <= s[i] <= '9' }

  function Decimal(s: string): (n: nat)
    requires AllDigits(s)
  {
    if s == [] then 0 else 10 * Decimal(s[..|s| - 1]) + DigitValue(s[|s| - 1])
  }

  /** `std::stoi` on the text of a number token. */
  function Stoi(s: string): Result<int> {
    if s == [] || !AllDigits(s) then Err("invalid argument")
    else if Decimal(s) > INT_MAX then Err("out of range")
    else Ok(Decimal(s))
  }

  function KindAt(ts: Toks): TokenType { if ts == [] then Invalid else ts[0].kind }

  function Expect(ts: Toks, kind: TokenType): (r: Result<Toks>)
    ensures r.Ok? ==> |r.value| < |ts|
    ensures r.Ok? <==> ts != [] && ts[0].kind == kind
  {
    if ts == [] then Err("reached EOF of tokens")
    else if ts[0].kind != kind then Err("token is not expected")
    else Ok(ts[1..])
  }

  function BinaryOp(k: TokenType): Option<BinOp> {
    match k
    case PlusSign => Some(Plus)
    case MinusSign => Some(Minus)
    case Asterisk => Some(Multiple)
    case Slash => Some(Division)
    case Percent => Some(Modulo)
    case OpenAngle => Some(LessThan)
    case CloseAngle => Some(MoreThan)
    case EqualEqual => Some(Equal)
    case ExclamationEqual => Some(NotEqual)
    case OpenAngleEqual => Some(LessEqual)
    case CloseAngleEqual => Some(MoreEqual)
    case AndAnd => Some(CondAnd)
    case OrOr => Some(CondOr)
    case _ => None
  }

  /** Token types with which an expression goes on. */
  predicate Continues(k: TokenType) {
    k.OpenParen? || k.OpenBracket? || k.Period? || k.EqualSign? || BinaryOp(k).Some?
  }

  /** The tokens after a complete expression. */
  predicate Stops(ts: Toks) { ts == [] || !Continues(ts[0].kind) }

  function ParseExpr(ts: Toks): (r: Result<(Expr, Toks)>)
    ensures r.Ok? ==> |r.value.1| < |ts| && Stops(r.value.1)
    decreases |ts|, 1
  {
    var (e, rest) :- ParsePrimary(ts);
    Postfix(e, rest)
  }

  function ParsePrimary(ts: Toks): (r: Result<(Expr, Toks)>)
    ensures r.Ok? ==> |r.value.1| < |ts|
    decreases |ts|, 0
  {
    var k := KindAt(ts);
    if ts == [] then Err("reached EOF of tokens")
    else if k == Ampersand then
      var (e, rest) :- ParseExpr(ts[1..]);
      Ok((PointerOf(e), rest))
    else if k == OpenBrace then
      var (es, rest) :- ParseList(ts[1..], CloseBrace);
      Ok((Row(es), rest))
    else if k == OpenParen then
      var (e, rest) :- ParseExpr(ts[1..]);
      var rest1 :- Expect(rest, CloseParen);
      Ok((e, rest1))
    else if k == OpenBracket then
      var (es, rest) :- ParseList(ts[1..], CloseBracket);
      Ok((Array(es), rest))
    else if k == Identifier then Ok((Var(ts[0].text), ts[1..]))
    else if k == StringLiteral then Ok((Str(ts[0].text), ts[1..]))
    else if k == Number then
      var n :- Stoi(ts[0].text);
      Ok((Num(n), ts[1..]))
    else Err("unknown expr")
  }

  /** What follows a primary expression. There is no precedence: the right operand
      of an operator is a whole expression. */
  function Postfix(e: Expr, ts: Toks): (r: Result<(Expr, Toks)>)
    ensures r.Ok? ==> |r.value.1| <= |ts| && Stops(r.value.1)
    decreases |ts|, 1
  {
    if Stops(ts) then Ok((e, ts))
    else if BinaryOp(ts[0].kind).Some? then
      var (r, rest) :- ParseExpr(ts[1..]);
      Ok((Binary(BinaryOp(ts[0].kind).value, e, r), rest))
    else
      var (e1, rest) :- ParseSuffix(e, ts);
      Postfix(e1, rest)
  }

  /** A call, an index, a member or an assignment. */
  function ParseSuffix(e: Expr, ts: Toks): (r: Result<(Expr, Toks)>)
    requires ts != []
    ensures r.Ok? ==> |r.value.1| < |ts|
    decreases |ts|, 0
  {
    var k := ts[0].kind;
    if k == OpenParen then
      var (args, rest) :- ParseList(ts[1..], CloseParen);
      Ok((Call(e, args), rest))
    else if k == OpenBracket then
      var (i, rest) :- ParseExpr(ts[1..]);
      var rest1 :- Expect(rest, CloseBracket);
      Ok((Index(if e.Var? then JustExpr(e) else NoExpr, i), rest1))
    else if k == Period then
      if |ts| == 1 then Err("reached EOF of tokens") else Ok((Member(e, ts[1].text), ts[2..]))
    else if k == EqualSign then
      var (v, rest) :- ParseExpr(ts[1..]);
      Ok((Assign(e, v), rest))
    else Err("unknown expr")
  }

  /** Comma-separated expressions up to and with the closing token; a comma before
      it is accepted. */
  function ParseList(ts: Toks, close: TokenType): (r: Result<(seq<Expr>, Toks)>)
    ensures r.Ok? ==> |r.value.1| < |ts|
    decreases |ts|, 2
  {
    if KindAt(ts) == close && ts != [] then Ok(([], ts[1..]))
    else
      var (e, rest) :- ParseExpr(ts);
      if KindAt(rest) == close && rest != [] then Ok(([e], rest[1..]))
      else
        var rest1 :- Expect(rest, Comma);
        var (es, rest2) :- ParseList(rest1, close);
        Ok(([e] + es, rest2))
  }

  // Types.

  function ParseProps(ts: Toks, p: Props): (r: Result<(Props, Toks)>)
    ensures r.Ok? ==> |r.value.1| <= |ts|
    decreases |ts|
  {
    if ts == [] then Err("reached EOF of tokens")
    else if !ts[0].kind.Identifier? then Ok((p, ts))
    else if ts[0].text == "key" then ParseProps(ts[1..], p.(key := true))
    else if ts[0].text == "nullable" then ParseProps(ts[1..], p.(nullable := true))
    else if ts[0].text == "unique" then ParseProps(ts[1..], p.(unique := true))
    else Err("unknown property")
  }

  function ParseParam(ts: Toks): (r: Result<(MaybeParam, Toks)>)
    ensures r.Ok? ==> |r.value.1| <= |ts|
  {
    if KindAt(ts) != OpenParen then Ok((NoParam, ts))
    else
      var rest :- Expect(ts[1..], Number);
      var n :- Stoi(ts[1].text);
      var rest1 :- Expect(rest, CloseParen);
      Ok((JustParam(n), rest1))
  }

  function ParseColumn(ts: Toks): (r: Result<(Column, Toks)>)
    ensures r.Ok? ==> |r.value.1| < |ts|
  {
    if ts == [] then Err("reached EOF of tokens")
    else
      var (param, rest) :- ParseParam(ts[1..]);
      var rest1 :- Expect(rest, Colon);
      var rest2 :- Expect(rest1, Identifier);
      var (props, rest3) :- ParseProps(rest2, Props(false, false, false));
      Ok((Column(ts[0].text, param, rest1[0].text, props), rest3))
  }

  /** The columns after the opening brace. */
  function ParseColumns(ts: Toks): (r: Result<(seq<Column>, Toks)>)
    ensures r.Ok? ==> |r.value.1| < |ts|
    decreases |ts|
  {
    var (c, rest) :- ParseColumn(ts);
    if KindAt(rest) == Comma then
      var (cs, rest1) :- ParseColumns(rest[1..]);
      Ok(([c] + cs, rest1))
    else
      var rest1 :- Expect(rest, CloseBrace);
      Ok(([c], rest1))
  }

  function ParseType(ts: Toks): (r: Result<(Type, Toks)>)
    ensures r.Ok? ==> |r.value.1| < |ts|
    decreases |ts|
  {
    var k := KindAt(ts);
    if k == OpenBracket then
      var (t, rest) :- ParseType(ts[1..]);
      var rest1 :- Expect(rest, CloseBracket);
      Ok((ArrayType(t.Id()), rest1))
    else if k == OpenBrace then
      var (cs, rest) :- ParseColumns(ts[1..]);
      Ok((TupleType(cs), rest))
    else
      var rest :- Expect(ts, KwInt);
      if ts[0].text == "int" then Ok((IntType, rest)) else Err("type parser: unknown type")
  }

  function ParseRowType(ts: Toks): (r: Result<(Type, Toks)>)
    ensures r.Ok? ==> |r.value.1| < |ts|
  {
    var rest :- Expect(ts, OpenAngle);
    var (t, rest1) :- ParseType(rest);
    var rest2 :- Expect(rest1, CloseAngle);
    Ok((t, rest2))
  }

  // Statements.

  predicate StartsExpr(k: TokenType) {
    k.OpenBracket? || k.OpenParen? || k.Number? || k.StringLiteral? || k.Identifier?
  }

  /** One statement; no statement exactly at a closing brace, where the cursor
      stays. */
  function ParseStmt(ts: Toks): (r: Result<(MaybeStmt, Toks)>)
    ensures r.Ok? && r.value.0.JustStmt? ==> |r.value.1| < |ts|
    ensures r.Ok? && r.value.0.NoStmt? ==> r.value.1 == ts && ts != [] && ts[0].kind.CloseBrace?
    ensures ts != [] && ts[0].kind.CloseBrace? ==> r == Ok((NoStmt, ts))
    decreases |ts|, 1
  {
    var k := KindAt(ts);
    if ts == [] then Err("assertion failed")
    else if k == CloseBrace then Ok((NoStmt, ts))
    else if k == OpenBrace then
      var (ss, rest) :- ParseBlock(ts);
      Ok((JustStmt(Block(ss)), rest))
    else if k == KwTransaction then ParseTransaction(ts)
    else if k == KwLet then ParseLet(ts)
    else if k == KwIf then ParseIf(ts)
    else if k == KwFor then ParseFor(ts)
    else if k == KwScan then ParseScan(ts)
    else ParseSimple(ts)
  }

  /** Statements without inner statements. */
  function ParseSimple(ts: Toks): (r: Result<(MaybeStmt, Toks)>)
    requires ts != []
    ensures r.Ok? ==> r.value.0.JustStmt? && |r.value.1| < |ts|
  {
    var k := ts[0].kind;
    if k == KwDefine then
      var (t, rest) :- ParseRowType(ts[1..]);
      var rest1 :- Expect(rest, Identifier);
      Ok((JustStmt(Define(if t.TupleType? then JustType(t) else NoType, rest[0].text)), rest1))
    else if k == KwEmit then
      var (e, rest) :- ParseExpr(ts[1..]);
      Ok((JustStmt(Emit(e)), rest))
    else if k == KwInsert then
      var rest :- Expect(ts[1..], Identifier);
      var _ :- Expect(rest, OpenBrace);
      var (e, rest1) :- ParseExpr(rest);
      Ok((JustStmt(Insert(ts[1].text, e)), rest1))
    else if k == KwBreak then Ok((JustStmt(Jump(BreakJump)), ts[1..]))
    else if k == KwContinue then Ok((JustStmt(Jump(ContinueJump)), ts[1..]))
    else if k == KwTuple then
      var rest :- Expect(ts[1..], Identifier);
      var (t, rest1) :- ParseType(rest);
      if t.TupleType? then Ok((JustStmt(DefineTuple(ts[1].text, t)), rest1)) else Err("invalid define tuple")
    else if StartsExpr(k) then
      var (e, rest) :- ParseExpr(ts);
      Ok((JustStmt(ExprStmt(e)), rest))
    else Err("un-parsable token")
  }

  function ParseTransaction(ts: Toks): (r: Result<(MaybeStmt, Toks)>)
    requires ts != []
    ensures r.Ok? ==> r.value.0.JustStmt? && |r.value.1| < |ts|
    decreases |ts|, 0
  {
    if |ts| == 1 then Err("reached EOF of tokens")
    else if ts[1].kind.OpenBrace? then
      var (ss, rest) :- ParseBlock(ts[1..]);
      Ok((JustStmt(Transaction("SERIALIZABLE", ss)), rest))
    else
      var (ss, rest) :- ParseBlock(ts[2..]);
      Ok((JustStmt(Transaction(ts[1].text, ss)), rest))
  }

  function ParseLetType(ts: Toks): (r: Result<(MaybeType, Toks)>)
    ensures r.Ok? ==> |r.value.1| <= |ts|
  {
    if KindAt(ts) == OpenAngle then
      var (t, rest) :- ParseRowType(ts);
      Ok((JustType(t), rest))
    else Ok((NoType, ts))
  }

  /** `name = expression`. */
  function ParseBinding(ts: Toks): (r: Result<((string, Expr), Toks)>)
    ensures r.Ok? ==> |r.value.1| < |ts|
  {
    var rest :- Expect(ts, Identifier);
    var rest1 :- Expect(rest, EqualSign);
    var (e, rest2) :- ParseExpr(rest1);
    Ok(((ts[0].text, e), rest2))
  }

  function ParseLet(ts: Toks): (r: Result<(MaybeStmt, Toks)>)
    requires ts != []
    ensures r.Ok? ==> r.value.0.JustStmt? && |r.value.1| < |ts|
  {
    var (t, rest) :- ParseLetType(ts[1..]);
    var ((x, e), rest1) :- ParseBinding(rest);
    Ok((JustStmt(Let(t, x, e)), rest1))
  }

  function ParseIf(ts: Toks): (r: Result<(MaybeStmt, Toks)>)
    requires ts != []
    ensures r.Ok? ==> r.value.0.JustStmt? && |r.value.1| < |ts|
    decreases |ts|, 0
  {
    var (e, rest) :- ParseExpr(ts[1..]);
    var (thn, rest1) :- ParseBlock(rest);
    if KindAt(rest1) == KwElse then
      var (els, rest2) :- ParseBlock(rest1[1..]);
      Ok((JustStmt(If(e, thn, ElseBlock(els))), rest2))
    else Ok((JustStmt(If(e, thn, NoElse)), rest1))
  }

  /** An expression of a For header, absent at a semicolon. */
  function ParseHeader(ts: Toks): (r: Result<(MaybeExpr, Toks)>)
    ensures r.Ok? ==> |r.value.1| <= |ts|
  {
    if KindAt(ts) == Semicolon then Ok((NoExpr, ts))
    else
      var (e, rest) :- ParseExpr(ts);
      Ok((JustExpr(e), rest))
  }

  /** `;` condition `;` step, after the initializer. */
  function ParseForHeader(ts: Toks): (r: Result<((MaybeExpr, MaybeExpr), Toks)>)
    ensures r.Ok? ==> |r.value.1| <= |ts|
  {
    var rest :- Expect(ts, Semicolon);
    var (test, rest1) :- ParseHeader(rest);
    var rest2 :- Expect(rest1, Semicolon);
    var (every, rest3) :- ParseHeader(rest2);
    Ok(((test, every), rest3))
  }

  /** The initializer of a loop, absent at a semicolon. */
  function ParseInit(ts: Toks): (r: Result<(MaybeStmt, Toks)>)
    ensures r.Ok? ==> |r.value.1| <= |ts|
    decreases |ts|, 2
  {
    if ts == [] then Err("reached EOF of tokens")
    else if ts[0].kind.Semicolon? then Ok((NoStmt, ts))
    else ParseStmt(ts)
  }

  function ParseFor(ts: Toks): (r: Result<(MaybeStmt, Toks)>)
    requires ts != []
    ensures r.Ok? ==> r.value.0.JustStmt? && |r.value.1| < |ts|
    decreases |ts|, 0
  {
    var (init, rest) :- ParseInit(ts[1..]);
    var ((test, every), rest1) :- ParseForHeader(rest);
    var (body, rest2) :- ParseBlock(rest1);
    Ok((JustStmt(For(init, test, every, body)), rest2))
  }

  /** `table, row`. */
  function ParseScanHead(ts: Toks): (r: Result<((string, string), Toks)>)
    ensures r.Ok? ==> |r.value.1| < |ts|
  {
    var rest :- Expect(ts, Identifier);
    var rest1 :- Expect(rest, Comma);
    if rest1 == [] then Err("reached EOF of tokens") else Ok(((ts[0].text, rest1[0].text), rest1[1..]))
  }

  function ParseScan(ts: Toks): (r: Result<(MaybeStmt, Toks)>)
    requires ts != []
    ensures r.Ok? ==> r.value.0.JustStmt? && |r.value.1| < |ts|
    decreases |ts|, 0
  {
    var ((table, row), rest) :- ParseScanHead(ts[1..]);
    var (body, rest1) :- ParseBlock(rest);
    Ok((JustStmt(Scan(table, row, body)), rest1))
  }

  /** `{`, statements, `}`. */
  function ParseBlock(ts: Toks): (r: Result<(seq<Stmt>, Toks)>)
    ensures r.Ok? ==> |r.value.1| < |ts|
    decreases |ts|, 0
  {
    var rest :- Expect(ts, OpenBrace);
    ParseStmts(rest)
  }

  function ParseStmts(ts: Toks): (r: Result<(seq<Stmt>, Toks)>)
    ensures r.Ok? ==> |r.value.1| < |ts|
    decreases |ts|, 2
  {
    if ts == [] then Err("reached EOF of tokens")
    else if ts[0].kind.CloseBrace? then Ok(([], ts[1..]))
    else
      var (s, rest) :- ParseStmt(ts);
      var (ss, rest1) :- ParseStmts(rest);
      Ok(([s.s] + ss, rest1))
  }

  /** The top-level loop: a program, an exception, or no end. */
  datatype Outcome = Parsed(program: seq<Stmt>) | Failed(error: string) | Diverges

  function ParseProgram(ts: Toks): Outcome
    decreases |ts|
  {
    if ts == [] then Parsed([])
    else match ParseStmt(ts)
      case Err(e) => Failed(e)
      case Ok((NoStmt, _)) => Diverges
      case Ok((JustStmt(s), rest)) =>
        match ParseProgram(rest)
        case Parsed(ss) => Parsed([s] + ss)
        case o => o
  }
}
