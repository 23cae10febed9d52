/** Token printing of trees, and the proof that parsing undoes it. */
module Printer {
  import opened Ast
  import opened Tokens
  import opened Grammar

  function Sym(kind: TokenType): (t: Token)
    ensures t.kind == kind
  {
    Token(kind,
          match kind
          case OpenBrace => "{" case CloseBrace => "}" case OpenParen => "(" case CloseParen => ")"
          case OpenBracket => "[" case CloseBracket => "]" case OpenAngle => "<" case CloseAngle => ">"
          case Comma => "," case Colon => ":" case Semicolon => ";" case Period => "." case EqualSign => "="
          case Ampersand => "&" case Asterisk => "*" case Slash => "/" case PlusSign => "+" case MinusSign => "-"
          case Percent => "%" case EqualEqual => "==" case ExclamationEqual => "!=" case OpenAngleEqual => "<="
          case PlusEqual => "+=" case MinusEqual => "-=" case AsteriskEqual => "*=" case SlashEqual => "/="
          case PercentEqual => "%=" case CloseAngleEqual => ">=" case AndAnd => "&&" case OrOr => "||"
          case KwInt => "int" case KwDefine => "define" case KwLet => "let" case KwTransaction => "transaction"
          case KwIf => "if" case KwElse => "else" case KwFor => "for" case KwEmit => "emit" case KwInsert => "insert"
          case KwScan => "scan" case KwBreak => "break" case KwContinue => "continue" case KwTuple => "tuple"
          case _ => "")
  }

  function OpKind(op: BinOp): (k: TokenType)
    ensures BinaryOp(k) == Some(op)
  {
    match op
    case Plus => PlusSign
    case Minus => MinusSign
    case Multiple => Asterisk
    case Division => Slash
    case Modulo => Percent
    case Equal => EqualEqual
    case NotEqual => ExclamationEqual
    case LessThan => OpenAngle
    case LessEqual => OpenAngleEqual
    case MoreThan => CloseAngle
    case MoreEqual => CloseAngleEqual
    case CondAnd => AndAnd
    case CondOr => OrOr
  }

  /** Each operator has one token type, and no other token type is an operator. */
  lemma OperatorTokens(k: TokenType, op: BinOp)
    ensures BinaryOp(k) == Some(op) <==> k == OpKind(op)
  {
  }

  /** What goes on with an expression: a bracket, a member, an assignment, an operator,
      and nothing else. */
  lemma ContinuesExactly(k: TokenType)
    ensures Continues(k) <==>
            k == OpenParen || k == OpenBracket || k == Period || k == EqualSign || exists op :: k == OpKind(op)
  {
    if BinaryOp(k).Some? { OperatorTokens(k, BinaryOp(k).value); }
  }

  function Digit(n: int): (c: char)
    requires 0 <= n < 10
    ensures '0' <= c <= '9' && DigitValue(c) == n
  {
    '0' + n as char
  }

  function Numeral(n: nat): (s: string)
    ensures s != [] && AllDigits(s) && Decimal(s) == n
  {
    if n < 10 then
      var s := [Digit(n)];
      assert s[..0] == [];
      s
    else
      var s := Numeral(n / 10) + [Digit(n % 10)];
      assert s[..|s| - 1] == Numeral(n / 10);
      s
  }

  /** Expressions that need no parentheses in front of a call, an index, a member,
      an assignment or an operator. */
  predicate IsAtomic(e: Expr) {
    !(e.Binary? || e.Assign? || e.PointerOf?)
  }

  /** Trees the printer covers: literals in range, and indexing only of variables,
      since the parser drops any other indexed expression. */
  predicate Printable(e: Expr)
    decreases e, 1
  {
    match e
    case Num(n) => 0 <= n < 0x8000_0000
    case Str(_) => true
    case Var(_) => true
    case Binary(_, l, r) => Printable(l) && Printable(r)
    case Assign(t, v) => Printable(t) && Printable(v)
    case Call(f, args) => Printable(f) && PrintableAll(args)
    case Index(p, i) => p.JustExpr? && p.e.Var? && Printable(i)
    case Member(b, _) => Printable(b)
    case Row(es) => PrintableAll(es)
    case Array(es) => PrintableAll(es)
    case PointerOf(p) => Printable(p)
  }

  predicate PrintableAll(es: seq<Expr>)
    decreases es, 0
  {
    es != [] ==> Printable(es[0]) && PrintableAll(es[1..])
  }

  function Print(e: Expr): Toks
    requires Printable(e)
    decreases e, if IsAtomic(e) then 3 else 2
  {
    match e
    case Binary(op, l, r) => PrintLeft(l) + [Sym(OpKind(op))] + Print(r)
    case Assign(t, v) => PrintLeft(t) + [Sym(EqualSign)] + Print(v)
    case PointerOf(p) => [Sym(Ampersand)] + Print(p)
    case _ => PrintLeft(e)
  }

  /** An expression as the left part of a larger one. */
  function PrintLeft(e: Expr): Toks
    requires Printable(e)
    decreases e, if IsAtomic(e) then 2 else 3
  {
    match e
    case Num(n) => [Token(Number, Numeral(n))]
    case Str(s) => [Token(StringLiteral, s)]
    case Var(x) => [Token(Identifier, x)]
    case Call(f, args) => PrintLeft(f) + [Sym(OpenParen)] + PrintList(args) + [Sym(CloseParen)]
    case Index(p, i) => [Token(Identifier, p.e.name), Sym(OpenBracket)] + Print(i) + [Sym(CloseBracket)]
    case Member(b, m) => PrintLeft(b) + [Sym(Period), Token(Identifier, m)]
    case Row(es) => [Sym(OpenBrace)] + PrintList(es) + [Sym(CloseBrace)]
    case Array(es) => [Sym(OpenBracket)] + PrintList(es) + [Sym(CloseBracket)]
    case _ => [Sym(OpenParen)] + Print(e) + [Sym(CloseParen)]
  }

  function PrintList(es: seq<Expr>): Toks
    requires PrintableAll(es)
    decreases es, 0
  {
    if es == [] then []
    else if |es| == 1 then Print(es[0])
    else Print(es[0]) + [Sym(Comma)] + PrintList(es[1..])
  }

  /** An expression starts with a token that is no closing bracket, no comma and
      no semicolon. */
  predicate StartsAny(k: TokenType) { StartsExpr(k) || k.OpenBrace? || k.Ampersand? }

  lemma {:induction false} PrintStarts(e: Expr)
    requires Printable(e)
    ensures Print(e) != [] && StartsAny(Print(e)[0].kind)
    ensures PrintLeft(e) != [] && StartsAny(PrintLeft(e)[0].kind) && !PrintLeft(e)[0].kind.Ampersand?
  {
    match e
    case Binary(_, l, _) => PrintStarts(l);
    case Assign(t, _) => PrintStarts(t);
    case Call(f, _) => PrintStarts(f);
    case Member(b, _) => PrintStarts(b);
    case _ =>
  }

  // The grammar, rule by rule.

  lemma RuleLeaf(ts: Toks, e: Expr)
    requires ts != []
    requires (ts[0] == Token(Identifier, if e.Var? then e.name else "") && e.Var?)
             || (ts[0] == Token(StringLiteral, if e.Str? then e.s else "") && e.Str?)
             || (e.Num? && 0 <= e.n < 0x8000_0000 && ts[0] == Token(Number, Numeral(e.n)))
    ensures ParseExpr(ts) == Postfix(e, ts[1..])
  {
    hide Postfix;
  }

  lemma RuleAmpersand(ts: Toks, e: Expr, rest: Toks)
    requires ts != [] && ts[0].kind.Ampersand? && ParseExpr(ts[1..]) == Ok((e, rest))
    ensures ParseExpr(ts) == Postfix(PointerOf(e), rest)
  {
    hide Postfix;
  }

  lemma RuleParen(ts: Toks, e: Expr, rest: Toks)
    requires ts != [] && ts[0].kind.OpenParen? && ParseExpr(ts[1..]) == Ok((e, rest))
    requires rest != [] && rest[0].kind.CloseParen?
    ensures ParseExpr(ts) == Postfix(e, rest[1..])
  {
    hide Postfix;
  }

  lemma RuleRow(ts: Toks, es: seq<Expr>, rest: Toks)
    requires ts != [] && ts[0].kind.OpenBrace? && ParseList(ts[1..], CloseBrace) == Ok((es, rest))
    ensures ParseExpr(ts) == Postfix(Row(es), rest)
  {
    hide Postfix, ParseList;
  }

  lemma RuleArray(ts: Toks, es: seq<Expr>, rest: Toks)
    requires ts != [] && ts[0].kind.OpenBracket? && ParseList(ts[1..], CloseBracket) == Ok((es, rest))
    ensures ParseExpr(ts) == Postfix(Array(es), rest)
  {
    hide Postfix, ParseList;
  }

  lemma RuleStop(e: Expr, ts: Toks)
    requires Stops(ts)
    ensures Postfix(e, ts) == Ok((e, ts))
  {
  }

  lemma RuleCall(f: Expr, ts: Toks, args: seq<Expr>, rest: Toks)
    requires ts != [] && ts[0].kind.OpenParen? && ParseList(ts[1..], CloseParen) == Ok((args, rest))
    ensures Postfix(f, ts) == Postfix(Call(f, args), rest)
  {
    hide ParseList;
    assert ParseSuffix(f, ts) == Ok((Call(f, args), rest));
  }

  lemma RuleIndex(v: Expr, ts: Toks, i: Expr, rest: Toks)
    requires ts != [] && ts[0].kind.OpenBracket? && ParseExpr(ts[1..]) == Ok((i, rest))
    requires rest != [] && rest[0].kind.CloseBracket?
    ensures Postfix(v, ts) == Postfix(Index(if v.Var? then JustExpr(v) else NoExpr, i), rest[1..])
  {
    hide ParseExpr;
    assert ParseSuffix(v, ts) == Ok((Index(if v.Var? then JustExpr(v) else NoExpr, i), rest[1..]));
  }

  lemma RuleMember(b: Expr, ts: Toks)
    requires |ts| >= 2 && ts[0].kind.Period?
    ensures Postfix(b, ts) == Postfix(Member(b, ts[1].text), ts[2..])
  {
    assert ParseSuffix(b, ts) == Ok((Member(b, ts[1].text), ts[2..]));
  }

  lemma RuleAssign(t: Expr, ts: Toks, v: Expr, rest: Toks)
    requires ts != [] && ts[0].kind.EqualSign? && ParseExpr(ts[1..]) == Ok((v, rest))
    ensures Postfix(t, ts) == Postfix(Assign(t, v), rest)
  {
    hide ParseExpr;
    assert ParseSuffix(t, ts) == Ok((Assign(t, v), rest));
  }

  lemma RuleBinary(l: Expr, ts: Toks, op: BinOp, r: Expr, rest: Toks)
    requires ts != [] && BinaryOp(ts[0].kind) == Some(op) && ParseExpr(ts[1..]) == Ok((r, rest))
    ensures Postfix(l, ts) == Ok((Binary(op, l, r), rest))
  {
    hide ParseExpr, BinaryOp;
  }

  lemma RuleListEnd(ts: Toks, close: TokenType)
    requires ts != [] && ts[0].kind == close
    ensures ParseList(ts, close) == Ok(([], ts[1..]))
  {
  }

  lemma RuleListLast(ts: Toks, close: TokenType, e: Expr, rest: Toks)
    requires ts != [] && ts[0].kind != close && ParseExpr(ts) == Ok((e, rest)) && rest != [] && rest[0].kind == close
    ensures ParseList(ts, close) == Ok(([e], rest[1..]))
  {
    hide ParseExpr;
  }

  lemma RuleListMore(ts: Toks, close: TokenType, e: Expr, rest: Toks, es: seq<Expr>, rest1: Toks)
    requires ts != [] && ts[0].kind != close && close != Comma && ParseExpr(ts) == Ok((e, rest))
    requires rest != [] && rest[0].kind.Comma? && ParseList(rest[1..], close) == Ok((es, rest1))
    ensures ParseList(ts, close) == Ok(([e] + es, rest1))
  {
    hide ParseExpr;
  }

  /** A left part is parsed and the rest is what follows it. */
  lemma {:induction false} LeftParses(e: Expr, rest: Toks)
    requires Printable(e)
    ensures ParseExpr(PrintLeft(e) + rest) == Postfix(e, rest)
    decreases e, if IsAtomic(e) then 2 else 4
  {
    hide Postfix, ParseExpr, ParseList, Sym, Numeral, BinaryOp;
    match e
    case Num(n) => RuleLeaf(PrintLeft(e) + rest, e); assert (PrintLeft(e) + rest)[1..] == rest;
    case Str(_) => RuleLeaf(PrintLeft(e) + rest, e); assert (PrintLeft(e) + rest)[1..] == rest;
    case Var(_) => RuleLeaf(PrintLeft(e) + rest, e); assert (PrintLeft(e) + rest)[1..] == rest;
    case Call(f, args) => CallParses(e, rest);
    case Index(_, _) => IndexParses(e, rest);
    case Member(_, _) => MemberParses(e, rest);
    case Row(_) => LiteralParses(e, rest);
    case Array(_) => LiteralParses(e, rest);
    case _ => ParenParses(e, rest);
  }

  lemma {:induction false} MemberParses(e: Expr, rest: Toks)
    requires Printable(e) && e.Member?
    ensures ParseExpr(PrintLeft(e) + rest) == Postfix(e, rest)
    decreases e, 1
  {
    hide Postfix, ParseExpr, Sym, BinaryOp;
    var tail := [Sym(Period), Token(Identifier, e.member)] + rest;
    assert PrintLeft(e) + rest == PrintLeft(e.base) + tail && tail[2..] == rest;
    LeftParses(e.base, tail);
    RuleMember(e.base, tail);
  }

  lemma {:induction false} LiteralParses(e: Expr, rest: Toks)
    requires Printable(e) && (e.Row? || e.Array?)
    ensures ParseExpr(PrintLeft(e) + rest) == Postfix(e, rest)
    decreases e, 1
  {
    hide Postfix, ParseExpr, ParseList, Sym, BinaryOp, PrintList;
    var ts := PrintLeft(e) + rest;
    if e.Row? {
      assert ts[1..] == PrintList(e.elements) + [Sym(CloseBrace)] + rest;
      ListParses(e.elements, CloseBrace, rest);
      RuleRow(ts, e.elements, rest);
    } else {
      assert ts[1..] == PrintList(e.elements) + [Sym(CloseBracket)] + rest;
      ListParses(e.elements, CloseBracket, rest);
      RuleArray(ts, e.elements, rest);
    }
  }

  lemma {:induction false} CallParses(e: Expr, rest: Toks)
    requires Printable(e) && e.Call?
    ensures ParseExpr(PrintLeft(e) + rest) == Postfix(e, rest)
    decreases e, 1
  {
    hide Postfix, ParseExpr, ParseList, Sym, BinaryOp;
    var tail1 := PrintList(e.args) + [Sym(CloseParen)] + rest;
    var tail := [Sym(OpenParen)] + tail1;
    assert PrintLeft(e) + rest == PrintLeft(e.callee) + tail && tail[1..] == tail1;
    LeftParses(e.callee, tail);
    ListParses(e.args, CloseParen, rest);
    RuleCall(e.callee, tail, e.args, rest);
  }

  lemma {:induction false} IndexParses(e: Expr, rest: Toks)
    requires Printable(e) && e.Index?
    ensures ParseExpr(PrintLeft(e) + rest) == Postfix(e, rest)
    decreases e, 1
  {
    hide Postfix, ParseExpr, ParseList, Sym, BinaryOp;
    var v := e.parent.e;
    var close := [Sym(CloseBracket)] + rest;
    var tail := [Sym(OpenBracket)] + (Print(e.idx) + close);
    var ts := PrintLeft(e) + rest;
    assert ts == [Token(Identifier, v.name)] + tail && ts[1..] == tail;
    assert tail[1..] == Print(e.idx) + close && close[1..] == rest;
    RuleLeaf(ts, v);
    StopsAt(CloseBracket, close);
    ExprParses(e.idx, close);
    RuleIndex(v, tail, e.idx, close);
  }

  lemma {:induction false} ParenParses(e: Expr, rest: Toks)
    requires Printable(e) && !IsAtomic(e)
    ensures ParseExpr(PrintLeft(e) + rest) == Postfix(e, rest)
    decreases e, 3
  {
    hide Postfix, ParseExpr, ParseList, Sym, BinaryOp, Print;
    var close := [Sym(CloseParen)] + rest;
    var ts := PrintLeft(e) + rest;
    assert ts == [Sym(OpenParen)] + (Print(e) + close);
    assert ts[1..] == Print(e) + close && close[1..] == rest;
    StopsAt(CloseParen, close);
    ExprParses(e, close);
    RuleParen(ts, e, close);
  }

  lemma StopsAt(k: TokenType, ts: Toks)
    requires ts != [] && ts[0].kind == k
    requires k.CloseParen? || k.CloseBrace? || k.CloseBracket? || k.Comma? || k.Semicolon? || k.OpenBrace?
    ensures Stops(ts)
  {
  }

  lemma {:induction false} BinaryParses(e: Expr, rest: Toks)
    requires Printable(e) && e.Binary? && Stops(rest)
    ensures ParseExpr(Print(e) + rest) == Ok((e, rest))
    decreases e, 1
  {
    hide Postfix, ParseExpr, ParseList, Sym, BinaryOp, Stops, PrintLeft;
    var tail := [Sym(OpKind(e.op))] + (Print(e.rhs) + rest);
    assert Print(e) + rest == PrintLeft(e.lhs) + tail && tail[1..] == Print(e.rhs) + rest;
    LeftParses(e.lhs, tail);
    ExprParses(e.rhs, rest);
    RuleBinary(e.lhs, tail, e.op, e.rhs, rest);
  }

  lemma {:induction false} AssignParses(e: Expr, rest: Toks)
    requires Printable(e) && e.Assign? && Stops(rest)
    ensures ParseExpr(Print(e) + rest) == Ok((e, rest))
    decreases e, 1
  {
    hide Postfix, ParseExpr, ParseList, Sym, BinaryOp, Stops, PrintLeft;
    var tail := [Sym(EqualSign)] + (Print(e.value) + rest);
    assert Print(e) + rest == PrintLeft(e.target) + tail && tail[1..] == Print(e.value) + rest;
    LeftParses(e.target, tail);
    ExprParses(e.value, rest);
    RuleAssign(e.target, tail, e.value, rest);
    RuleStop(e, rest);
  }

  /** Parsing a printed expression gives it back and stops right after it. */
  lemma {:induction false} ExprParses(e: Expr, rest: Toks)
    requires Printable(e) && Stops(rest)
    ensures ParseExpr(Print(e) + rest) == Ok((e, rest))
    decreases e, if IsAtomic(e) then 3 else 2
  {
    hide Postfix, ParseExpr, ParseList, Sym, BinaryOp, Stops, PrintLeft;
    RuleStop(e, rest);
    if e.Binary? {
      BinaryParses(e, rest);
    } else if e.Assign? {
      AssignParses(e, rest);
    } else if e.PointerOf? {
      assert (Print(e) + rest)[1..] == Print(e.pointee) + rest;
      ExprParses(e.pointee, rest);
      RuleAmpersand(Print(e) + rest, e.pointee, rest);
    } else {
      LeftParses(e, rest);
    }
  }

  lemma {:induction false} ListParses(es: seq<Expr>, close: TokenType, rest: Toks)
    requires PrintableAll(es) && (close.CloseParen? || close.CloseBrace? || close.CloseBracket?)
    ensures ParseList(PrintList(es) + [Sym(close)] + rest, close) == Ok((es, rest))
    decreases es, 0
  {
    hide ParseExpr, ParseList, Sym, Stops, Print;
    var ts := PrintList(es) + [Sym(close)] + rest;
    if es == [] {
      assert ts == [Sym(close)] + rest && ts[1..] == rest;
      RuleListEnd(ts, close);
    } else {
      PrintStarts(es[0]);
      if |es| == 1 {
        var tail := [Sym(close)] + rest;
        assert ts == Print(es[0]) + tail && tail[1..] == rest;
        StopsAt(close, tail);
        ExprParses(es[0], tail);
        RuleListLast(ts, close, es[0], tail);
        assert es == [es[0]];
      } else {
        var tail1 := PrintList(es[1..]) + [Sym(close)] + rest;
        var tail := [Sym(Comma)] + tail1;
        assert ts == Print(es[0]) + tail && tail[1..] == tail1;
        StopsAt(Comma, tail);
        ExprParses(es[0], tail);
        ListParses(es[1..], close, rest);
        RuleListMore(ts, close, es[0], tail, es[1..], rest);
        assert es == [es[0]] + es[1..];
      }
    }
  }
}
