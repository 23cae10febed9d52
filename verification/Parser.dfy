/** The parser as it runs: recursive methods that move one shared cursor, with
    loops for lists, columns and blocks. Each is tied to its grammar function. */
module Parser {
  import opened Ast
  import opened Tokens
  import Grammar
  import Printer

  type Toks = Grammar.Toks

  /** What a parsing method returns and where it leaves the cursor; an exception
      leaves it anywhere. */
  ghost predicate Agrees<T(!new)>(r: Result<T>, rest: Toks, spec: Result<(T, Toks)>) {
    match spec
    case Err(e) => r == Err(e)
    case Ok((x, rest1)) => r == Ok(x) && rest == rest1
  }

  /** The parse of a list with elements in front of it. */
  ghost function After<T>(xs: seq<T>, spec: Result<(seq<T>, Toks)>): Result<(seq<T>, Toks)> {
    match spec
    case Err(e) => Err(e)
    case Ok((ys, rest)) => Ok((xs + ys, rest))
  }

  lemma AfterNone<T>(spec: Result<(seq<T>, Toks)>)
    ensures After([], spec) == spec
  {
    if spec.Ok? { assert [] + spec.value.0 == spec.value.0; }
  }

  lemma AfterOne<T>(xs: seq<T>, x: T, spec: Result<(seq<T>, Toks)>)
    ensures After(xs, After([x], spec)) == After(xs + [x], spec)
  {
    if spec.Ok? { assert xs + ([x] + spec.value.0) == xs + [x] + spec.value.0; }
  }

  class TokenStream {
    const tokens: Toks
    var idx: nat

    /** The cursor never passes the end. */
    ghost predicate Valid() reads this { idx <= |tokens| }

    ghost function Rest(): Toks
      requires Valid()
      reads this
    {
      tokens[idx..]
    }

    constructor (tokens: Toks)
      ensures Valid() && this.tokens == tokens && Rest() == tokens
    {
      this.tokens, idx := tokens, 0;
    }

    method Get() returns (r: Result<Token>)
      requires Valid()
      ensures r == if Rest() == [] then Err("reached EOF of tokens") else Ok(Rest()[0])
    {
      if |tokens| <= idx { return Err("reached EOF of tokens"); }
      return Ok(tokens[idx]);
    }

    method Next()
      requires Valid() && Rest() != []
      modifies this`idx
      ensures Valid() && idx == old(idx) + 1 && Rest() == old(Rest())[1..]
    {
      idx := idx + 1;
    }

    method HasNext() returns (b: bool)
      requires Valid()
      ensures b <==> Rest() != []
    {
      b := idx != |tokens|;
    }

    /** Check the current token and step over it. */
    method Expect(kind: TokenType) returns (r: Result<Token>)
      requires Valid()
      modifies this`idx
      ensures Valid() && old(idx) <= idx
      ensures Grammar.Expect(old(Rest()), kind).Err? ==> r == Err(Grammar.Expect(old(Rest()), kind).error)
      ensures Grammar.Expect(old(Rest()), kind).Ok? ==>
                r == Ok(old(Rest())[0]) && Rest() == Grammar.Expect(old(Rest()), kind).value && idx == old(idx) + 1
    {
      var t :- Get();
      if t.kind != kind { return Err("token is not expected"); }
      Next();
      return Ok(t);
    }

    method ParseExpr() returns (r: Result<Expr>)
      requires Valid()
      modifies this`idx
      ensures Valid() && old(idx) <= idx && Agrees(r, Rest(), Grammar.ParseExpr(old(Rest())))
      decreases |tokens| - idx, 1
    {
      hide Grammar.ParsePrimary, Grammar.Postfix, Grammar.Stops;
      var e :- ParsePrimary();
      r := ParsePostfix(e);
    }

    method ParsePrimary() returns (r: Result<Expr>)
      requires Valid()
      modifies this`idx
      ensures Valid() && old(idx) <= idx && Agrees(r, Rest(), Grammar.ParsePrimary(old(Rest())))
      ensures r.Ok? ==> old(idx) < idx
      decreases |tokens| - idx, 0
    {
      hide Grammar.ParseExpr, Grammar.ParseList, Grammar.Stops, Grammar.Stoi;
      var t :- Get();
      if t.kind == Ampersand {
        Next();
        var e :- ParseExpr();
        return Ok(PointerOf(e));
      } else if t.kind == OpenBrace {
        Next();
        var es :- ParseList(CloseBrace);
        return Ok(Row(es));
      } else if t.kind == OpenParen {
        Next();
        var e :- ParseExpr();
        var _ :- Expect(CloseParen);
        return Ok(e);
      } else if t.kind == OpenBracket {
        Next();
        var es :- ParseList(CloseBracket);
        return Ok(Array(es));
      } else if t.kind == Identifier {
        Next();
        return Ok(Var(t.text));
      } else if t.kind == StringLiteral {
        Next();
        return Ok(Str(t.text));
      } else if t.kind == Number {
        var n :- Grammar.Stoi(t.text);
        Next();
        return Ok(Num(n));
      }
      return Err("unknown expr");
    }

    method ParsePostfix(e: Expr) returns (r: Result<Expr>)
      requires Valid()
      modifies this`idx
      ensures Valid() && old(idx) <= idx && Agrees(r, Rest(), Grammar.Postfix(e, old(Rest())))
      decreases |tokens| - idx, 2
    {
      hide Grammar.ParseExpr, Grammar.ParseSuffix, Grammar.BinaryOp;
      var more := HasNext();
      if !more { return Ok(e); }
      var t := tokens[idx];
      if !Grammar.Continues(t.kind) { return Ok(e); }
      var op := Grammar.BinaryOp(t.kind);
      if op.Some? {
        Next();
        var rhs :- ParseExpr();
        return Ok(Binary(op.value, e, rhs));
      }
      var e1 :- ParseSuffix(e);
      r := ParsePostfix(e1);
    }

    method ParseSuffix(e: Expr) returns (r: Result<Expr>)
      requires Valid() && Rest() != []
      modifies this`idx
      ensures Valid() && old(idx) <= idx && Agrees(r, Rest(), Grammar.ParseSuffix(e, old(Rest())))
      ensures r.Ok? ==> old(idx) < idx
      decreases |tokens| - idx, 1
    {
      hide Grammar.ParseExpr, Grammar.ParseList, Grammar.Stops;
      var t := tokens[idx];
      if t.kind == OpenParen {
        Next();
        var args :- ParseList(CloseParen);
        return Ok(Call(e, args));
      } else if t.kind == OpenBracket {
        r := ParseIndex(e);
      } else if t.kind == Period {
        Next();
        var m :- Get();
        Next();
        return Ok(Member(e, m.text));
      } else if t.kind == EqualSign {
        Next();
        var v :- ParseExpr();
        return Ok(Assign(e, v));
      } else {
        return Err("unknown expr");
      }
    }

    /** `[` index `]`; the indexed expression is kept only if it is a variable. */
    method ParseIndex(e: Expr) returns (r: Result<Expr>)
      requires Valid() && Rest() != [] && Rest()[0].kind == OpenBracket
      modifies this`idx
      ensures Valid() && old(idx) <= idx && Agrees(r, Rest(), Grammar.ParseSuffix(e, old(Rest())))
      ensures r.Ok? ==> old(idx) < idx
      decreases |tokens| - idx, 0
    {
      hide Grammar.ParseExpr, Grammar.Stops;
      Next();
      var i :- ParseExpr();
      var _ :- Expect(CloseBracket);
      return Ok(Index(if e.Var? then JustExpr(e) else NoExpr, i));
    }

    /** One round of a list loop: an element, its comma unless the list ends behind
        it, and the test whether there is another round. */
    method ParseElement(close: TokenType) returns (r: Result<(Expr, bool)>)
      requires Valid()
      modifies this`idx
      ensures Valid() && old(idx) <= idx && Agrees(r, Rest(), Element(old(Rest()), close))
      ensures r.Ok? ==> old(idx) < idx
      decreases |tokens| - idx, 2
    {
      hide Grammar.ParseExpr, Grammar.Stops;
      var e :- ParseExpr();
      var t :- Get();
      if t.kind == close { return Ok((e, false)); }
      var _ :- Expect(Comma);
      t :- Get();
      return Ok((e, t.kind != close));
    }

    /** Arguments, row elements and array elements. */
    method ParseList(close: TokenType) returns (r: Result<seq<Expr>>)
      requires Valid()
      modifies this`idx
      ensures Valid() && old(idx) <= idx && Agrees(r, Rest(), Grammar.ParseList(old(Rest()), close))
      decreases |tokens| - idx, 3
    {
      hide Grammar.ParseList, Element, After;
      ghost var spec := Grammar.ParseList(Rest(), close);
      ListStarts(Rest(), close);
      var t :- Get();
      var es, more := [], t.kind != close;
      while more
        invariant Valid() && old(idx) <= idx && Rest() != [] && (more <==> Rest()[0].kind != close)
        invariant spec == if more then After(es, Grammar.ParseList(Rest(), close)) else Ok((es, Rest()[1..]))
        decreases |tokens| - idx
      {
        ListGoesOn(Rest(), close, es);
        var el :- ParseElement(close);
        es, more := es + [el.0], el.1;
      }
      Next();
      return Ok(es);
    }

    // Types.

    method ParseProps() returns (r: Result<Props>)
      requires Valid()
      modifies this`idx
      ensures Valid() && old(idx) <= idx
              && Agrees(r, Rest(), Grammar.ParseProps(old(Rest()), Props(false, false, false)))
    {
      var p := Props(false, false, false);
      var t :- Get();
      while t.kind == Identifier
        invariant Valid() && old(idx) <= idx && Rest() != [] && t == Rest()[0]
        invariant Grammar.ParseProps(Rest(), p) == Grammar.ParseProps(old(Rest()), Props(false, false, false))
        decreases |tokens| - idx
      {
        if t.text == "key" { p := p.(key := true); }
        else if t.text == "nullable" { p := p.(nullable := true); }
        else if t.text == "unique" { p := p.(unique := true); }
        else { return Err("unknown property"); }
        Next();
        t :- Get();
      }
      return Ok(p);
    }

    method ParseParam() returns (r: Result<MaybeParam>)
      requires Valid()
      modifies this`idx
      ensures Valid() && old(idx) <= idx && Agrees(r, Rest(), Grammar.ParseParam(old(Rest())))
    {
      hide Grammar.Stoi;
      var more := HasNext();
      if !more || tokens[idx].kind != OpenParen { return Ok(NoParam); }
      Next();
      var t :- Expect(Number);
      var n :- Grammar.Stoi(t.text);
      var _ :- Expect(CloseParen);
      return Ok(JustParam(n));
    }

    method ParseColumn() returns (r: Result<Column>)
      requires Valid()
      modifies this`idx
      ensures Valid() && old(idx) <= idx && Agrees(r, Rest(), Grammar.ParseColumn(old(Rest())))
      ensures r.Ok? ==> old(idx) < idx
    {
      hide Grammar.ParseParam, Grammar.ParseProps;
      var ty :- Get();
      Next();
      var param :- ParseParam();
      var _ :- Expect(Colon);
      var name :- Expect(Identifier);
      var props :- ParseProps();
      return Ok(Column(ty.text, param, name.text, props));
    }

    /** Columns after the opening brace, up to and with the closing one. */
    method ParseColumns() returns (r: Result<seq<Column>>)
      requires Valid()
      modifies this`idx
      ensures Valid() && old(idx) <= idx && Agrees(r, Rest(), Grammar.ParseColumns(old(Rest())))
    {
      hide Grammar.ParseColumn, Grammar.ParseColumns, After;
      ghost var spec := Grammar.ParseColumns(Rest());
      AfterNone(spec);
      var cs, more := [], true;
      while more
        invariant Valid() && old(idx) <= idx
        invariant spec == if more then After(cs, Grammar.ParseColumns(Rest())) else ColumnsEnd(cs, Rest())
        decreases more, |tokens| - idx
      {
        ColumnsGoOn(Rest(), cs);
        var c :- ParseColumn();
        cs := cs + [c];
        var t := HasNext();
        more := t && tokens[idx].kind == Comma;
        if more { Next(); }
      }
      var _ :- Expect(CloseBrace);
      return Ok(cs);
    }

    method ParseType() returns (r: Result<Type>)
      requires Valid()
      modifies this`idx
      ensures Valid() && old(idx) <= idx && Agrees(r, Rest(), Grammar.ParseType(old(Rest())))
      decreases |tokens| - idx
    {
      hide Grammar.ParseColumns;
      var t :- Get();
      if t.kind == OpenBracket {
        Next();
        var e :- ParseType();
        var _ :- Expect(CloseBracket);
        return Ok(ArrayType(e.Id()));
      } else if t.kind == OpenBrace {
        Next();
        var cs :- ParseColumns();
        return Ok(TupleType(cs));
      }
      var _ :- Expect(KwInt);
      return if t.text == "int" then Ok(IntType) else Err("type parser: unknown type");
    }

    method ParseRowType() returns (r: Result<Type>)
      requires Valid()
      modifies this`idx
      ensures Valid() && old(idx) <= idx && Agrees(r, Rest(), Grammar.ParseRowType(old(Rest())))
    {
      hide Grammar.ParseType;
      var _ :- Expect(OpenAngle);
      var t :- ParseType();
      var _ :- Expect(CloseAngle);
      return Ok(t);
    }

    // Statements.

    method ParseStmt() returns (r: Result<MaybeStmt>)
      requires Valid()
      modifies this`idx
      ensures Valid() && old(idx) <= idx && Agrees(r, Rest(), Grammar.ParseStmt(old(Rest())))
      decreases |tokens| - idx, 1
    {
      hide Grammar.ParseBlock, Grammar.ParseTransaction, Grammar.ParseLet, Grammar.ParseIf, Grammar.ParseFor,
           Grammar.ParseScan, Grammar.ParseSimple;
      var more := HasNext();
      if !more { return Err("assertion failed"); }
      var k := tokens[idx].kind;
      if k == CloseBrace { return Ok(NoStmt); }
      if k == OpenBrace {
        var ss :- ParseBlock();
        return Ok(JustStmt(Block(ss)));
      }
      if k == KwTransaction { r := ParseTransaction(); }
      else if k == KwLet { r := ParseLet(); }
      else if k == KwIf { r := ParseIf(); }
      else if k == KwFor { r := ParseFor(); }
      else if k == KwScan { r := ParseScan(); }
      else { r := ParseSimple(); }
    }

    method ParseSimple() returns (r: Result<MaybeStmt>)
      requires Valid() && Rest() != []
      modifies this`idx
      ensures Valid() && old(idx) <= idx && Agrees(r, Rest(), Grammar.ParseSimple(old(Rest())))
    {
      hide Grammar.ParseExpr, Grammar.ParseType, Grammar.ParseRowType, Grammar.Stops;
      var k := tokens[idx].kind;
      if k == KwDefine {
        Next();
        var t :- ParseRowType();
        var x :- Expect(Identifier);
        return Ok(JustStmt(Define(if t.TupleType? then JustType(t) else NoType, x.text)));
      } else if k == KwEmit {
        Next();
        var e :- ParseExpr();
        return Ok(JustStmt(Emit(e)));
      } else if k == KwInsert {
        Next();
        r := ParseInsert();
      } else if k == KwBreak || k == KwContinue {
        Next();
        return Ok(JustStmt(Jump(if k == KwBreak then BreakJump else ContinueJump)));
      } else if k == KwTuple {
        Next();
        var x :- Expect(Identifier);
        var t :- ParseType();
        return if t.TupleType? then Ok(JustStmt(DefineTuple(x.text, t))) else Err("invalid define tuple");
      } else if Grammar.StartsExpr(k) {
        var e :- ParseExpr();
        return Ok(JustStmt(ExprStmt(e)));
      } else {
        return Err("un-parsable token");
      }
    }

    /** An insertion, after its keyword. */
    method ParseInsert() returns (r: Result<MaybeStmt>)
      requires Valid() && 0 < idx && tokens[idx - 1].kind == KwInsert
      modifies this`idx
      ensures Valid() && old(idx) <= idx && Agrees(r, Rest(), Grammar.ParseSimple(tokens[old(idx) - 1..]))
    {
      hide Grammar.ParseExpr, Grammar.Stops;
      assert tokens[idx - 1..][1..] == Rest();
      var x :- Expect(Identifier);
      var t :- Get();
      if t.kind != OpenBrace { return Err("token is not expected"); }
      var e :- ParseExpr();
      return Ok(JustStmt(Insert(x.text, e)));
    }

    method ParseTransaction() returns (r: Result<MaybeStmt>)
      requires Valid() && Rest() != []
      modifies this`idx
      ensures Valid() && old(idx) <= idx && Agrees(r, Rest(), Grammar.ParseTransaction(old(Rest())))
      decreases |tokens| - idx, 0
    {
      hide Grammar.ParseBlock;
      Next();
      var t :- Get();
      var isolation := "SERIALIZABLE";
      if t.kind != OpenBrace {
        isolation := t.text;
        Next();
      }
      var ss :- ParseBlock();
      return Ok(JustStmt(Transaction(isolation, ss)));
    }

    method ParseLet() returns (r: Result<MaybeStmt>)
      requires Valid() && Rest() != []
      modifies this`idx
      ensures Valid() && old(idx) <= idx && Agrees(r, Rest(), Grammar.ParseLet(old(Rest())))
    {
      hide Grammar.ParseRowType, Grammar.ParseBinding;
      Next();
      var ty := NoType;
      var more := HasNext();
      if more && tokens[idx].kind == OpenAngle {
        var t :- ParseRowType();
        ty := JustType(t);
      }
      var b :- ParseBinding();
      return Ok(JustStmt(Let(ty, b.0, b.1)));
    }

    method ParseBinding() returns (r: Result<(string, Expr)>)
      requires Valid()
      modifies this`idx
      ensures Valid() && old(idx) <= idx && Agrees(r, Rest(), Grammar.ParseBinding(old(Rest())))
    {
      hide Grammar.ParseExpr, Grammar.Stops;
      var x :- Expect(Identifier);
      var _ :- Expect(EqualSign);
      var e :- ParseExpr();
      return Ok((x.text, e));
    }

    method ParseIf() returns (r: Result<MaybeStmt>)
      requires Valid() && Rest() != []
      modifies this`idx
      ensures Valid() && old(idx) <= idx && Agrees(r, Rest(), Grammar.ParseIf(old(Rest())))
      decreases |tokens| - idx, 0
    {
      hide Grammar.ParseExpr, Grammar.Stops, Grammar.ParseBlock;
      Next();
      var e :- ParseExpr();
      var thn :- ParseBlock();
      var more := HasNext();
      if more && tokens[idx].kind == KwElse {
        Next();
        var els :- ParseBlock();
        return Ok(JustStmt(If(e, thn, ElseBlock(els))));
      }
      return Ok(JustStmt(If(e, thn, NoElse)));
    }

    method ParseHeader() returns (r: Result<MaybeExpr>)
      requires Valid()
      modifies this`idx
      ensures Valid() && old(idx) <= idx && Agrees(r, Rest(), Grammar.ParseHeader(old(Rest())))
    {
      hide Grammar.ParseExpr, Grammar.Stops;
      var more := HasNext();
      if more && tokens[idx].kind == Semicolon { return Ok(NoExpr); }
      var e :- ParseExpr();
      return Ok(JustExpr(e));
    }

    method ParseForHeader() returns (r: Result<(MaybeExpr, MaybeExpr)>)
      requires Valid()
      modifies this`idx
      ensures Valid() && old(idx) <= idx && Agrees(r, Rest(), Grammar.ParseForHeader(old(Rest())))
    {
      hide Grammar.ParseHeader;
      var _ :- Expect(Semicolon);
      var test :- ParseHeader();
      var _ :- Expect(Semicolon);
      var every :- ParseHeader();
      return Ok((test, every));
    }

    method ParseInit() returns (r: Result<MaybeStmt>)
      requires Valid()
      modifies this`idx
      ensures Valid() && old(idx) <= idx && Agrees(r, Rest(), Grammar.ParseInit(old(Rest())))
      decreases |tokens| - idx, 2
    {
      hide Grammar.ParseStmt;
      var t :- Get();
      if t.kind == Semicolon { return Ok(NoStmt); }
      r := ParseStmt();
    }

    method ParseFor() returns (r: Result<MaybeStmt>)
      requires Valid() && Rest() != []
      modifies this`idx
      ensures Valid() && old(idx) <= idx && Agrees(r, Rest(), Grammar.ParseFor(old(Rest())))
      decreases |tokens| - idx, 0
    {
      hide Grammar.ParseInit, Grammar.ParseForHeader, Grammar.ParseBlock;
      Next();
      var init :- ParseInit();
      var h :- ParseForHeader();
      var body :- ParseBlock();
      return Ok(JustStmt(For(init, h.0, h.1, body)));
    }

    method ParseScan() returns (r: Result<MaybeStmt>)
      requires Valid() && Rest() != []
      modifies this`idx
      ensures Valid() && old(idx) <= idx && Agrees(r, Rest(), Grammar.ParseScan(old(Rest())))
      decreases |tokens| - idx, 0
    {
      hide Grammar.ParseBlock, Grammar.ParseScanHead;
      Next();
      var head :- ParseScanHead();
      var body :- ParseBlock();
      return Ok(JustStmt(Scan(head.0, head.1, body)));
    }

    method ParseScanHead() returns (r: Result<(string, string)>)
      requires Valid()
      modifies this`idx
      ensures Valid() && old(idx) <= idx && Agrees(r, Rest(), Grammar.ParseScanHead(old(Rest())))
    {
      var table :- Expect(Identifier);
      var _ :- Expect(Comma);
      var row :- Get();
      Next();
      return Ok((table.text, row.text));
    }

    method ParseBlock() returns (r: Result<seq<Stmt>>)
      requires Valid()
      modifies this`idx
      ensures Valid() && old(idx) <= idx && Agrees(r, Rest(), Grammar.ParseBlock(old(Rest())))
      decreases |tokens| - idx, 0
    {
      hide Grammar.ParseStmt, Grammar.ParseStmts, After;
      var _ :- Expect(OpenBrace);
      ghost var spec := Grammar.ParseStmts(Rest());
      var ss: seq<Stmt> := [];
      AfterNone(spec);
      StmtsEnd(Rest(), ss);
      var t :- Get();
      while t.kind != CloseBrace
        invariant Valid() && old(idx) < idx && Rest() != [] && t == Rest()[0]
        invariant spec == After(ss, Grammar.ParseStmts(Rest()))
        decreases |tokens| - idx
      {
        StmtsGoOn(Rest(), ss);
        var s :- ParseStmt();
        ss := ss + [s.s];
        StmtsEnd(Rest(), ss);
        t :- Get();
      }
      StmtsEnd(Rest(), ss);
      Next();
      return Ok(ss);
    }

    /** The top-level loop. At a closing brace the loop body changes nothing, so
        from there on the loop runs forever. */
    method ParseProgram() returns (r: Grammar.Outcome)
      requires Valid()
      modifies this`idx
      ensures Valid() && r == Grammar.ParseProgram(old(Rest()))
    {
      hide Grammar.ParseStmt;
      var ss: seq<Stmt> := [];
      ghost var spec := Grammar.ParseProgram(Rest());
      assert spec.Parsed? ==> [] + spec.program == spec.program;
      while idx != |tokens|
        invariant Valid()
        invariant spec == Behind(ss, Grammar.ParseProgram(Rest()))
        decreases |tokens| - idx
      {
        ProgramGoesOn(Rest(), ss);
        var entry := ParseStmt();
        if entry.Err? { return Grammar.Failed(entry.error); }
        if entry.value.NoStmt? { return Grammar.Diverges; }
        ss := ss + [entry.value.s];
      }
      assert ss + [] == ss;
      return Grammar.Parsed(ss);
    }
  }

  ghost function Element(ts: Toks, close: TokenType): (r: Result<((Expr, bool), Toks)>)
    ensures r.Ok? ==> r.value.1 != [] && (r.value.0.1 <==> r.value.1[0].kind != close)
  {
    var (e, rest) :- Grammar.ParseExpr(ts);
    if rest == [] then Err("reached EOF of tokens")
    else if rest[0].kind == close then Ok(((e, false), rest))
    else
      var rest1 :- Grammar.Expect(rest, Comma);
      if rest1 == [] then Err("reached EOF of tokens") else Ok(((e, rest1[0].kind != close), rest1))
  }

  lemma ListStarts(ts: Toks, close: TokenType)
    ensures ts == [] ==> Grammar.ParseList(ts, close) == Err("reached EOF of tokens")
    ensures ts != [] && ts[0].kind == close ==> Grammar.ParseList(ts, close) == Ok(([], ts[1..]))
    ensures ts != [] ==> Grammar.ParseList(ts, close) == After([], Grammar.ParseList(ts, close))
  {
    if ts == [] {
      assert Grammar.ParsePrimary(ts) == Err("reached EOF of tokens");
      assert Grammar.ParseExpr(ts) == Err("reached EOF of tokens");
    }
    AfterNone(Grammar.ParseList(ts, close));
  }

  lemma ListUnfolds(ts: Toks, close: TokenType)
    requires ts != [] && ts[0].kind != close
    ensures var el, spec := Element(ts, close), Grammar.ParseList(ts, close);
            if el.Err? then spec == Err(el.error)
            else if el.value.0.1 then spec == After([el.value.0.0], Grammar.ParseList(el.value.1, close))
            else spec == Ok(([el.value.0.0], el.value.1[1..]))
  {
    hide Grammar.ParseExpr, Grammar.ParseList, Grammar.Stops;
    var first := Grammar.ParseExpr(ts);
    ListFails(ts, close);
    if first.Ok? && first.value.1 != [] {
      var e, rest := first.value.0, first.value.1;
      if rest[0].kind == close {
        Printer.RuleListLast(ts, close, e, rest);
      } else if rest[0].kind == Comma {
        ListStarts(rest[1..], close);
        var more := Grammar.ParseList(rest[1..], close);
        if more.Ok? { Printer.RuleListMore(ts, close, e, rest, more.value.0, more.value.1); }
        assert [e] + [] == [e];
      }
    }
  }

  lemma ListFails(ts: Toks, close: TokenType)
    requires ts != [] && ts[0].kind != close
    ensures var first, spec := Grammar.ParseExpr(ts), Grammar.ParseList(ts, close);
            if first.Err? then spec == Err(first.error)
            else
              var rest := first.value.1;
              && (rest == [] ==> spec == Err("reached EOF of tokens"))
              && (rest != [] && rest[0].kind != close && rest[0].kind != Comma ==> spec == Err("token is not expected"))
              && (rest != [] && rest[0].kind != close && rest[0].kind == Comma &&
                  Grammar.ParseList(rest[1..], close).Err?
                  ==> spec == Err(Grammar.ParseList(rest[1..], close).error))
  {
    hide Grammar.ParseExpr, Grammar.Stops;
  }

  /** One round of the list loop. */
  lemma ListGoesOn(ts: Toks, close: TokenType, es: seq<Expr>)
    requires ts != [] && ts[0].kind != close
    ensures var el, spec := Element(ts, close), After(es, Grammar.ParseList(ts, close));
            if el.Err? then spec == Err(el.error)
            else if el.value.0.1 then spec == After(es + [el.value.0.0], Grammar.ParseList(el.value.1, close))
            else spec == Ok((es + [el.value.0.0], el.value.1[1..]))
  {
    hide Grammar.ParseList, Element;
    ListUnfolds(ts, close);
    var el := Element(ts, close);
    if el.Ok? {
      AfterOne(es, el.value.0.0, Grammar.ParseList(el.value.1, close));
    }
  }

  ghost function ColumnsEnd(cs: seq<Column>, ts: Toks): Result<(seq<Column>, Toks)> {
    var rest :- Grammar.Expect(ts, CloseBrace);
    Ok((cs, rest))
  }

  lemma ColumnsGoOn(ts: Toks, cs: seq<Column>)
    ensures var first, spec := Grammar.ParseColumn(ts), After(cs, Grammar.ParseColumns(ts));
            if first.Err? then spec == Err(first.error)
            else if Grammar.KindAt(first.value.1) == Comma then
              spec == After(cs + [first.value.0], Grammar.ParseColumns(first.value.1[1..]))
            else spec == ColumnsEnd(cs + [first.value.0], first.value.1)
  {
    hide Grammar.ParseColumn;
    var first := Grammar.ParseColumn(ts);
    if first.Ok? && Grammar.KindAt(first.value.1) == Comma {
      AfterOne(cs, first.value.0, Grammar.ParseColumns(first.value.1[1..]));
    }
  }

  lemma StmtsEnd(ts: Toks, ss: seq<Stmt>)
    ensures ts == [] ==> After(ss, Grammar.ParseStmts(ts)) == Err("reached EOF of tokens")
    ensures ts != [] && ts[0].kind.CloseBrace? ==> After(ss, Grammar.ParseStmts(ts)) == Ok((ss, ts[1..]))
  {
    assert ss + [] == ss;
  }

  lemma StmtsGoOn(ts: Toks, ss: seq<Stmt>)
    requires ts != [] && !ts[0].kind.CloseBrace?
    ensures var first, spec := Grammar.ParseStmt(ts), After(ss, Grammar.ParseStmts(ts));
            if first.Err? then spec == Err(first.error)
            else first.value.0.JustStmt? && spec == After(ss + [first.value.0.s], Grammar.ParseStmts(first.value.1))
  {
    hide Grammar.ParseStmt;
    var first := Grammar.ParseStmt(ts);
    if first.Ok? { AfterOne(ss, first.value.0.s, Grammar.ParseStmts(first.value.1)); }
  }

  ghost function Behind(ss: seq<Stmt>, o: Grammar.Outcome): Grammar.Outcome {
    if o.Parsed? then Grammar.Parsed(ss + o.program) else o
  }

  lemma ProgramGoesOn(ts: Toks, ss: seq<Stmt>)
    requires ts != []
    ensures var first, spec := Grammar.ParseStmt(ts), Behind(ss, Grammar.ParseProgram(ts));
            if first.Err? then spec == Grammar.Failed(first.error)
            else if first.value.0.NoStmt? then spec == Grammar.Diverges
            else spec == Behind(ss + [first.value.0.s], Grammar.ParseProgram(first.value.1))
  {
    hide Grammar.ParseStmt;
    var first := Grammar.ParseStmt(ts);
    if first.Ok? && first.value.0.JustStmt? {
      var o := Grammar.ParseProgram(first.value.1);
      if o.Parsed? { assert ss + ([first.value.0.s] + o.program) == ss + [first.value.0.s] + o.program; }
    }
  }
}
