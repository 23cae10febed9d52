/** How a flat chain of operators is read, and what the top-level loop does on
    every input. */
module FrontEnd {
  import opened Ast
  import opened Tokens
  import opened Grammar
  import opened Printer
  import opened Values
  import Semantics

  // Operators.

  /** Operands without parentheses, joined by operators. */
  predicate IsChain(es: seq<Expr>, ops: seq<BinOp>) {
    |es| == |ops| + 1 && forall i :: 0 <= i < |es| ==> Printable(es[i]) && IsAtomic(es[i])
  }

  function Flat(es: seq<Expr>, ops: seq<BinOp>): Toks
    requires IsChain(es, ops)
  {
    if ops == [] then PrintLeft(es[0]) else PrintLeft(es[0]) + [Sym(OpKind(ops[0]))] + Flat(es[1..], ops[1..])
  }

  /** The right-nested tree. */
  function Nest(es: seq<Expr>, ops: seq<BinOp>): Expr
    requires |es| == |ops| + 1
  {
    if ops == [] then es[0] else Binary(ops[0], es[0], Nest(es[1..], ops[1..]))
  }

  /** Whatever the operators are, a chain nests to the right. */
  lemma {:induction false} ChainNestsRight(es: seq<Expr>, ops: seq<BinOp>, rest: Toks)
    requires IsChain(es, ops) && Stops(rest)
    ensures ParseExpr(Flat(es, ops) + rest) == Ok((Nest(es, ops), rest))
    decreases |ops|
  {
    hide ParseExpr, Postfix, Sym, BinaryOp, Printable, PrintLeft, Stops;
    if ops == [] {
      LeftParses(es[0], rest);
      RuleStop(es[0], rest);
    } else {
      var tail := [Sym(OpKind(ops[0]))] + (Flat(es[1..], ops[1..]) + rest);
      assert Flat(es, ops) + rest == PrintLeft(es[0]) + tail && tail[1..] == Flat(es[1..], ops[1..]) + rest;
      LeftParses(es[0], tail);
      ChainNestsRight(es[1..], ops[1..], rest);
      RuleBinary(es[0], tail, ops[0], Nest(es[1..], ops[1..]), rest);
    }
  }

  /** The left-nested tree, which the documentation of the language assumes. */
  function NestLeft(es: seq<Expr>, ops: seq<BinOp>): Expr
    requires |es| == |ops| + 1
  {
    if ops == [] then es[0]
    else Binary(ops[|ops| - 1], NestLeft(es[..|es| - 1], ops[..|ops| - 1]), es[|es| - 1])
  }

  /** The parser agrees with the documentation exactly on chains of at most one
      operator. */
  lemma NestsLeftExactly(es: seq<Expr>, ops: seq<BinOp>)
    requires IsChain(es, ops)
    ensures ParseExpr(Flat(es, ops)) == Ok((NestLeft(es, ops), [])) <==> |ops| <= 1
  {
    hide ParseExpr, Flat, Printable;
    assert Flat(es, ops) + [] == Flat(es, ops);
    ChainNestsRight(es, ops, []);
    if |ops| == 1 {
      assert ops[1..] == [] && ops[..0] == [];
    } else if |ops| > 1 {
      assert NestLeft(es, ops).lhs.Binary? && !es[0].Binary?;
    }
  }

  /** The documentation gives `8 - 1 - 2` as 5; the code computes 9. */
  lemma DocumentedDifference(st: Semantics.State)
    ensures var es, ops := [Num(8), Num(1), Num(2)], [Minus, Minus];
            && IsChain(es, ops) && ParseExpr(Flat(es, ops)) == Ok((Nest(es, ops), []))
            && Semantics.Eval(Nest(es, ops), st) == Some((IntVal(9), st))
            && Semantics.Eval(NestLeft(es, ops), st) == Some((IntVal(5), st))
  {
    hide ParseExpr, Flat;
    var es, ops := [Num(8), Num(1), Num(2)], [Minus, Minus];
    assert Flat(es, ops) + [] == Flat(es, ops);
    ChainNestsRight(es, ops, []);
    assert es[1..] == [Num(1), Num(2)] && ops[1..] == [Minus] && es[1..][1..] == [Num(2)] && ops[1..][1..] == [];
    assert Nest(es[1..], ops[1..]) == Binary(Minus, Num(1), Num(2));
    assert es[..2] == [Num(8), Num(1)] && ops[..1] == [Minus] && es[..2][..1] == [Num(8)] && ops[..1][..0] == [];
    assert NestLeft(es[..2], ops[..1]) == Binary(Minus, Num(8), Num(1));
    Differences(st);
  }

  lemma Differences(st: Semantics.State)
    ensures Semantics.Eval(Binary(Minus, Num(8), Binary(Minus, Num(1), Num(2))), st) == Some((IntVal(9), st))
    ensures Semantics.Eval(Binary(Minus, Binary(Minus, Num(8), Num(1)), Num(2)), st) == Some((IntVal(5), st))
  {
    assert Semantics.Eval(Binary(Minus, Num(1), Num(2)), st) == Some((IntVal(-1), st));
    assert Semantics.Eval(Binary(Minus, Num(8), Num(1)), st) == Some((IntVal(7), st));
  }

  // The top-level loop.

  /** The statements and the remaining tokens after `n` rounds of the loop. A null
      statement adds nothing. */
  function Rounds(ts: Toks, n: nat): Result<(seq<Stmt>, Toks)>
    decreases n
  {
    hide ParseStmt;
    if n == 0 || ts == [] then Ok(([], ts))
    else
      var (s, rest) :- ParseStmt(ts);
      var (ss, rest1) :- Rounds(rest, n - 1);
      Ok((if s.JustStmt? then [s.s] + ss else ss, rest1))
  }

  ghost predicate Ends(ts: Toks, n: nat) { Rounds(ts, n).Err? || Rounds(ts, n).value.1 == [] }

  lemma {:induction false} StuckAtBrace(ts: Toks, n: nat)
    requires ts != [] && ts[0].kind.CloseBrace?
    ensures Rounds(ts, n) == Ok(([], ts))
  {
    hide ParseStmt;
    if n > 0 { StuckAtBrace(ts, n - 1); }
  }

  /** A parsed or failed program ends after finitely many rounds with that result;
      at a stray closing brace no number of rounds suffices. */
  lemma {:induction false} LoopOutcome(ts: Toks) returns (n: nat)
    ensures ParseProgram(ts).Parsed? ==> Rounds(ts, n) == Ok((ParseProgram(ts).program, []))
    ensures ParseProgram(ts).Failed? ==> Rounds(ts, n) == Err(ParseProgram(ts).error)
    ensures ParseProgram(ts).Diverges? ==> forall k :: !Ends(ts, k)
    decreases |ts|
  {
    hide ParseStmt;
    n := 0;
    if ts != [] {
      n := 1;
      var first := ParseStmt(ts);
      if first.Ok? && first.value.0.NoStmt? {
        forall k: nat ensures !Ends(ts, k) { StuckAtBrace(ts, k); }
      } else if first.Ok? {
        var m := LoopOutcome(first.value.1);
        n := m + 1;
        forall k: nat | ParseProgram(ts).Diverges? ensures !Ends(ts, k) {
          if k > 0 { assert !Ends(first.value.1, k - 1); }
        }
      } else {
        assert Rounds(ts, 1) == Err(first.error);
      }
    }
  }

  /** The loop runs forever exactly when it comes to a closing brace. */
  lemma DivergesExactly(ts: Toks)
    ensures ParseProgram(ts).Diverges? <==> forall n :: !Ends(ts, n)
    ensures ParseProgram(ts).Diverges? <==> exists n :: ReachesBrace(ts, n)
  {
    var n := LoopOutcome(ts);
    if !ParseProgram(ts).Diverges? { assert Ends(ts, n); }
    if ParseProgram(ts).Diverges? {
      var m := BraceReached(ts);
    }
    if m :| ReachesBrace(ts, m) { BraceDiverges(ts, m); }
  }

  ghost predicate ReachesBrace(ts: Toks, n: nat) {
    Rounds(ts, n).Ok? && KindAt(Rounds(ts, n).value.1) == CloseBrace
  }

  lemma {:induction false} BraceReached(ts: Toks) returns (n: nat)
    requires ParseProgram(ts).Diverges?
    ensures ReachesBrace(ts, n)
    decreases |ts|
  {
    hide ParseStmt;
    var first := ParseStmt(ts);
    if first.value.0.NoStmt? {
      n := 0;
    } else {
      n := BraceReached(first.value.1);
      n := n + 1;
    }
  }

  lemma {:induction false} BraceDiverges(ts: Toks, n: nat)
    requires ReachesBrace(ts, n)
    ensures ParseProgram(ts).Diverges?
    decreases n
  {
    hide ParseStmt;
    if !ts[0].kind.CloseBrace? {
      BraceDiverges(ParseStmt(ts).value.1, n - 1);
    }
  }

  /** A loop that was read has a step: without one, a second semicolon stands where the
      body should be. */
  lemma LoopHasStep(ts: Toks)
    requires ts != [] && ParseFor(ts).Ok?
    ensures var s := ParseFor(ts).value.0.s; s.For? && s.every.JustExpr?
  {
    hide ParseStmts, ParseExpr, ParseStmt;
  }
}
