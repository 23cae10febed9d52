/** The tokenizer: a five-state machine over characters, and the maximal-munch
    reading of the text that it computes. */
module Lexer {
  import opened Ast
  import opened Tokens

  datatype RunKind = Digits | Words | Operators

  predicate InRun(c: char, k: RunKind) {
    match k
    case Digits => ClassOf(c).DigitChar?
    case Words => ClassOf(c).NameChar? || ClassOf(c).DigitChar?
    case Operators => ClassOf(c).OperatorChar?
  }

  /** Length of the longest run at the start of `s`. */
  function RunLength(s: string, k: RunKind): (n: nat)
    ensures n <= |s|
    ensures forall i :: 0 <= i < n ==> InRun(s[i], k)
    ensures n < |s| ==> !InRun(s[n], k)
  {
    if s != [] && InRun(s[0], k) then
      var n := RunLength(s[1..], k);
      assert forall i :: 0 < i < n + 1 ==> s[i] == s[1..][i - 1];
      n + 1
    else 0
  }

  lemma {:induction false} RunLengthIs(s: string, k: RunKind, n: nat)
    requires n <= |s| && (forall i :: 0 <= i < n ==> InRun(s[i], k)) && (n < |s| ==> !InRun(s[n], k))
    ensures RunLength(s, k) == n
  {
    hide ClassOf, InRun;
    if n > 0 {
      assert InRun(s[0], k);
      RunLengthIs(s[1..], k, n - 1);
    }
  }

  /** Position of the first quote. */
  function FindQuote(s: string): (n: nat)
    ensures n <= |s| && '"' !in s[..n] && (n < |s| ==> s[n] == '"')
  {
    if s == [] || s[0] == '"' then 0
    else
      var n := FindQuote(s[1..]);
      assert s[..n + 1] == [s[0]] + s[1..][..n];
      n + 1
  }

  lemma {:induction false} FindQuoteIs(s: string, n: nat)
    requires n <= |s| && '"' !in s[..n] && (n < |s| ==> s[n] == '"')
    ensures FindQuote(s) == n
  {
    if n > 0 {
      assert s[..n][0] in s[..n] && s[..n] == [s[0]] + s[1..][..n - 1];
      FindQuoteIs(s[1..], n - 1);
    }
  }

  function Prepend(ts: seq<Token>, r: Result<seq<Token>>): Result<seq<Token>> {
    match r
    case Ok(us) => Ok(ts + us)
    case Err(e) => Err(e)
  }

  /** Maximal munch: what the tokens of a text are. */
  function Lex(s: string): Result<seq<Token>>
    decreases |s|
  {
    if s == [] then Ok([])
    else match ClassOf(s[0])
      case DelimiterChar => Lex(s[1..])
      case QuoteChar =>
        var n := FindQuote(s[1..]);
        if n == |s[1..]| then Err("unexpected EOF in string literal")
        else Prepend([Token(StringLiteral, s[1..][..n])], Lex(s[n + 2..]))
      case SymbolChar =>
        var k :- SymbolType(s[0]);
        Prepend([Token(k, s[..1])], Lex(s[1..]))
      case OperatorChar =>
        var n := RunLength(s, Operators);
        var k :- OperatorType(s[..n]);
        assert InRun(s[0], Operators);
        Prepend([Token(k, s[..n])], Lex(s[n..]))
      case DigitChar =>
        var n := RunLength(s, Digits);
        assert InRun(s[0], Digits);
        if n < |s| && ClassOf(s[n]).NameChar? then Err("identifier inside of number")
        else Prepend([Token(Number, s[..n])], Lex(s[n..]))
      case NameChar =>
        var n := RunLength(s, Words);
        assert InRun(s[0], Words);
        Prepend([WordToken(s[..n])], Lex(s[n..]))
  }

  // The state machine.

  datatype LexerState = InitState | NameState | NumberState | StringState | OperatorState

  function RunOf(st: LexerState): RunKind
    requires st.NameState? || st.NumberState? || st.OperatorState?
  {
    match st
    case NameState => Words
    case NumberState => Digits
    case OperatorState => Operators
  }

  /** The token for a finished run. */
  function RunToken(st: LexerState, word: string): Result<Token>
    requires st.NameState? || st.NumberState? || st.OperatorState?
  {
    match st
    case NameState => Ok(WordToken(word))
    case NumberState => Ok(Token(Number, word))
    case OperatorState =>
      var k :- OperatorType(word);
      Ok(Token(k, word))
  }

  /** The pending token: the characters from `from` on that belong to it. */
  ghost predicate Pending(st: LexerState, s: string) {
    match st
    case InitState => s == []
    case StringState => s != [] && s[0] == '"' && '"' !in s[1..]
    case NameState => s != [] && ClassOf(s[0]).NameChar? && forall i :: 0 <= i < |s| ==> InRun(s[i], Words)
    case NumberState => s != [] && forall i :: 0 <= i < |s| ==> InRun(s[i], Digits)
    case OperatorState => s != [] && forall i :: 0 <= i < |s| ==> InRun(s[i], Operators)
  }

  /** A run that cannot go on is one token. */
  lemma FinishRun(st: LexerState, s: string, n: nat)
    requires st.NameState? || st.NumberState? || st.OperatorState?
    requires n <= |s| && Pending(st, s[..n]) && (n < |s| ==> !InRun(s[n], RunOf(st)))
    requires st.NumberState? && n < |s| ==> !ClassOf(s[n]).NameChar?
    ensures RunToken(st, s[..n]).Err? ==> Lex(s) == Err(RunToken(st, s[..n]).error)
    ensures RunToken(st, s[..n]).Ok? ==> Lex(s) == Prepend([RunToken(st, s[..n]).value], Lex(s[n..]))
  {
    hide ClassOf, OperatorType, WordToken, RunLength, Lex;
    assert forall i :: 0 <= i < n ==> s[i] == s[..n][i];
    RunLengthIs(s, RunOf(st), n);
    LexRun(st, s, n);
  }

  /** How a text that starts with a run is read. */
  lemma LexRun(st: LexerState, s: string, n: nat)
    requires st.NameState? || st.NumberState? || st.OperatorState?
    requires 0 < n <= |s| && RunLength(s, RunOf(st)) == n
    requires st.NameState? ==> ClassOf(s[0]).NameChar?
    requires st.NumberState? ==> ClassOf(s[0]).DigitChar? && (n < |s| ==> !ClassOf(s[n]).NameChar?)
    requires st.OperatorState? ==> ClassOf(s[0]).OperatorChar?
    ensures RunToken(st, s[..n]).Err? ==> Lex(s) == Err(RunToken(st, s[..n]).error)
    ensures RunToken(st, s[..n]).Ok? ==> Lex(s) == Prepend([RunToken(st, s[..n]).value], Lex(s[n..]))
  {
    hide ClassOf, OperatorType, WordToken, RunLength, FindQuote, SymbolType, Prepend;
  }

  lemma BadNumber(s: string, n: nat)
    requires n < |s| && Pending(NumberState, s[..n]) && ClassOf(s[n]).NameChar?
    ensures Lex(s) == Err("identifier inside of number")
  {
    hide ClassOf, OperatorType, WordToken, RunLength;
    assert forall i :: 0 <= i < n ==> s[i] == s[..n][i];
    RunLengthIs(s, Digits, n);
  }

  lemma FinishString(s: string, n: nat)
    requires 0 < n < |s| && Pending(StringState, s[..n]) && s[n] == '"'
    ensures Lex(s) == Prepend([Token(StringLiteral, s[1..n])], Lex(s[n + 1..]))
  {
    assert s[..n][1..] == s[1..n] == s[1..][..n - 1];
    FindQuoteIs(s[1..], n - 1);
  }

  lemma OpenString(s: string)
    requires s != [] && Pending(StringState, s)
    ensures Lex(s).Err? && Lex(s).error == "unexpected EOF in string literal"
  {
    assert s[1..][..|s| - 1] == s[1..];
    FindQuoteIs(s[1..], |s| - 1);
  }

  lemma PrependTwice(ts: seq<Token>, us: seq<Token>, r: Result<seq<Token>>)
    ensures Prepend(ts, Prepend(us, r)) == Prepend(ts + us, r)
  {
    if r.Ok? { assert ts + (us + r.value) == ts + us + r.value; }
  }

  /** The pending run ends before position `i`: the state machine adds its token. */
  method AddPending(st: LexerState, ret: seq<Token>, code: string, ghost b: nat, from: nat, i: nat)
      returns (r: Result<seq<Token>>)
    requires from <= i <= |code| && b == Begin(st, from, i) && !st.StringState? && Pending(st, code[b..i])
    requires st.InitState? || i == |code| || !InRun(code[i], RunOf(st))
    requires st.NumberState? && i < |code| ==> !ClassOf(code[i]).NameChar?
    ensures r.Err? ==> Prepend(ret, Lex(code[b..])) == Err(r.error)
    ensures r.Ok? ==> Prepend(ret, Lex(code[b..])) == Prepend(r.value, Lex(code[i..]))
  {
    hide Lex, ClassOf, OperatorType, WordToken;
    if st.InitState? {
      r := Ok(ret);
    } else {
      ghost var s := code[from..];
      assert s[..i - from] == code[from..i] && s[i - from..] == code[i..];
      FinishRun(st, s, i - from);
      var t := RunToken(st, code[from..i]);
      if t.Err? {
        r := Err(t.error);
      } else {
        PrependTwice(ret, [t.value], Lex(code[i..]));
        r := Ok(ret + [t.value]);
      }
    }
  }

  /** Where the text that is not yet in `ret` begins. */
  ghost function Begin(st: LexerState, from: nat, i: nat): nat { if st.InitState? then i else from }

  /** The tokenizer loop computes the maximal-munch reading. */
  method Tokenize(code: string) returns (r: Result<seq<Token>>)
    ensures r == Lex(code)
  {
    hide Lex, ClassOf, SymbolType;
    var ret: seq<Token> := [];
    var state, from, len := InitState, 0, 0;
    assert code[0..] == code;
    PrependNothing(Lex(code));
    for i := 0 to |code|
      invariant from <= i && (!state.InitState? ==> from + len == i)
      invariant Pending(state, code[Begin(state, from, i)..i])
      invariant Lex(code) == Prepend(ret, Lex(code[Begin(state, from, i)..]))
    {
      var c := code[i];
      if state.StringState? {
        assert code[from..i + 1] == code[from..i] + [c];
        if c == '"' {
          ret := EndString(ret, code, from, i);
          state, from, len := InitState, i, 0;
        } else {
          len := len + 1;
        }
      } else if Extends(state, ClassOf(c)) {
        assert code[from..i + 1] == code[from..i] + [c];
        len := len + 1;
      } else if state.NumberState? && ClassOf(c).NameChar? {
        assert code[from..][..len] == code[from..i];
        BadNumber(code[from..], len);
        return Err("identifier inside of number");
      } else {
        var added := AddPending(state, ret, code, Begin(state, from, i), from, i);
        if added.Err? { return Err(added.error); }
        added := StartToken(added.value, code, i);
        if added.Err? { return Err(added.error); }
        ret := added.value;
        assert code[i..i + 1] == [c] && code[i + 1..i + 1] == [];
        state, from, len := StateAt(ClassOf(c)), i, if StateAt(ClassOf(c)).InitState? then 0 else 1;
        PendingStart(c);
      }
    }
    if state.StringState? {
      assert code[from..] == code[from..|code|];
      OpenString(code[from..]);
      return Err("unexpected EOF in string literal");
    }
    var added := AddPending(state, ret, code, Begin(state, from, |code|), from, |code|);
    if added.Err? { return Err(added.error); }
    LexEmpty(code[|code|..]);
    r := added;
  }

  lemma PrependNothing(r: Result<seq<Token>>)
    ensures Prepend([], r) == r
  {
    if r.Ok? { assert [] + r.value == r.value; }
  }

  lemma LexEmpty(s: string)
    requires s == []
    ensures Lex(s) == Ok([]) && forall ts :: Prepend(ts, Lex(s)) == Ok(ts)
  {
    assert forall ts: seq<Token> :: ts + [] == ts;
  }

  /** The state a character of class `k` starts. */
  function StateAt(k: CharClass): LexerState {
    match k
    case QuoteChar => StringState
    case OperatorChar => OperatorState
    case DigitChar => NumberState
    case NameChar => NameState
    case _ => InitState
  }

  lemma PendingStart(c: char)
    ensures Pending(InitState, []) && (!StateAt(ClassOf(c)).InitState? ==> Pending(StateAt(ClassOf(c)), [c]))
  {
  }

  /** A character outside of any run: delimiters are dropped, a symbol is a token. */
  method StartToken(ret: seq<Token>, code: string, i: nat) returns (r: Result<seq<Token>>)
    requires i < |code|
    ensures var b := if StateAt(ClassOf(code[i])).InitState? then i + 1 else i;
            && (r.Err? ==> Prepend(ret, Lex(code[i..])) == Err(r.error))
            && (r.Ok? ==> Prepend(ret, Lex(code[i..])) == Prepend(r.value, Lex(code[b..])))
  {
    hide ClassOf, SymbolType, RunLength, FindQuote, OperatorType, WordToken;
    var c := code[i];
    assert code[i..][1..] == code[i + 1..] && code[i..][..1] == [c];
    r := Ok(ret);
    if ClassOf(c).SymbolChar? {
      var k := SymbolType(c);
      if k.Err? { return Err(k.error); }
      PrependTwice(ret, [Token(k.value, [c])], Lex(code[i + 1..]));
      r := Ok(ret + [Token(k.value, [c])]);
    }
  }

  /** Whether a character of class `k` only lengthens the pending run. */
  predicate Extends(st: LexerState, k: CharClass) {
    match st
    case NameState => k.NameChar? || k.DigitChar?
    case NumberState => k.DigitChar?
    case OperatorState => k.OperatorChar?
    case _ => false
  }

  method EndString(ret: seq<Token>, code: string, from: nat, i: nat) returns (r: seq<Token>)
    requires from < i < |code| && Pending(StringState, code[from..i]) && code[i] == '"'
    ensures Prepend(ret, Lex(code[from..])) == Prepend(r, Lex(code[i + 1..]))
  {
    ghost var s := code[from..];
    assert s[..i - from] == code[from..i] && s[i - from + 1..] == code[i + 1..];
    FinishString(s, i - from);
    var t := Token(StringLiteral, code[from + 1..i]);
    assert s[1..i - from] == code[from + 1..i];
    PrependTwice(ret, [t], Lex(code[i + 1..]));
    r := ret + [t];
  }
}
