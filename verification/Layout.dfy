/** Texts and token lists: a text gives a token list exactly when it spells
    those tokens, separated by white space wherever two of them would merge. */
module Layout {
  import opened Ast
  import opened Tokens
  import opened Lexer

  function Spell(t: Token): string {
    if t.kind.StringLiteral? then "\"" + t.text + "\"" else t.text
  }

  // The characters of texts, by what they do.

  predicate IsBlank(c: char) { c == ' ' || c == '\n' || c == '\t' }

  /** Always a token of its own. */
  predicate IsSymbol(c: char) {
    c == '{' || c == '}' || c == '(' || c == ')' || c == '[' || c == ']' || c == ',' || c == ':' || c == ';'
  }

  predicate IsOperator(c: char) {
    || c == '+' || c == '-' || c == '*' || c == '/' || c == '%' || c == '=' || c == '!' || c == '<' || c == '>'
    || c == '.' || c == '&' || c == '|'
  }

  predicate IsDigit(c: char) { '0' <= c <= '9' }

  /** Everything else may stand in a name. */
  predicate IsLetter(c: char) { !IsBlank(c) && !IsSymbol(c) && !IsOperator(c) && !IsDigit(c) && c != '"' }

  /** The tokenizer's classes are these. */
  lemma ClassesExact()
    ensures forall c :: ClassOf(c).DelimiterChar? <==> IsBlank(c)
    ensures forall c :: ClassOf(c).SymbolChar? <==> IsSymbol(c)
    ensures forall c :: ClassOf(c).OperatorChar? <==> IsOperator(c)
    ensures forall c :: ClassOf(c).DigitChar? <==> IsDigit(c)
    ensures forall c :: ClassOf(c).NameChar? <==> IsLetter(c)
  {
  }

  predicate InWord(c: char) { IsLetter(c) || IsDigit(c) }

  /** Tokens the tokenizer can produce. */
  ghost predicate WellFormed(t: Token) {
    if t.kind.StringLiteral? then '"' !in t.text
    else
      && t.text != []
      && var c := t.text[0];
         if IsSymbol(c) then |t.text| == 1 && SymbolType(c) == Ok(t.kind)
         else if IsOperator(c) then
           (forall i :: 0 <= i < |t.text| ==> IsOperator(t.text[i])) && OperatorType(t.text) == Ok(t.kind)
         else if IsDigit(c) then (forall i :: 0 <= i < |t.text| ==> IsDigit(t.text[i])) && t.kind.Number?
         else IsLetter(c) && (forall i :: 0 <= i < |t.text| ==> InWord(t.text[i])) && t == WordToken(t.text)
  }

  /** Whether a character would be read as part of the token, or right after a
      number be rejected. */
  ghost predicate Continues(t: Token, c: char)
    requires WellFormed(t)
  {
    && !t.kind.StringLiteral? && !IsSymbol(t.text[0])
    && if IsOperator(t.text[0]) then IsOperator(c) else InWord(c)
  }

  /** White space: spaces, line ends and tabs. */
  ghost predicate Blank(gap: string) { forall i :: 0 <= i < |gap| ==> IsBlank(gap[i]) }

  lemma LexString(text: string, rest: string)
    requires '"' !in text
    ensures Lex("\"" + text + "\"" + rest) == Prepend([Token(StringLiteral, text)], Lex(rest))
  {
    hide Lex;
    var s, n := "\"" + text + "\"" + rest, |text|;
    assert s[..n + 1] == "\"" + text && s[n + 1] == '"' && s[n + 2..] == rest;
    assert s[..n + 1][1..] == text && s[1..n + 1] == text;
    FinishString(s, n + 1);
  }

  lemma LexSymbol(t: Token, rest: string)
    requires WellFormed(t) && !t.kind.StringLiteral? && ClassOf(t.text[0]).SymbolChar?
    ensures Lex(t.text + rest) == Prepend([t], Lex(rest))
  {
    hide ClassOf, SymbolType, OperatorType, WordToken, RunLength, FindQuote, IsSymbol, IsOperator, IsDigit, IsLetter,
         IsBlank;
    ClassesExact();
    var s := t.text + rest;
    assert s[..1] == t.text && s[1..] == rest;
  }

  /** One token at the start of a text is read back and the rest is read on. */
  lemma LexToken(t: Token, rest: string)
    requires WellFormed(t) && (rest != [] ==> !Continues(t, rest[0]))
    ensures Lex(Spell(t) + rest) == Prepend([t], Lex(rest))
  {
    hide ClassOf, SymbolType, OperatorType, WordToken, Lex, IsSymbol, IsOperator, IsDigit, IsLetter, IsBlank;
    ClassesExact();
    if t.kind.StringLiteral? {
      LexString(t.text, rest);
    } else {
      var s, n := t.text + rest, |t.text|;
      assert s[..n] == t.text && s[n..] == rest;
      match ClassOf(t.text[0])
      case SymbolChar => LexSymbol(t, rest);
      case OperatorChar => FinishRun(OperatorState, s, n);
      case DigitChar => FinishRun(NumberState, s, n);
      case NameChar => FinishRun(NameState, s, n);
    }
  }

  lemma {:induction false} LexBlank(gap: string, rest: string)
    requires Blank(gap)
    ensures Lex(gap + rest) == Lex(rest)
  {
    hide ClassOf, SymbolType, OperatorType, WordToken, RunLength, FindQuote, IsSymbol, IsOperator, IsDigit, IsLetter,
         IsBlank;
    ClassesExact();
    if gap == [] {
      assert gap + rest == rest;
    } else {
      LexBlank(gap[1..], rest);
      assert (gap + rest)[1..] == gap[1..] + rest;
    }
  }

  /** The text with the given white space before, between and after the tokens. */
  function Render(gaps: seq<string>, ts: seq<Token>): string
    requires |gaps| == |ts| + 1
  {
    if ts == [] then gaps[0]
    else gaps[0] + Spell(ts[0]) + Render(gaps[1..], ts[1..])
  }

  /** Two tokens that keep apart without white space. */
  ghost predicate CanAbut(t: Token, u: Token)
    requires WellFormed(t) && WellFormed(u)
  {
    u.kind.StringLiteral? || !Continues(t, u.text[0])
  }

  ghost predicate ValidLayout(gaps: seq<string>, ts: seq<Token>) {
    && |gaps| == |ts| + 1
    && (forall i :: 0 <= i < |gaps| ==> Blank(gaps[i]))
    && (forall i :: 0 <= i < |ts| ==> WellFormed(ts[i]))
    && (forall i :: 0 < i < |ts| && gaps[i] == [] ==> CanAbut(ts[i - 1], ts[i]))
  }

  lemma LayoutTail(gaps: seq<string>, ts: seq<Token>)
    requires ValidLayout(gaps, ts) && ts != []
    ensures ValidLayout(gaps[1..], ts[1..])
    ensures var rest := Render(gaps[1..], ts[1..]); rest != [] ==> !Continues(ts[0], rest[0])
  {
    hide ClassOf, SymbolType, OperatorType, WordToken, IsSymbol, IsOperator, IsDigit, IsLetter, IsBlank;
    ClassesExact();
    var g, us := gaps[1..], ts[1..];
    forall i | 0 < i < |us| && g[i] == []
      ensures CanAbut(us[i - 1], us[i])
    {
      assert gaps[i + 1] == g[i] && ts[i] == us[i - 1] && ts[i + 1] == us[i];
    }
    var rest := Render(g, us);
    if rest != [] {
      if g[0] != [] {
        assert rest[0] == g[0][0];
      } else {
        assert us != [] && gaps[1] == [] && CanAbut(ts[0], ts[1]);
        assert rest == Spell(us[0]) + Render(g[1..], us[1..]);
        QuoteClass();
      }
    }
  }

  /** Every layout of a token list is read back as that list. */
  lemma {:induction false} LexInvertsRender(gaps: seq<string>, ts: seq<Token>)
    requires ValidLayout(gaps, ts)
    ensures Lex(Render(gaps, ts)) == Ok(ts)
    decreases ts
  {
    hide Lex, ClassOf;
    if ts == [] {
      LexBlank(gaps[0], []);
      assert gaps[0] + [] == gaps[0];
      LexEmpty([]);
    } else {
      LayoutTail(gaps, ts);
      var rest := Render(gaps[1..], ts[1..]);
      LexInvertsRender(gaps[1..], ts[1..]);
      LexToken(ts[0], rest);
      LexBlank(gaps[0], Spell(ts[0]) + rest);
      assert Render(gaps, ts) == gaps[0] + (Spell(ts[0]) + rest);
      assert ts == [ts[0]] + ts[1..];
    }
  }

  lemma NoBlank()
    ensures Blank("")
  {
  }

  /** A token that the text behind it does not continue may abut the first one. */
  lemma AbutsFirst(t: Token, gaps: seq<string>, ts: seq<Token>)
    requires WellFormed(t) && ts != [] && WellFormed(ts[0]) && |gaps| == |ts| + 1 && gaps[0] == []
    requires var rest := Render(gaps, ts); rest != [] ==> !Continues(t, rest[0])
    ensures CanAbut(t, ts[0])
  {
    hide WellFormed, Continues, Spell;
    assert Render(gaps, ts) == gaps[0] + Spell(ts[0]) + Render(gaps[1..], ts[1..]);
    SpellFirst(ts[0]);
    assert Render(gaps, ts)[0] == Spell(ts[0])[0];
  }

  lemma SpellFirst(t: Token)
    requires WellFormed(t)
    ensures Spell(t) != [] && (!t.kind.StringLiteral? ==> t.text != [] && Spell(t)[0] == t.text[0])
  {
    hide ClassOf, SymbolType, OperatorType, WordToken;
  }

  /** Adding one token in front of a layout. */
  lemma ConsLayout(t: Token, gaps: seq<string>, ts: seq<Token>) returns (g: seq<string>)
    requires ValidLayout(gaps, ts) && WellFormed(t)
    requires var rest := Render(gaps, ts); rest != [] ==> !Continues(t, rest[0])
    ensures ValidLayout(g, [t] + ts) && Render(g, [t] + ts) == Spell(t) + Render(gaps, ts)
  {
    hide WellFormed, Continues, CanAbut, Spell, Blank;
    g := [""] + gaps;
    var us := [t] + ts;
    assert g[1..] == gaps && us[1..] == ts;
    forall i | 0 < i < |us| && g[i] == []
      ensures CanAbut(us[i - 1], us[i])
    {
      if i == 1 {
        AbutsFirst(t, gaps, ts);
      } else {
        assert gaps[i - 1] == [] && CanAbut(ts[i - 2], ts[i - 1]);
      }
    }
    assert Blank("") by { NoBlank(); }
    forall i | 0 <= i < |g|
      ensures Blank(g[i])
    {
      if i > 0 { assert g[i] == gaps[i - 1]; }
    }
    assert Render(g, us) == "" + Spell(t) + Render(gaps, ts);
  }

  /** Widening the white space in front. */
  lemma WidenLayout(c: char, gaps: seq<string>, ts: seq<Token>) returns (g: seq<string>)
    requires ValidLayout(gaps, ts) && ClassOf(c).DelimiterChar?
    ensures ValidLayout(g, ts) && Render(g, ts) == [c] + Render(gaps, ts)
  {
    hide ClassOf, SymbolType, OperatorType, WordToken, WellFormed, CanAbut, IsSymbol, IsOperator, IsDigit, IsLetter,
         IsBlank;
    ClassesExact();
    g := [[c] + gaps[0]] + gaps[1..];
    assert g[1..] == gaps[1..];
    if ts != [] {
      assert [c] + (gaps[0] + Spell(ts[0]) + Render(gaps[1..], ts[1..])) ==
             [c] + gaps[0] + Spell(ts[0]) + Render(gaps[1..], ts[1..]);
    }
  }

  /** Nothing is lost: an accepted text is a layout of its tokens. The spans are
      maximal, and every character outside of them is white space. */
  lemma {:induction false} LexedIsLayout(s: string) returns (gaps: seq<string>)
    requires Lex(s).Ok?
    ensures ValidLayout(gaps, Lex(s).value) && Render(gaps, Lex(s).value) == s
    decreases |s|
  {
    hide ClassOf, SymbolType, OperatorType, WordToken, ValidLayout, Render, Continues, Spell;
    if s == [] {
      gaps := [""];
      EmptyLayout();
    } else if ClassOf(s[0]).DelimiterChar? {
      gaps := LexedIsLayout(s[1..]);
      gaps := WidenLayout(s[0], gaps, Lex(s).value);
      assert s == [s[0]] + s[1..];
    } else {
      var n, t := FirstToken(s);
      gaps := LexedIsLayout(s[n..]);
      gaps := ConsLayout(t, gaps, Lex(s[n..]).value);
      assert s == s[..n] + s[n..];
    }
  }

  lemma EmptyLayout()
    ensures ValidLayout([""], []) && Render([""], []) == ""
  {
  }

  ghost predicate StartsWith(s: string, n: nat, t: Token) {
    && 0 < n <= |s| && Lex(s[n..]).Ok? && Lex(s) == Ok([t] + Lex(s[n..]).value)
    && WellFormed(t) && Spell(t) == s[..n]
    && (n < |s| ==> !Continues(t, s[n]))
  }

  /** An accepted text that starts with no white space starts with its first
      token, and that token cannot be longer. */
  lemma FirstToken(s: string) returns (n: nat, t: Token)
    requires s != [] && !ClassOf(s[0]).DelimiterChar? && Lex(s).Ok?
    ensures StartsWith(s, n, t)
  {
    hide ClassOf, SymbolType, OperatorType, WordToken, RunLength, FindQuote, StartsWith;
    match ClassOf(s[0])
    case QuoteChar => n, t := FirstString(s);
    case SymbolChar => n, t := FirstSymbol(s);
    case OperatorChar => n, t := FirstRun(s, OperatorState);
    case DigitChar => n, t := FirstRun(s, NumberState);
    case NameChar => n, t := FirstRun(s, NameState);
  }

  lemma FirstString(s: string) returns (n: nat, t: Token)
    requires s != [] && ClassOf(s[0]).QuoteChar? && Lex(s).Ok?
    ensures StartsWith(s, n, t)
  {
    hide ClassOf, SymbolType, OperatorType, WordToken, RunLength;
    var m := FindQuote(s[1..]);
    n, t := m + 2, Token(StringLiteral, s[1..][..m]);
    assert s[..m + 2] == [s[0]] + s[1..][..m] + [s[m + 1]];
    QuoteOnly(s[0]);
  }

  lemma FirstSymbol(s: string) returns (n: nat, t: Token)
    requires s != [] && ClassOf(s[0]).SymbolChar? && Lex(s).Ok?
    ensures StartsWith(s, n, t)
  {
    hide ClassOf, SymbolType, OperatorType, WordToken, RunLength, FindQuote, IsSymbol, IsOperator, IsDigit, IsLetter,
         IsBlank;
    ClassesExact();
    n, t := 1, Token(SymbolType(s[0]).value, s[..1]);
    SymbolIsToken(s[0]);
  }

  lemma FirstRun(s: string, st: LexerState) returns (n: nat, t: Token)
    requires s != [] && Lex(s).Ok? && (st.OperatorState? || st.NumberState? || st.NameState?)
    requires StateAt(ClassOf(s[0])) == st
    ensures StartsWith(s, n, t)
  {
    hide ClassOf, SymbolType, OperatorType, FindQuote, ReservedType, IsSymbol, IsOperator, IsDigit, IsLetter, IsBlank;
    ClassesExact();
    assert InRun(s[0], RunOf(st));
    n := RunLength(s, RunOf(st));
    assert forall i :: 0 <= i < n ==> s[..n][i] == s[i];
    t := RunToken(st, s[..n]).value;
    WordIsToken(s[..n]);
    OperatorIsToken(s[..n]);
  }

  lemma WordIsToken(w: string)
    ensures !WordToken(w).kind.StringLiteral? && WordToken(w).text == w
  {
  }

  lemma QuoteClass()
    ensures ClassOf('"').QuoteChar? && !IsOperator('"') && !InWord('"')
  {
  }

  lemma QuoteOnly(c: char)
    ensures ClassOf(c).QuoteChar? ==> c == '"'
  {
  }

  lemma SymbolIsToken(c: char)
    ensures ClassOf(c).SymbolChar? && SymbolType(c).Ok? ==> !SymbolType(c).value.StringLiteral?
  {
  }

  lemma OperatorIsToken(text: string)
    ensures OperatorType(text).Ok? ==> !OperatorType(text).value.StringLiteral?
  {
  }

  /** A text gives exactly the token lists it is a layout of. */
  lemma LexExactly(s: string, ts: seq<Token>)
    ensures Lex(s) == Ok(ts) <==> exists gaps :: ValidLayout(gaps, ts) && Render(gaps, ts) == s
  {
    if Lex(s) == Ok(ts) {
      var gaps := LexedIsLayout(s);
    }
    if gaps :| ValidLayout(gaps, ts) && Render(gaps, ts) == s {
      LexInvertsRender(gaps, ts);
    }
  }
}
