/** Tokens and the character classes they are made of. */
module Tokens {
  import opened Ast

  datatype TokenType =
    | Identifier | StringLiteral | Number
    | OpenBrace | CloseBrace | OpenParen | CloseParen | OpenBracket | CloseBracket
    | OpenAngle | CloseAngle | Comma | Asterisk | Slash | PlusSign | MinusSign | Colon | Semicolon
    | Period | EqualSign | Ampersand | Percent
    | EqualEqual | ExclamationEqual | OpenAngleEqual | CloseAngleEqual
    | PlusEqual | MinusEqual | AsteriskEqual | SlashEqual | PercentEqual | AndAnd | OrOr
    | KwType | KwInt | KwDefine | KwLet | KwTransaction | KwSerializable | KwIf | KwElse | KwFor
    | KwEmit | KwInsert | KwScan | KwBreak | KwContinue | KwTuple
    | Invalid

  datatype Token = Token(kind: TokenType, text: string)

  datatype CharClass = QuoteChar | DelimiterChar | SymbolChar | OperatorChar | DigitChar | NameChar

  function ClassOf(c: char): CharClass {
    if c == '"' then QuoteChar
    else if c in "\n \t" then DelimiterChar
    else if c in "{}()[],:;" then SymbolChar
    else if c in "+-*/%=!<>.&|" then OperatorChar
    else if '0' <= c <= '9' then DigitChar
    else NameChar
  }

  /** The token type of a single symbol or operator character; the tokenizer
      aborts on the ones that have none. */
  function SymbolType(c: char): Result<TokenType> {
    match c
    case '{' => Ok(OpenBrace)
    case '}' => Ok(CloseBrace)
    case '(' => Ok(OpenParen)
    case ')' => Ok(CloseParen)
    case '[' => Ok(OpenBracket)
    case ']' => Ok(CloseBracket)
    case '<' => Ok(OpenAngle)
    case '>' => Ok(CloseAngle)
    case ',' => Ok(Comma)
    case '*' => Ok(Asterisk)
    case '/' => Ok(Slash)
    case '+' => Ok(PlusSign)
    case '-' => Ok(MinusSign)
    case ':' => Ok(Colon)
    case ';' => Ok(Semicolon)
    case '.' => Ok(Period)
    case '=' => Ok(EqualSign)
    case '&' => Ok(Ampersand)
    case '%' => Ok(Percent)
    case _ => Err("abort")
  }

  /** The token type of a run of operator characters; an unknown longer run is
      an invalid token, not an error. */
  function OperatorType(text: string): Result<TokenType> {
    if |text| == 1 then SymbolType(text[0])
    else if text == "==" then Ok(EqualEqual)
    else if text == "!=" then Ok(ExclamationEqual)
    else if text == "<=" then Ok(OpenAngleEqual)
    else if text == ">=" then Ok(CloseAngleEqual)
    else if text == "+=" then Ok(PlusEqual)
    else if text == "-=" then Ok(MinusEqual)
    else if text == "*=" then Ok(AsteriskEqual)
    else if text == "/=" then Ok(SlashEqual)
    else if text == "%=" then Ok(PercentEqual)
    else if text == "&&" then Ok(AndAnd)
    else if text == "||" then Ok(OrOr)
    else Ok(Invalid)
  }

  /** Clearing bit 0x20, which makes letters upper case. */
  function Capital(c: char): int {
    var n := c as int;
    if (n / 32) % 2 == 1 then n - 32 else n
  }

  predicate Spells(word: string, keyword: string) {
    |word| == |keyword| && forall i :: 0 <= i < |word| ==> Capital(word[i]) == keyword[i] as int
  }

  /** The reserved word that a word spells in any letter case, or `Invalid`. */
  function ReservedType(word: string): TokenType {
    if Spells(word, "TYPE") then KwType
    else if Spells(word, "INT") then KwInt
    else if Spells(word, "DEFINE") then KwDefine
    else if Spells(word, "LET") then KwLet
    else if Spells(word, "TRANSACTION") then KwTransaction
    else if Spells(word, "SERIALIZABLE") then KwSerializable
    else if Spells(word, "IF") then KwIf
    else if Spells(word, "ELSE") then KwElse
    else if Spells(word, "FOR") then KwFor
    else if Spells(word, "EMIT") then KwEmit
    else if Spells(word, "INSERT") then KwInsert
    else if Spells(word, "SCAN") then KwScan
    else if Spells(word, "BREAK") then KwBreak
    else if Spells(word, "CONTINUE") then KwContinue
    else if Spells(word, "TUPLE") then KwTuple
    else Invalid
  }

  function WordToken(word: string): Token {
    var k := ReservedType(word);
    if k.Invalid? then Token(Identifier, word) else Token(k, word)
  }
}
