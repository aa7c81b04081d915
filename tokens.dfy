/** Tokens shared by the scanner, the parser and the printer.
    The token module of the program is not part of this model; these types are
    reconstructed from how the scanner, the parser and the printer use them. */
module Tokens {

  datatype Option<+T> = None | Some(value: T)

  /** Every token kind the scanner or the parser names, plus the remaining
      keywords and literal kinds of the language. */
  datatype TokenType =
    // single-character punctuation
    | LeftParen | RightParen | LeftBrace | RightBrace
    | Comma | Dot | Minus | Plus | Semicolon | Slash | Star
    // one- or two-character operators
    | Bang | BangEqual | Equal | EqualEqual
    | Greater | GreaterEqual | Less | LessEqual
    // literals
    | Identifier | String | Number
    // keywords
    | And | Class | Else | False | Fun | For | If | Nil | Or
    | Print | Return | Super | This | True | Var | While
    | Eof

  /** The payload of a literal token. A number's 64-bit float is kept as its
      bit pattern and never interpreted. */
  datatype LiteralValue =
    | Number(bits: bv64)
    | Str(text: string)
    | Identifier(name: string)

  datatype Token = Token(tokenType: TokenType, lexeme: string, literal: Option<LiteralValue>, line: nat)

  /** The end marker scan_tokens appends: empty lexeme, no literal. */
  function EofToken(line: nat): Token
  {
    Token(Eof, "", None, line)
  }

  /** The lexemes of a token sequence, concatenated in order. */
  function Lexemes(ts: seq<Token>): string
  {
    if ts == [] then "" else ts[0].lexeme + Lexemes(ts[1..])
  }

  /** The lexemes of a token prepended to a sequence. */
  lemma {:induction false} LexemesCons(t: Token, ts: seq<Token>)
    ensures Lexemes([t] + ts) == t.lexeme + Lexemes(ts)
  {
    assert ([t] + ts)[1..] == ts;
  }

  lemma {:induction false} LexemesAppend(a: seq<Token>, b: seq<Token>)
    ensures Lexemes(a + b) == Lexemes(a) + Lexemes(b)
  {
    if a == [] {
      assert a + b == b;
    } else {
      assert (a + b)[1..] == a[1..] + b;
      LexemesAppend(a[1..], b);
    }
  }
}
