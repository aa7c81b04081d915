/** The scanner as written: a cursor machine over the source text that
    recognises single-character punctuation and the one- or two-character
    operators `! != = == < <= > >=`.

    Its `advance` moves the cursor before it reads, so a lexeme that starts at
    `k` is classified by the character at `k + 1`, its text runs from `k` to the
    new cursor, and the last character of the source is read past. The pure
    functions below follow that, with one exception: `add_token` unwraps a
    literal that every caller leaves empty, so as written each token would
    panic, and the model keeps the token instead. The class is proved to do
    what the functions say. The corrected scanner is in module ScannerIntended. */
module Scanning {
  import opened Tokens
  import opened Errors
  import ParserSpec

  /** The token kind of a single-character lexeme: defined on the ten
      punctuation characters only. */
  function PunctuationKind(c: char): (kind: Option<TokenType>)
    ensures kind.Some? <==> c in "(){},.-+;*"
  {
    match c
    case '(' => Some(LeftParen)
    case ')' => Some(RightParen)
    case '{' => Some(LeftBrace)
    case '}' => Some(RightBrace)
    case ',' => Some(Comma)
    case '.' => Some(Dot)
    case '-' => Some(Minus)
    case '+' => Some(Plus)
    case ';' => Some(Semicolon)
    case '*' => Some(Star)
    case _ => None
  }

  /** The token kind of an operator character, in its two-character form
      exactly when an `=` follows. */
  function OperatorKind(c: char, equalFollows: bool): (kind: Option<TokenType>)
    ensures kind.Some? <==> c in "!=<>"
    ensures kind.Some? ==> (kind.value in [BangEqual, EqualEqual, LessEqual, GreaterEqual] <==> equalFollows)
  {
    match c
    case '!' => Some(if equalFollows then BangEqual else Bang)
    case '=' => Some(if equalFollows then EqualEqual else Equal)
    case '<' => Some(if equalFollows then LessEqual else Less)
    case '>' => Some(if equalFollows then GreaterEqual else Greater)
    case _ => None
  }

  /** The text of each kind the scanner produces, written out independently
      of the classification functions. */
  function Spelling(kind: TokenType): string
  {
    match kind
    case LeftParen => "("
    case RightParen => ")"
    case LeftBrace => "{"
    case RightBrace => "}"
    case Comma => ","
    case Dot => "."
    case Minus => "-"
    case Plus => "+"
    case Semicolon => ";"
    case Star => "*"
    case Bang => "!"
    case BangEqual => "!="
    case Equal => "="
    case EqualEqual => "=="
    case Less => "<"
    case LessEqual => "<="
    case Greater => ">"
    case GreaterEqual => ">="
    case _ => ""
  }

  /** A character some lexeme can start with. */
  predicate Recognised(c: char)
  {
    PunctuationKind(c).Some? || OperatorKind(c, false).Some?
  }

  /** Each punctuation kind is spelt by its own character. */
  lemma {:induction false} PunctuationSpelling(c: char)
    requires PunctuationKind(c).Some?
    ensures Spelling(PunctuationKind(c).value) == [c]
  {
    match c
    case '(' => case ')' => case '{' => case '}' => case ',' =>
    case '.' => case '-' => case '+' => case ';' => case '*' =>
  }

  /** Each operator kind is spelt by its character, followed by `=` in the
      two-character form. */
  lemma {:induction false} OperatorSpelling(c: char, equalFollows: bool)
    requires OperatorKind(c, equalFollows).Some?
    ensures Spelling(OperatorKind(c, equalFollows).value) == if equalFollows then [c, '='] else [c]
  {
    match c
    case '!' => case '=' => case '<' => case '>' =>
  }

  /** The kinds scan_token can produce. */
  predicate ScannedKind(kind: TokenType)
  {
    match kind
    case LeftParen | RightParen | LeftBrace | RightBrace | Comma | Dot | Minus | Plus | Semicolon | Star => true
    case Bang | BangEqual | Equal | EqualEqual | Less | LessEqual | Greater | GreaterEqual => true
    case _ => false
  }

  /** A token as scan_token pushes it: one of those kinds, no literal, the
      scanner's line. */
  predicate Pushed(t: Token, line: nat)
  {
    ScannedKind(t.tokenType) && t.literal == None && t.line == line
  }

  /** A pushed token is neither the end marker nor a literal token, the two
      kinds the parser treats specially. */
  lemma {:induction false} PushedIsPlain(t: Token, line: nat)
    requires Pushed(t, line)
    ensures t.tokenType != Eof && t.tokenType != TokenType.Number && t.tokenType != TokenType.String
  {
  }

  /** A vector of pushed tokens closed by an end marker is one the parser can
      run on, from its first token. */
  lemma {:induction false} PushedFeedsParser(ts: seq<Token>, line: nat)
    requires |ts| > 0 && ts[|ts| - 1] == EofToken(line)
    requires forall i :: 0 <= i < |ts| - 1 ==> Pushed(ts[i], line)
    ensures ParserSpec.WellFormed(ts) && ParserSpec.Cursor(ts, 0)
  {
    forall i | 0 <= i < |ts|
      ensures ts[i].tokenType != TokenType.Number && ts[i].tokenType != TokenType.String
    {
      if i < |ts| - 1 {
        PushedIsPlain(ts[i], line);
      }
    }
  }

  /** One token and the cursor after it. */
  datatype Lexed = Lexed(token: Token, next: nat)

  /** scan_token with `start` and `current` both at `k`: advance moves to
      `k + 1` and reads there; an operator moves once more and peeks at the
      character after, without consuming it. */
  function TokenAt(src: string, k: nat, line: nat): (r: Result<Lexed>)
    requires k < |src|
    ensures r.Ok? ==>
              && k < r.value.next <= |src|
              && r.value.token == Token(r.value.token.tokenType, src[k..r.value.next], None, line)
              && Pushed(r.value.token, line)
    ensures r.Err? ==> r.error == UnexpectedCharacter(line)
  {
    if k + 1 >= |src| then Err(UnexpectedCharacter(line))
    else
      var c := src[k + 1];
      match PunctuationKind(c)
      case Some(kind) => Ok(Lexed(Token(kind, src[k..k + 1], None, line), k + 1))
      case None =>
        match OperatorKind(c, k + 2 < |src| && src[k + 2] == '=')
        case Some(kind) => Ok(Lexed(Token(kind, src[k..k + 2], None, line), k + 2))
        case None => Err(UnexpectedCharacter(line))
  }

  /** As written, with `add_token`'s unwrap left out, scan_token from `k`
      succeeds exactly when a character follows `k` and is recognised. The token's kind is then the one that
      character spells, in its two-character form exactly when the character
      after it is `=`. */
  lemma {:induction false} TokenAtKind(src: string, k: nat, line: nat)
    requires k < |src|
    ensures TokenAt(src, k, line).Ok? <==> k + 1 < |src| && Recognised(src[k + 1])
    ensures TokenAt(src, k, line).Ok? ==>
              Spelling(TokenAt(src, k, line).value.token.tokenType) ==
                if OperatorKind(src[k + 1], false).Some? && k + 2 < |src| && src[k + 2] == '='
                then [src[k + 1], '='] else [src[k + 1]]
  {
    if k + 1 < |src| {
      var c := src[k + 1];
      if PunctuationKind(c).Some? {
        PunctuationSpelling(c);
      } else if OperatorKind(c, false).Some? {
        OperatorSpelling(c, k + 2 < |src| && src[k + 2] == '=');
      }
    }
  }

  /** The scanner's state when scan_tokens returns, with what it returns. */
  datatype Scanned = Scanned(result: Result<seq<Token>>, tokens: seq<Token>, start: nat, current: nat)

  /** The loop of scan_tokens from the given state, with `acc` the tokens
      pushed so far: the vector the loop leaves, and on success that vector
      as the result; on failure the unexpected-character error. */
  function ScanFrom(src: string, start: nat, current: nat, acc: seq<Token>, line: nat): (s: Scanned)
    ensures s.result.Ok? ==> s.result.value == s.tokens
    ensures s.result.Err? ==> s.result.error == UnexpectedCharacter(line)
    decreases |src| - current
  {
    if current >= |src| then
      Scanned(Ok(acc + [EofToken(line)]), acc + [EofToken(line)], start, current)
    else
      match TokenAt(src, current, line)
      case Err(e) => Scanned(Err(e), acc, current, current + 1)
      case Ok(lexed) => ScanFrom(src, current, lexed.next, acc + [lexed.token], line)
  }

  /** The loop only appends: after `acc` come pushed tokens and, on success
      only, one closing Eof. On failure nothing more is appended. */
  lemma {:induction false} ScanFromAppends(src: string, start: nat, current: nat, acc: seq<Token>, line: nat)
    ensures Appended(ScanFrom(src, start, current, acc, line), acc, line)
    decreases |src| - current
  {
    if current >= |src| {
      var tokens := acc + [EofToken(line)];
      assert ScanFrom(src, start, current, acc, line).tokens == tokens;
      assert tokens[..|acc|] == acc && tokens[|tokens| - 1] == EofToken(line);
    } else if TokenAt(src, current, line).Err? {
      assert ScanFrom(src, start, current, acc, line).tokens == acc;
    } else {
      var lexed := TokenAt(src, current, line).value;
      var acc' := acc + [lexed.token];
      ScanFromAppends(src, current, lexed.next, acc', line);
      var s := ScanFrom(src, current, lexed.next, acc', line);
      assert ScanFrom(src, start, current, acc, line) == s;
      AppendsOneMore(acc, lexed.token, s, line);
    }
  }

  /** What the loop leaves: `acc`, pushed tokens, and on success one Eof. */
  predicate Appended(s: Scanned, acc: seq<Token>, line: nat)
  {
    var last := if s.result.Ok? then 1 else 0;
    && |s.tokens| >= |acc| + last && s.tokens[..|acc|] == acc
    && (s.result.Ok? ==> s.tokens[|s.tokens| - 1] == EofToken(line))
    && forall i :: |acc| <= i < |s.tokens| - last ==> Pushed(s.tokens[i], line)
  }

  lemma {:induction false} AppendsOneMore(acc: seq<Token>, t: Token, s: Scanned, line: nat)
    requires Appended(s, acc + [t], line) && Pushed(t, line)
    ensures Appended(s, acc, line)
  {
    var tokens := s.tokens;
    assert tokens[..|acc|] == tokens[..|acc| + 1][..|acc|];
    assert (acc + [t])[..|acc|] == acc;
    assert tokens[|acc|] == (acc + [t])[|acc|];
  }

  /** The lexemes of a successful scan spell the rest of the source. */
  lemma {:induction false} ScanFromSpells(src: string, start: nat, current: nat, acc: seq<Token>, line: nat)
    requires current <= |src|
    ensures var s := ScanFrom(src, start, current, acc, line);
      s.result.Ok? ==> Lexemes(s.tokens) == Lexemes(acc) + src[current..]
    decreases |src| - current
  {
    if current == |src| {
      LexemesAppend(acc, [EofToken(line)]);
      assert Lexemes([EofToken(line)]) == "";
    } else if TokenAt(src, current, line).Ok? {
      var lexed := TokenAt(src, current, line).value;
      ScanFromSpells(src, current, lexed.next, acc + [lexed.token], line);
      SpellsOneMore(src, current, lexed.next, acc, lexed.token);
    }
  }

  lemma {:induction false} SpellsOneMore(src: string, current: nat, next: nat, acc: seq<Token>, t: Token)
    requires current <= next <= |src| && t.lexeme == src[current..next]
    ensures Lexemes(acc + [t]) + src[next..] == Lexemes(acc) + src[current..]
  {
    LexemesAppend(acc, [t]);
    assert Lexemes([t]) == t.lexeme + Lexemes([]);
    assert src[current..] == src[current..next] + src[next..];
  }

  /** scan_tokens on a fresh scanner. */
  function Scan(src: string): (s: Scanned)
    ensures s.result.Ok? ==> s.result.value == s.tokens
    ensures s.result.Err? ==> s.result.error == UnexpectedCharacter(1)
  {
    ScanFrom(src, 0, 0, [], 1)
  }

  // ---------------------------------------------------------------------
  // The scanner object

  class Scanner {
    const source: string
    var tokens: seq<Token>
    var start: nat
    var current: nat
    var line: nat

    constructor (source: string)
      ensures this.source == source && tokens == [] && start == 0 && current == 0 && line == 1
    {
      this.source := source;
      tokens := [];
      start := 0;
      current := 0;
      line := 1;
    }

    function IsAtEnd(): (b: bool)
      reads this
      ensures b <==> current >= |source|
    {
      current >= |source|
    }

    method Increment()
      modifies this`current
      ensures current == old(current) + 1
    {
      current := current + 1;
    }

    /** Moves the cursor, then reads the character under it, if any. */
    method Advance() returns (c: Option<char>)
      modifies this`current
      ensures current == old(current) + 1
      ensures c == if current < |source| then Some(source[current]) else None
    {
      Increment();
      c := if current < |source| then Some(source[current]) else None;
    }

    /** Pushes a token whose lexeme is the text from `start` to `current`. */
    method AddToken(kind: TokenType, literal: Option<LiteralValue>)
      requires start <= current <= |source|
      modifies this`tokens
      ensures tokens == old(tokens) + [Token(kind, source[start..current], literal, line)]
    {
      tokens := tokens + [Token(kind, source[start..current], literal, line)];
    }

    /** Whether the character under the cursor is `expected`; reads only. */
    function MatchChar(expected: char): (b: bool)
      reads this
      ensures b <==> current < |source| && source[current] == expected
    {
      current < |source| && source[current] == expected
    }

    method ScanToken() returns (r: Result<()>)
      requires start == current < |source|
      modifies this`current, this`tokens
      ensures start == old(start) && line == old(line)
      ensures match TokenAt(source, old(current), line)
        case Ok(lexed) => r == Ok(()) && tokens == old(tokens) + [lexed.token] && current == lexed.next
        case Err(e) => r == Err(e) && tokens == old(tokens) && current == old(current) + 1
    {
      var c := Advance();
      if c.None? {
        return Err(UnexpectedCharacter(line));
      }
      match PunctuationKind(c.value)
      case Some(kind) =>
        AddToken(kind, None);
        return Ok(());
      case None =>
        if OperatorKind(c.value, false).None? {
          return Err(UnexpectedCharacter(line));
        }
        Increment();
        AddToken(OperatorKind(c.value, MatchChar('=')).value, None);
        return Ok(());
    }

    /** Scans to the end of the source, or to the first error, and on
        success appends Eof and returns the token vector. */
    method ScanTokens() returns (r: Result<seq<Token>>)
      modifies this`start, this`current, this`tokens
      ensures line == old(line)
      ensures var s := ScanFrom(source, old(start), old(current), old(tokens), line);
        r == s.result && tokens == s.tokens && start == s.start && current == s.current
    {
      while !IsAtEnd()
        invariant ScanFrom(source, start, current, tokens, line) == ScanFrom(source, old(start), old(current), old(tokens), line)
        decreases |source| - current
      {
        start := current;
        var step := ScanToken();
        if step.Err? {
          return Err(step.error);
        }
      }
      tokens := tokens + [EofToken(line)];
      return Ok(tokens);
    }
  }

  // ---------------------------------------------------------------------
  // Properties of the scanner as written

  /** A successful scan returns its token vector with exactly one Eof, at the
      end, on line 1; no token before it carries a literal, and the lexemes
      spell the whole source. */
  lemma {:induction false} ScanResultShape(src: string)
    requires Scan(src).result.Ok?
    ensures var ts := Scan(src).result.value;
      && |ts| >= 1
      && ts[|ts| - 1] == EofToken(1)
      && (forall i :: 0 <= i < |ts| - 1 ==> Pushed(ts[i], 1))
      && Lexemes(ts) == src
  {
    ScanFromAppends(src, 0, 0, [], 1);
    ScanFromSpells(src, 0, 0, [], 1);
    assert src[0..] == src;
  }

  /** The parser can run on every vector the scanner returns. */
  lemma {:induction false} ScanFeedsParser(src: string)
    requires Scan(src).result.Ok?
    ensures ParserSpec.WellFormed(Scan(src).result.value)
    ensures ParserSpec.Cursor(Scan(src).result.value, 0)
  {
    ScanResultShape(src);
    PushedFeedsParser(Scan(src).result.value, 1);
  }

  /** Every scan that succeeds on a non-empty source ends on an operator
      character: after any other character the next read is past the end. */
  lemma {:induction false} ScanEndsOnOperator(src: string, start: nat, current: nat, acc: seq<Token>)
    requires current < |src| && ScanFrom(src, start, current, acc, 1).result.Ok?
    ensures |src| >= 2 && OperatorKind(src[|src| - 1], false).Some?
    decreases |src| - current
  {
    var lexed := TokenAt(src, current, 1).value;
    if lexed.next < |src| {
      ScanEndsOnOperator(src, current, lexed.next, acc + [lexed.token]);
    } else {
      assert PunctuationKind(src[current + 1]).None?;
    }
  }

  /** A fresh scan of a non-empty source succeeds only when the source ends
      with one of `! = < >`, and so only on sources of two or more characters. */
  lemma {:induction false} ScanSucceedsOnlyAfterOperator(src: string)
    requires |src| > 0 && Scan(src).result.Ok?
    ensures |src| >= 2 && OperatorKind(src[|src| - 1], false).Some?
  {
    ScanEndsOnOperator(src, 0, 0, []);
  }

  /** As written, a lone `(` is rejected. With `add_token`'s unwrap left out,
      `x!` is one Bang token spelt `x!`. */
  lemma {:induction false} ScanSkipsFirstCharacter()
    ensures Scan("(").result == Err(UnexpectedCharacter(1))
    ensures Scan("x!").result == Ok([Token(Bang, "x!", None, 1), EofToken(1)])
  {
    assert "x!"[0..2] == "x!";
    assert TokenAt("x!", 0, 1) == Ok(Lexed(Token(Bang, "x!", None, 1), 2));
    var bang := Token(Bang, "x!", None, 1);
    assert [] + [bang] == [bang];
    assert Scan("x!") == ScanFrom("x!", 0, 2, [bang], 1);
    assert [bang] + [EofToken(1)] == [bang, EofToken(1)];
  }

  /** With `add_token`'s unwrap left out, `!=` is read as a single Equal token
      spelt `!=`: the `!` is skipped and the `=` is classified without looking
      further. */
  lemma {:induction false} ScanMisreadsBangEqual()
    ensures Scan("!=").result == Ok([Token(Equal, "!=", None, 1), EofToken(1)])
  {
    var equal := Token(Equal, "!=", None, 1);
    assert "!="[0..2] == "!=";
    assert TokenAt("!=", 0, 1) == Ok(Lexed(equal, 2));
    assert [] + [equal] == [equal];
    assert Scan("!=") == ScanFrom("!=", 0, 2, [equal], 1);
    assert [equal] + [EofToken(1)] == [equal, EofToken(1)];
  }
}
