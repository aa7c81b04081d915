/** The scanner as it is evidently meant to work: `advance` reads the
    character under the cursor and then moves past it, so a lexeme is
    classified by its own first character, and `match_char` on the character
    after an operator consumes it when it is `=`. The recognised characters
    and token kinds are those of module Scanning. */
module ScannerIntended {
  import opened Tokens
  import opened Errors
  import ParserSpec
  import opened Scanning

  /** A token whose lexeme is the spelling of its kind. */
  predicate SpeltOut(t: Token)
  {
    t.lexeme == Spelling(t.tokenType)
  }

  /** The one-character operators, which an immediately following `=` would
      have turned into their two-character forms. */
  const ShortOperators: seq<TokenType> := [Bang, Equal, Less, Greater]

  /** scan_token with the cursor at `k`: classify `src[k]`, then take a
      following `=` into an operator. */
  function IntendedTokenAt(src: string, k: nat, line: nat): (r: Result<Lexed>)
    requires k < |src|
    ensures r.Ok? ==>
              && k < r.value.next <= |src|
              && r.value.token == Token(r.value.token.tokenType, src[k..r.value.next], None, line)
              && Pushed(r.value.token, line)
    ensures r.Err? ==> r.error == UnexpectedCharacter(line)
  {
    var c := src[k];
    match PunctuationKind(c)
    case Some(kind) => Ok(Lexed(Token(kind, src[k..k + 1], None, line), k + 1))
    case None =>
      var equalFollows := k + 1 < |src| && src[k + 1] == '=';
      var next := if equalFollows then k + 2 else k + 1;
      match OperatorKind(c, equalFollows)
      case Some(kind) => Ok(Lexed(Token(kind, src[k..next], None, line), next))
      case None => Err(UnexpectedCharacter(line))
  }

  /** A token is spelt as its kind. */
  lemma {:induction false} IntendedTokenSpelt(src: string, k: nat, line: nat)
    requires k < |src| && IntendedTokenAt(src, k, line).Ok?
    ensures SpeltOut(IntendedTokenAt(src, k, line).value.token)
  {
    var c := src[k];
    var equalFollows := k + 1 < |src| && src[k + 1] == '=';
    assert src[k..k + 1] == [c] by {
      assert |src[k..k + 1]| == 1 && src[k..k + 1][0] == c;
    }
    if PunctuationKind(c).Some? {
      PunctuationSpelling(c);
    } else {
      if equalFollows {
        assert src[k..k + 2] == [c, '='] by {
          assert |src[k..k + 2]| == 2 && src[k..k + 2][0] == c && src[k..k + 2][1] == '=';
        }
      }
      OperatorSpelling(c, equalFollows);
    }
  }

  /** A token is an `=` operator exactly when it starts with `=`, and after a
      one-character operator no `=` follows. */
  lemma {:induction false} IntendedTokenMunches(src: string, k: nat, line: nat)
    requires k < |src| && IntendedTokenAt(src, k, line).Ok?
    ensures var lexed := IntendedTokenAt(src, k, line).value;
      && (lexed.token.tokenType == Equal || lexed.token.tokenType == EqualEqual <==> src[k] == '=')
      && (lexed.token.tokenType in ShortOperators ==>
            lexed.next == k + 1 && !(lexed.next < |src| && src[lexed.next] == '='))
  {
    var c := src[k];
    if PunctuationKind(c).Some? {
      PunctuationIsNoOperator(c);
    } else {
      OperatorForms(c, k + 1 < |src| && src[k + 1] == '=');
    }
  }

  lemma {:induction false} PunctuationIsNoOperator(c: char)
    requires PunctuationKind(c).Some?
    ensures var kind := PunctuationKind(c).value;
      c != '=' && kind != Equal && kind != EqualEqual && kind !in ShortOperators
  {
    match c
    case '(' => case ')' => case '{' => case '}' => case ',' =>
    case '.' => case '-' => case '+' => case ';' => case '*' =>
  }

  lemma {:induction false} OperatorForms(c: char, equalFollows: bool)
    requires OperatorKind(c, equalFollows).Some?
    ensures var kind := OperatorKind(c, equalFollows).value;
      && (kind == Equal || kind == EqualEqual <==> c == '=')
      && (kind in ShortOperators <==> !equalFollows)
  {
    match c
    case '!' => case '=' => case '<' => case '>' =>
  }

  /** The scan_tokens loop from cursor `current`: the tokens it pushes from
      there on, closed by Eof, or the first error. */
  function ScanIntendedFrom(src: string, current: nat, line: nat): (r: Result<seq<Token>>)
    ensures r.Ok? ==>
              && |r.value| > 0
              && r.value[|r.value| - 1] == EofToken(line)
    ensures r.Err? ==> r.error == UnexpectedCharacter(line)
    decreases |src| - current
  {
    if current >= |src| then Ok([EofToken(line)])
    else
      match IntendedTokenAt(src, current, line)
      case Err(e) => Err(e)
      case Ok(lexed) =>
        match ScanIntendedFrom(src, lexed.next, line)
        case Err(e) => Err(e)
        case Ok(rest) => Ok([lexed.token] + rest)
  }

  /** Every token before the final Eof is one that scan_token pushes. */
  lemma {:induction false} ScanIntendedFromPushes(src: string, current: nat, line: nat)
    requires ScanIntendedFrom(src, current, line).Ok?
    ensures var ts := ScanIntendedFrom(src, current, line).value;
      forall i :: 0 <= i < |ts| - 1 ==> Pushed(ts[i], line)
    decreases |src| - current
  {
    if current < |src| {
      var lexed := IntendedTokenAt(src, current, line).value;
      ScanIntendedFromPushes(src, lexed.next, line);
      var rest := ScanIntendedFrom(src, lexed.next, line).value;
      var ts := [lexed.token] + rest;
      assert forall i :: 1 <= i < |ts| ==> ts[i] == rest[i - 1];
    }
  }

  /** scan_tokens on a fresh scanner. */
  function ScanIntended(src: string): Result<seq<Token>>
  {
    ScanIntendedFrom(src, 0, 1)
  }

  /** The scan succeeds exactly when every character of the rest of the source
      is one a lexeme can start with. */
  lemma {:induction false} ScanIntendedFromSucceeds(src: string, current: nat, line: nat)
    requires current <= |src|
    ensures ScanIntendedFrom(src, current, line).Ok? <==>
              forall i :: current <= i < |src| ==> Recognised(src[i])
  {
    if ScanIntendedFrom(src, current, line).Ok? {
      SucceedsOnlyIfRecognised(src, current, line);
    }
    if forall i :: current <= i < |src| ==> Recognised(src[i]) {
      SucceedsIfRecognised(src, current, line);
    }
  }

  lemma {:induction false} SucceedsOnlyIfRecognised(src: string, current: nat, line: nat)
    requires ScanIntendedFrom(src, current, line).Ok?
    ensures forall i :: current <= i < |src| ==> Recognised(src[i])
    decreases |src| - current
  {
    if current < |src| {
      LexesOnlyIfRecognised(src, current, line);
      var lexed := IntendedTokenAt(src, current, line).value;
      SucceedsOnlyIfRecognised(src, lexed.next, line);
    }
  }

  lemma {:induction false} EqualIsRecognised()
    ensures Recognised('=')
  {
    assert OperatorKind('=', false) == Some(Equal);
  }

  lemma {:induction false} SucceedsIfRecognised(src: string, current: nat, line: nat)
    requires forall i :: current <= i < |src| ==> Recognised(src[i])
    ensures ScanIntendedFrom(src, current, line).Ok?
    decreases |src| - current
  {
    if current < |src| {
      RecognisedLexes(src, current, line);
      var lexed := IntendedTokenAt(src, current, line).value;
      SucceedsIfRecognised(src, lexed.next, line);
    }
  }

  /** Only recognised characters make up a token. */
  lemma {:induction false} LexesOnlyIfRecognised(src: string, k: nat, line: nat)
    requires k < |src| && IntendedTokenAt(src, k, line).Ok?
    ensures forall i :: k <= i < IntendedTokenAt(src, k, line).value.next ==> Recognised(src[i])
  {
    if IntendedTokenAt(src, k, line).value.next == k + 2 {
      EqualIsRecognised();
    }
  }

  /** A recognised character always starts a token; an operator takes two
      characters only when the second is `=`. */
  lemma {:induction false} RecognisedLexes(src: string, k: nat, line: nat)
    requires k < |src| && Recognised(src[k])
    ensures IntendedTokenAt(src, k, line).Ok?
    ensures var next := IntendedTokenAt(src, k, line).value.next;
      next == k + 1 || (next == k + 2 && src[k + 1] == '=')
  {
  }

  lemma {:induction false} ScanIntendedSucceeds(src: string)
    ensures ScanIntended(src).Ok? <==> forall i :: 0 <= i < |src| ==> Recognised(src[i])
  {
    ScanIntendedFromSucceeds(src, 0, 1);
  }

  /** The first token of a successful scan from `current` is the one that
      starts there, or Eof at the end. */
  lemma {:induction false} ScanIntendedFromFirst(src: string, current: nat, line: nat)
    requires ScanIntendedFrom(src, current, line).Ok?
    ensures var ts := ScanIntendedFrom(src, current, line).value;
      if current < |src| then
        IntendedTokenAt(src, current, line).Ok? && ts[0] == IntendedTokenAt(src, current, line).value.token
      else ts[0] == EofToken(line)
  {
  }

  /** The tokens tile the rest of the source. */
  lemma {:induction false} ScanIntendedFromTiles(src: string, current: nat, line: nat)
    requires current <= |src|
    requires ScanIntendedFrom(src, current, line).Ok?
    ensures Lexemes(ScanIntendedFrom(src, current, line).value) == src[current..]
    decreases |src| - current
  {
    if current == |src| {
      assert Lexemes([EofToken(line)]) == "" + Lexemes([]);
    } else {
      var lexed := IntendedTokenAt(src, current, line).value;
      ScanIntendedFromTiles(src, lexed.next, line);
      var rest := ScanIntendedFrom(src, lexed.next, line).value;
      TilesOneMore(src, current, lexed.next, lexed.token, rest);
    }
  }

  /** A token spelling `src[current..next]` before tokens spelling the rest
      spells `src[current..]`. */
  lemma {:induction false} TilesOneMore(src: string, current: nat, next: nat, t: Token, rest: seq<Token>)
    requires current <= next <= |src|
    requires t.lexeme == src[current..next] && Lexemes(rest) == src[next..]
    ensures Lexemes([t] + rest) == src[current..]
  {
    LexemesCons(t, rest);
    assert src[current..] == src[current..next] + src[next..];
  }

  /** Each token but the final Eof is spelt as its kind. */
  lemma {:induction false} ScanIntendedFromSpells(src: string, current: nat, line: nat)
    requires ScanIntendedFrom(src, current, line).Ok?
    ensures var ts := ScanIntendedFrom(src, current, line).value;
      forall i :: 0 <= i < |ts| - 1 ==> SpeltOut(ts[i])
    decreases |src| - current
  {
    if current < |src| {
      var lexed := IntendedTokenAt(src, current, line).value;
      IntendedTokenSpelt(src, current, line);
      ScanIntendedFromSpells(src, lexed.next, line);
      var rest := ScanIntendedFrom(src, lexed.next, line).value;
      var ts := [lexed.token] + rest;
      forall i | 0 <= i < |ts| - 1
        ensures SpeltOut(ts[i])
      {
        if i == 0 {
          assert ts[i] == lexed.token;
        } else {
          assert ts[i] == rest[i - 1];
        }
      }
    }
  }

  /** Every `=` right after a one-character operator has been taken into
      that operator, so no one-character operator is followed by a token
      that starts with `=`. */
  predicate Munched(ts: seq<Token>)
  {
    forall i :: 0 <= i < |ts| - 1 && ts[i].tokenType in ShortOperators ==>
      ts[i + 1].tokenType != Equal && ts[i + 1].tokenType != EqualEqual
  }

  lemma {:induction false} ScanIntendedFromMunches(src: string, current: nat, line: nat)
    requires ScanIntendedFrom(src, current, line).Ok?
    ensures Munched(ScanIntendedFrom(src, current, line).value)
    decreases |src| - current
  {
    if current < |src| {
      var lexed := IntendedTokenAt(src, current, line).value;
      IntendedTokenMunches(src, current, line);
      ScanIntendedFromMunches(src, lexed.next, line);
      ScanIntendedFromFirst(src, lexed.next, line);
      if lexed.next < |src| {
        IntendedTokenMunches(src, lexed.next, line);
      }
      var rest := ScanIntendedFrom(src, lexed.next, line).value;
      var ts := [lexed.token] + rest;
      assert forall i :: 1 <= i < |ts| ==> ts[i] == rest[i - 1];
    }
  }

  /** A successful scan returns one Eof, at the end, after tokens that spell
      the source, each as its kind, with no `=` split off an operator. */
  lemma {:induction false} ScanIntendedShape(src: string)
    requires ScanIntended(src).Ok?
    ensures var ts := ScanIntended(src).value;
      && ts[|ts| - 1] == EofToken(1)
      && (forall i :: 0 <= i < |ts| - 1 ==> Pushed(ts[i], 1) && SpeltOut(ts[i]))
      && Lexemes(ts) == src
      && Munched(ts)
  {
    ScanIntendedFromPushes(src, 0, 1);
    ScanIntendedFromTiles(src, 0, 1);
    ScanIntendedFromSpells(src, 0, 1);
    ScanIntendedFromMunches(src, 0, 1);
    assert src[0..] == src;
  }

  /** The parser can run on every vector the scanner returns. */
  lemma {:induction false} ScanIntendedFeedsParser(src: string)
    requires ScanIntended(src).Ok?
    ensures ParserSpec.WellFormed(ScanIntended(src).value)
    ensures ParserSpec.Cursor(ScanIntended(src).value, 0)
  {
    ScanIntendedFromPushes(src, 0, 1);
    PushedFeedsParser(ScanIntended(src).value, 1);
  }

  /** The corrected scanner on the inputs that the one as written gets
      wrong: a lone `(` and the operator `!=`. */
  lemma {:induction false} ScanIntendedExamples()
    ensures ScanIntended("(") == Ok([Token(LeftParen, "(", None, 1), EofToken(1)])
    ensures ScanIntended("!=") == Ok([Token(BangEqual, "!=", None, 1), EofToken(1)])
  {
    var paren := Token(LeftParen, "(", None, 1);
    assert "("[0..1] == "(";
    assert IntendedTokenAt("(", 0, 1) == Ok(Lexed(paren, 1));
    assert ScanIntendedFrom("(", 1, 1) == Ok([EofToken(1)]);
    assert [paren] + [EofToken(1)] == [paren, EofToken(1)];
    var bangEqual := Token(BangEqual, "!=", None, 1);
    assert "!="[0..2] == "!=";
    assert IntendedTokenAt("!=", 0, 1) == Ok(Lexed(bangEqual, 2));
    assert ScanIntendedFrom("!=", 2, 1) == Ok([EofToken(1)]);
    assert [bangEqual] + [EofToken(1)] == [bangEqual, EofToken(1)];
  }
}
