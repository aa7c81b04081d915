/** The parser's grammar as pure functions of the token vector and a cursor.
    Each function returns what the corresponding parser method returns, where
    its cursor ends, and the diagnostics it reports on the way; the class in
    module Parsing is proved to behave exactly like these. */
module ParserSpec {
  import opened Tokens
  import opened Errors
  import opened Exprs

  /** A token vector the parser runs on without panicking: it ends with Eof, so
      that peek stays in bounds, and every number or string token carries the
      payload that primary unwraps. */
  predicate WellFormed(ts: seq<Token>)
  {
    && |ts| > 0
    && ts[|ts| - 1].tokenType == Eof
    && forall i {:trigger ts[i].literal} :: 0 <= i < |ts| && (ts[i].tokenType == TokenType.Number || ts[i].tokenType == TokenType.String) ==>
         ts[i].literal.Some?
  }

  /** The index of the first Eof, or the length when there is none. */
  function FirstEof(ts: seq<Token>): (r: nat)
    ensures r <= |ts|
    ensures r < |ts| ==> ts[r].tokenType == Eof
    ensures |ts| > 0 && ts[|ts| - 1].tokenType == Eof ==> r < |ts|
  {
    if ts == [] then 0
    else if ts[0].tokenType == Eof then 0
    else 1 + FirstEof(ts[1..])
  }

  /** No token before the first Eof is an Eof. */
  lemma {:induction false} BeforeFirstEof(ts: seq<Token>)
    ensures forall i :: 0 <= i < FirstEof(ts) ==> ts[i].tokenType != Eof
  {
    if ts != [] && ts[0].tokenType != Eof {
      BeforeFirstEof(ts[1..]);
      assert forall i :: 1 <= i < FirstEof(ts) ==> ts[i] == ts[1..][i - 1];
    }
  }

  /** A cursor: inside the vector and not past the first Eof. */
  predicate Cursor(ts: seq<Token>, pos: nat)
  {
    pos < |ts| && pos <= FirstEof(ts)
  }

  function IsAtEndAt(ts: seq<Token>, pos: nat): bool
    requires pos < |ts|
  {
    ts[pos].tokenType == Eof
  }

  /** check: never true at Eof. */
  function CheckAt(ts: seq<Token>, pos: nat, k: TokenType): (r: bool)
    requires pos < |ts|
    ensures r <==> k != Eof && ts[pos].tokenType == k
  {
    if IsAtEndAt(ts, pos) then false else ts[pos].tokenType == k
  }

  /** Whether match_type succeeds: the token is not Eof and its kind is one of
      the list, that is, some kind of the list passes check. */
  function MatchAt(ts: seq<Token>, pos: nat, types: seq<TokenType>): bool
    requires pos < |ts|
  {
    !IsAtEndAt(ts, pos) && ts[pos].tokenType in types
  }

  /** match_type tries check on each listed kind in turn: it succeeds exactly
      when one of them passes. */
  lemma {:induction false} MatchAtSomeCheck(ts: seq<Token>, pos: nat, types: seq<TokenType>)
    requires pos < |ts|
    ensures MatchAt(ts, pos, types) <==> exists j :: 0 <= j < |types| && CheckAt(ts, pos, types[j])
  {
  }

  /** Where advance leaves the cursor: one further, except at Eof. */
  function AdvanceAt(ts: seq<Token>, pos: nat): (next: nat)
    requires WellFormed(ts) && Cursor(ts, pos)
    ensures Cursor(ts, next)
    ensures next == pos + 1 <==> !IsAtEndAt(ts, pos)
    ensures next == pos <==> IsAtEndAt(ts, pos)
  {
    if IsAtEndAt(ts, pos) then pos else pos + 1
  }

  /** A match leaves the cursor on a token that is not Eof. */
  lemma {:induction false} MatchNotAtEnd(ts: seq<Token>, pos: nat, types: seq<TokenType>)
    requires WellFormed(ts) && Cursor(ts, pos) && MatchAt(ts, pos, types)
    ensures ts[pos].tokenType in types && !IsAtEndAt(ts, pos) && Cursor(ts, pos + 1)
  {
  }

  /** Reports of consecutive rules concatenate. */
  lemma {:induction false} AppendAssociates(log: seq<Diagnostic>, a: seq<Diagnostic>, b: seq<Diagnostic>)
    ensures log + (a + b) == (log + a) + b
  {
  }

  /** The outcome of running one grammar rule from a cursor: the rule's result,
      the cursor afterwards and the diagnostics reported, in order. */
  datatype Step<T> = Step(result: Result<T>, pos: nat, diags: seq<Diagnostic>)

  /** A run of a parser method agrees with step `s`: it returned `s`'s result,
      left the cursor at `s`'s position and reported `s`'s diagnostics after
      those reported before. */
  predicate Agrees<T(==)>(s: Step<T>, r: Result<T>, pos: nat, before: seq<Diagnostic>, after: seq<Diagnostic>)
  {
    r == s.result && pos == s.pos && after == before + s.diags
  }

  /** A loop that stands at step `rest`, having logged `now`, is on course to
      finish as step `whole` begun with log `log`. */
  predicate Resumes<T(==)>(whole: Step<T>, rest: Step<T>, log: seq<Diagnostic>, now: seq<Diagnostic>)
  {
    whole.result == rest.result && whole.pos == rest.pos && log + whole.diags == now + rest.diags
  }

  /** The four left-associative binary levels, loosest first. */
  datatype BinaryLevel = EqualityLevel | ComparisonLevel | TermLevel | FactorLevel

  /** The operator kinds each binary level folds over. */
  function Operators(level: BinaryLevel): seq<TokenType>
  {
    match level
    case EqualityLevel => [BangEqual, EqualEqual]
    case ComparisonLevel => [Greater, GreaterEqual, Less, LessEqual]
    case TermLevel => [Plus, Minus]
    case FactorLevel => [Slash, Star]
  }

  /** The operator kinds of the levels that bind tighter than `level`. */
  function TighterOperators(level: BinaryLevel): seq<TokenType>
    decreases Rank(level)
  {
    match level
    case EqualityLevel => Operators(ComparisonLevel) + TighterOperators(ComparisonLevel)
    case ComparisonLevel => Operators(TermLevel) + TighterOperators(TermLevel)
    case TermLevel => Operators(FactorLevel) + TighterOperators(FactorLevel)
    case FactorLevel => []
  }

  /** The level that binds one step tighter. */
  function NextLevel(level: BinaryLevel): (next: BinaryLevel)
    requires level != FactorLevel
    ensures Rank(next) == Rank(level) - 1
  {
    match level
    case EqualityLevel => ComparisonLevel
    case ComparisonLevel => TermLevel
    case TermLevel => FactorLevel
  }

  /** Precedence rank, used to order the mutually recursive rules. */
  function Rank(level: BinaryLevel): nat
  {
    match level
    case EqualityLevel => 5
    case ComparisonLevel => 4
    case TermLevel => 3
    case FactorLevel => 2
  }

  const UnaryOperators: seq<TokenType> := [Bang, Minus]

  /** The kinds at which synchronize stops, because they start a statement. */
  const StatementStarts: seq<TokenType> := [Class, Fun, Var, For, If, While, Print, Return]

  // ---------------------------------------------------------------------
  // Tree shapes that each rule can build

  /** A tree the rule for `level` can return: an operand of the level, or a
      Binary node of one of the level's operators whose left child is again
      of this level and whose right child is an operand of the level. */
  predicate BinaryShaped(level: BinaryLevel, e: Expr)
    decreases e, Rank(level), 1
  {
    || OperandShaped(level, e)
    || match e
       case Binary(b) =>
         && b.operator.tokenType in Operators(level)
         && BinaryShaped(level, b.left)
         && OperandShaped(level, b.right)
       case _ => false
  }

  /** A tree the next tighter rule can return. */
  predicate OperandShaped(level: BinaryLevel, e: Expr)
    decreases e, Rank(level), 0
  {
    if level == FactorLevel then UnaryShaped(e) else BinaryShaped(NextLevel(level), e)
  }

  predicate UnaryShaped(e: Expr)
    decreases e, 1, 1
  {
    match e
    case Unary(u) => u.operator.tokenType in UnaryOperators && UnaryShaped(u.right)
    case _ => PrimaryShaped(e)
  }

  predicate PrimaryShaped(e: Expr)
    decreases e, 0, 1
  {
    match e
    case Literal(_) => true
    case Grouping(g) => ExpressionShaped(g.expression)
    case _ => false
  }

  predicate ExpressionShaped(e: Expr)
    decreases e, 6, 0
  {
    BinaryShaped(EqualityLevel, e)
  }

  // ---------------------------------------------------------------------
  // Diagnostics

  /** What primary reports when no rule applies at a token on `line`. */
  function NoExpressionReport(line: nat): Diagnostic
  {
    Diagnostic(line, AtEnd, "Expect expression")
  }

  /** The error primary returns in that case (its text is capitalised differently). */
  function NoExpressionError(line: nat): Error
  {
    ParseError(Diagnostic(line, AtEnd, "Expect Expression"))
  }

  const MissingParen: string := "Expect `)` after expression."

  /** What every grammar rule keeps: the cursor never moves back and never
      passes the first Eof, and a failure is primary's, raised at the token
      where the cursor stopped, and was reported last. */
  predicate Disciplined(ts: seq<Token>, pos: nat, s: Step<Expr>)
  {
    && pos <= s.pos
    && Cursor(ts, s.pos)
    && (s.result.Err? ==>
          && s.diags != []
          && s.result.error == NoExpressionError(ts[s.pos].line)
          && s.diags[|s.diags| - 1] == NoExpressionReport(ts[s.pos].line))
  }

  // ---------------------------------------------------------------------
  // The rules

  /** expression: equality ( "," equality )*, keeping only the last tree. */
  function ExpressionAt(ts: seq<Token>, pos: nat): (s: Step<Expr>)
    requires WellFormed(ts) && Cursor(ts, pos)
    ensures Disciplined(ts, pos, s)
    ensures s.result.Ok? ==> ExpressionShaped(s.result.value)
    decreases |ts| - pos, 6, 1
  {
    var first := BinaryAt(EqualityLevel, ts, pos);
    if first.result.Err? then first
    else
      var rest := ExpressionLoopAt(ts, first.result.value, first.pos);
      Step(rest.result, rest.pos, first.diags + rest.diags)
  }

  /** The comma loop of expression, with `e` the tree parsed so far. */
  function ExpressionLoopAt(ts: seq<Token>, e: Expr, pos: nat): (s: Step<Expr>)
    requires WellFormed(ts) && Cursor(ts, pos) && ExpressionShaped(e)
    ensures Disciplined(ts, pos, s)
    ensures s.result.Ok? ==> ExpressionShaped(s.result.value)
    decreases |ts| - pos, 6, 0
  {
    if MatchAt(ts, pos, [Comma]) then
      MatchNotAtEnd(ts, pos, [Comma]);
      var next := BinaryAt(EqualityLevel, ts, pos + 1);
      if next.result.Err? then next
      else
        var rest := ExpressionLoopAt(ts, next.result.value, next.pos);
        Step(rest.result, rest.pos, next.diags + rest.diags)
    else
      Step(Ok(e), pos, [])
  }

  /** The shared helper of the four binary levels: one operand, then a
      left fold over operator and operand pairs of the level. */
  function BinaryAt(level: BinaryLevel, ts: seq<Token>, pos: nat): (s: Step<Expr>)
    requires WellFormed(ts) && Cursor(ts, pos)
    ensures Disciplined(ts, pos, s)
    ensures s.result.Ok? ==> BinaryShaped(level, s.result.value)
    decreases |ts| - pos, Rank(level), 2
  {
    var first := OperandAt(level, ts, pos);
    if first.result.Err? then first
    else
      var rest := BinaryLoopAt(level, ts, first.result.value, first.pos);
      Step(rest.result, rest.pos, first.diags + rest.diags)
  }

  /** The loop of the binary helper, with `left` the tree folded so far. */
  function BinaryLoopAt(level: BinaryLevel, ts: seq<Token>, left: Expr, pos: nat): (s: Step<Expr>)
    requires WellFormed(ts) && Cursor(ts, pos) && BinaryShaped(level, left)
    ensures Disciplined(ts, pos, s)
    ensures s.result.Ok? ==> BinaryShaped(level, s.result.value)
    decreases |ts| - pos, Rank(level), 0
  {
    if MatchAt(ts, pos, Operators(level)) then
      MatchNotAtEnd(ts, pos, Operators(level));
      var operator := ts[pos];
      var right := OperandAt(level, ts, pos + 1);
      if right.result.Err? then right
      else
        var rest := BinaryLoopAt(level, ts, Binary(BinaryExpr(left, operator, right.result.value)), right.pos);
        Step(rest.result, rest.pos, right.diags + rest.diags)
    else
      Step(Ok(left), pos, [])
  }

  /** The helper is its first operand followed by the loop. */
  lemma {:induction false} BinaryFirst(level: BinaryLevel, ts: seq<Token>, pos: nat)
    requires WellFormed(ts) && Cursor(ts, pos)
    ensures var first := OperandAt(level, ts, pos);
      && (first.result.Err? ==> BinaryAt(level, ts, pos) == first)
      && (first.result.Ok? ==>
            var rest := BinaryLoopAt(level, ts, first.result.value, first.pos);
            && BinaryShaped(level, first.result.value)
            && BinaryAt(level, ts, pos) == Step(rest.result, rest.pos, first.diags + rest.diags))
  {
  }

  /** One round of the binary loop after an operator of the level: the operand
      that follows, then the rest of the loop on the extended tree. */
  lemma {:induction false} BinaryLoopRound(level: BinaryLevel, ts: seq<Token>, left: Expr, pos: nat)
    requires WellFormed(ts) && Cursor(ts, pos) && BinaryShaped(level, left)
    requires MatchAt(ts, pos, Operators(level))
    ensures Cursor(ts, pos + 1)
    ensures var right := OperandAt(level, ts, pos + 1);
      && (right.result.Err? ==> BinaryLoopAt(level, ts, left, pos) == right)
      && (right.result.Ok? ==>
            var tree := Binary(BinaryExpr(left, ts[pos], right.result.value));
            var rest := BinaryLoopAt(level, ts, tree, right.pos);
            && BinaryShaped(level, tree)
            && BinaryLoopAt(level, ts, left, pos) == Step(rest.result, rest.pos, right.diags + rest.diags))
  {
  }

  /** The rule one level tighter than `level`: the closure the helper is given. */
  function OperandAt(level: BinaryLevel, ts: seq<Token>, pos: nat): (s: Step<Expr>)
    requires WellFormed(ts) && Cursor(ts, pos)
    ensures Disciplined(ts, pos, s)
    ensures s.result.Ok? ==> OperandShaped(level, s.result.value)
    decreases |ts| - pos, Rank(level), 1
  {
    if level == FactorLevel then UnaryAt(ts, pos) else BinaryAt(NextLevel(level), ts, pos)
  }

  /** unary: ( "!" | "-" ) unary | primary. */
  function UnaryAt(ts: seq<Token>, pos: nat): (s: Step<Expr>)
    requires WellFormed(ts) && Cursor(ts, pos)
    ensures Disciplined(ts, pos, s)
    ensures s.result.Ok? ==> UnaryShaped(s.result.value)
    decreases |ts| - pos, 1, 1
  {
    if MatchAt(ts, pos, UnaryOperators) then
      MatchNotAtEnd(ts, pos, UnaryOperators);
      var operator := ts[pos];
      var right := UnaryAt(ts, pos + 1);
      if right.result.Err? then right
      else Step(Ok(Unary(UnaryExpr(operator, right.result.value))), right.pos, right.diags)
    else
      PrimaryAt(ts, pos)
  }

  /** primary: false | true | nil | number | string | "(" expression ")".
      A missing ")" is reported but the group is still returned. */
  function PrimaryAt(ts: seq<Token>, pos: nat): (s: Step<Expr>)
    requires WellFormed(ts) && Cursor(ts, pos)
    ensures Disciplined(ts, pos, s)
    ensures s.result.Ok? ==> PrimaryShaped(s.result.value)
    decreases |ts| - pos, 0, 1
  {
    if MatchAt(ts, pos, [False]) then
      MatchNotAtEnd(ts, pos, [False]);
      Step(Ok(Literal(LiteralExpr(Some(LiteralValue.Identifier("False"))))), pos + 1, [])
    else if MatchAt(ts, pos, [True]) then
      MatchNotAtEnd(ts, pos, [True]);
      Step(Ok(Literal(LiteralExpr(Some(LiteralValue.Identifier("True"))))), pos + 1, [])
    else if MatchAt(ts, pos, [Nil]) then
      MatchNotAtEnd(ts, pos, [Nil]);
      Step(Ok(Literal(LiteralExpr(Some(LiteralValue.Identifier("null"))))), pos + 1, [])
    else if MatchAt(ts, pos, [TokenType.Number, TokenType.String]) then
      MatchNotAtEnd(ts, pos, [TokenType.Number, TokenType.String]);
      Step(Ok(Literal(LiteralExpr(Some(ts[pos].literal.value)))), pos + 1, [])
    else if MatchAt(ts, pos, [LeftParen]) then
      MatchNotAtEnd(ts, pos, [LeftParen]);
      GroupingAt(ts, pos + 1)
    else
      Step(Err(NoExpressionError(ts[pos].line)), pos, [NoExpressionReport(ts[pos].line)])
  }

  /** The rest of primary after "(": an expression, then a consume of ")"
      whose outcome is dropped, so that only its cursor move and its report
      remain. */
  function GroupingAt(ts: seq<Token>, pos: nat): (s: Step<Expr>)
    requires WellFormed(ts) && Cursor(ts, pos)
    ensures Disciplined(ts, pos, s)
    ensures s.result.Ok? ==> s.result.value.Grouping?
    decreases |ts| - pos, 7, 0
  {
    var inner := ExpressionAt(ts, pos);
    if inner.result.Err? then inner
    else
      var close := ConsumeAt(ts, inner.pos, RightParen, MissingParen);
      Step(Ok(Grouping(GroupingExpr(inner.result.value))), close.pos, inner.diags + close.diags)
  }

  /** consume: pass a token of kind `k`, or report and fail without moving. */
  function ConsumeAt(ts: seq<Token>, pos: nat, k: TokenType, message: string): (s: Step<Token>)
    requires WellFormed(ts) && Cursor(ts, pos)
    ensures Cursor(ts, s.pos)
    ensures s.result.Ok? <==> CheckAt(ts, pos, k)
    ensures s.result.Ok? ==> s.result.value == ts[pos] && s.result.value.tokenType == k && s.pos == pos + 1 && s.diags == []
    ensures s.result.Err? ==>
              && s.pos == pos
              && |s.diags| == 1
              && s.result.error == ParseError(s.diags[0])
              && s.diags[0].line == ts[pos].line
              && s.diags[0].description == message
              && (s.diags[0].location == AtEnd <==> ts[pos].tokenType == Eof)
              && (ts[pos].tokenType != Eof ==> s.diags[0].location == AtLexeme(ts[pos].lexeme))
  {
    if CheckAt(ts, pos, k) then
      Step(Ok(ts[pos]), pos + 1, [])
    else
      var token := ts[pos];
      var d := if token.tokenType == Eof then Diagnostic(token.line, AtEnd, message)
               else Diagnostic(token.line, AtLexeme(token.lexeme), message);
      Step(Err(ParseError(d)), pos, [d])
  }

  /** A position where synchronize stops: at Eof, right after a semicolon, or
      before a token that starts a statement. */
  predicate SyncPoint(ts: seq<Token>, j: nat)
  {
    && j < |ts|
    && (|| ts[j].tokenType == Eof
        || (j >= 1 && ts[j - 1].tokenType == Semicolon)
        || ts[j].tokenType in StatementStarts)
  }

  /** Where the loop of synchronize stops when it resumes at `pos`. */
  function SyncFrom(ts: seq<Token>, pos: nat): (stop: nat)
    requires WellFormed(ts) && Cursor(ts, pos) && pos >= 1
    ensures pos <= stop && Cursor(ts, stop)
    ensures SyncPoint(ts, stop)
    ensures forall j :: pos <= j < stop ==> !SyncPoint(ts, j)
    decreases |ts| - pos
  {
    if IsAtEndAt(ts, pos) then pos
    else if ts[pos - 1].tokenType == Semicolon then pos
    else if ts[pos].tokenType in StatementStarts then pos
    else SyncFrom(ts, pos + 1)
  }
}
