/** Properties of the grammar functions: precedence and associativity, what
    unary, primary and the comma loop produce, and worked examples. */
module ParserProps {
  import opened Tokens
  import opened Errors
  import opened Exprs
  import opened ParserSpec

  /** An operand of a level, if it is a Binary node at all, carries an operator
      of a strictly tighter level, never one of the level's own. */
  lemma {:induction false} OperandOperator(level: BinaryLevel, x: Expr)
    ensures OperandShaped(level, x) && x.Binary? ==>
              && x.binary.operator.tokenType in TighterOperators(level)
              && x.binary.operator.tokenType !in Operators(level)
    decreases Rank(level)
  {
    match level
    case EqualityLevel =>
      OperandOperator(ComparisonLevel, x);
      assert TighterOperators(EqualityLevel) == [Greater, GreaterEqual, Less, LessEqual, Plus, Minus, Slash, Star];
      if OperandShaped(level, x) { assert BinaryShaped(ComparisonLevel, x); }
    case ComparisonLevel =>
      OperandOperator(TermLevel, x);
      assert TighterOperators(ComparisonLevel) == [Plus, Minus, Slash, Star];
      if OperandShaped(level, x) { assert BinaryShaped(TermLevel, x); }
    case TermLevel =>
      OperandOperator(FactorLevel, x);
      assert TighterOperators(TermLevel) == [Slash, Star];
      if OperandShaped(level, x) { assert BinaryShaped(FactorLevel, x); }
    case FactorLevel =>
      assert OperandShaped(level, x) == UnaryShaped(x);
      if x.Binary? {
        assert !PrimaryShaped(x);
        assert !UnaryShaped(x);
      }
  }

  /** Left associativity: in a Binary node built by a level, the left child is
      again a tree of the level, while the right child is an operand, so a
      Binary right child has an operator of a tighter level. Thus `a - b - c`
      can only be read as `(a - b) - c`. */
  lemma {:induction false} LeftAssociative(level: BinaryLevel, e: Expr)
    requires BinaryShaped(level, e) && e.Binary? && e.binary.operator.tokenType in Operators(level)
    ensures BinaryShaped(level, e.binary.left)
    ensures OperandShaped(level, e.binary.right)
    ensures e.binary.right.Binary? ==>
              && e.binary.right.binary.operator.tokenType in TighterOperators(level)
              && e.binary.right.binary.operator.tokenType !in Operators(level)
  {
    OperandOperator(level, e);
    OperandOperator(level, e.binary.right);
  }

  /** unary builds a Unary node exactly when it starts on `!` or `-`, and the
      node carries that token and the tree of the recursive call after it;
      on any other token it is primary. */
  lemma {:induction false} UnaryOnlyAfterOperator(ts: seq<Token>, pos: nat)
    requires WellFormed(ts) && Cursor(ts, pos)
    ensures var s := UnaryAt(ts, pos);
      s.result.Ok? && s.result.value.Unary? ==>
        && ts[pos].tokenType in UnaryOperators
        && s.result.value.unary.operator == ts[pos]
    ensures ts[pos].tokenType in UnaryOperators ==>
      && Cursor(ts, pos + 1)
      && var s := UnaryAt(ts, pos);
         var inner := UnaryAt(ts, pos + 1);
         && (s.result.Ok? <==> inner.result.Ok?)
         && (s.result.Ok? ==> s.result == Ok(Unary(UnaryExpr(ts[pos], inner.result.value))))
         && s.pos == inner.pos && s.diags == inner.diags
    ensures ts[pos].tokenType !in UnaryOperators ==> UnaryAt(ts, pos) == PrimaryAt(ts, pos)
  {
    if ts[pos].tokenType in UnaryOperators {
      var j :| 0 <= j < |UnaryOperators| && UnaryOperators[j] == ts[pos].tokenType;
      assert CheckAt(ts, pos, UnaryOperators[j]);
      MatchNotAtEnd(ts, pos, UnaryOperators);
    }
  }

  /** The literal tokens primary accepts, and the literal each one becomes:
      the keywords become identifier literals with the texts "False", "True"
      and "null"; numbers and strings keep their payload. */
  lemma {:induction false} PrimaryLiterals(ts: seq<Token>, pos: nat)
    requires WellFormed(ts) && Cursor(ts, pos)
    ensures var s := PrimaryAt(ts, pos); var k := ts[pos].tokenType;
      && (k == False ==> s == Step(Ok(Literal(LiteralExpr(Some(LiteralValue.Identifier("False"))))), pos + 1, []))
      && (k == True ==> s == Step(Ok(Literal(LiteralExpr(Some(LiteralValue.Identifier("True"))))), pos + 1, []))
      && (k == Nil ==> s == Step(Ok(Literal(LiteralExpr(Some(LiteralValue.Identifier("null"))))), pos + 1, []))
      && (k == TokenType.Number || k == TokenType.String ==>
            ts[pos].literal.Some? && s == Step(Ok(Literal(LiteralExpr(ts[pos].literal))), pos + 1, []))
  {
    var k := ts[pos].tokenType;
    if k == False {
      assert CheckAt(ts, pos, [False][0]);
    } else if k == True {
      assert CheckAt(ts, pos, [True][0]);
    } else if k == Nil {
      assert CheckAt(ts, pos, [Nil][0]);
    } else if k == TokenType.Number {
      assert CheckAt(ts, pos, [TokenType.Number, TokenType.String][0]);
    } else if k == TokenType.String {
      assert CheckAt(ts, pos, [TokenType.Number, TokenType.String][1]);
    }
  }

  /** A failure of primary itself: no rule applies at the cursor, so nothing
      moves, exactly one diagnostic is reported and the error is returned. */
  lemma {:induction false} PrimaryNoRule(ts: seq<Token>, pos: nat)
    requires WellFormed(ts) && Cursor(ts, pos)
    requires ts[pos].tokenType !in [False, True, Nil, TokenType.Number, TokenType.String, LeftParen]
    ensures PrimaryAt(ts, pos) == Step(Err(NoExpressionError(ts[pos].line)), pos, [NoExpressionReport(ts[pos].line)])
  {
  }

  /** After "(" a successful inner expression always gives a group. The cursor
      passes ")" only when it is there; otherwise exactly one further
      diagnostic is reported and no error propagates. */
  lemma {:induction false} GroupingAlwaysBuilt(ts: seq<Token>, pos: nat)
    requires WellFormed(ts) && Cursor(ts, pos) && ts[pos].tokenType == LeftParen
    ensures Cursor(ts, pos + 1)
    ensures var inner := ExpressionAt(ts, pos + 1); var s := PrimaryAt(ts, pos);
      && (inner.result.Err? ==> s == inner)
      && (inner.result.Ok? ==>
            && s.result == Ok(Grouping(GroupingExpr(inner.result.value)))
            && (ts[inner.pos].tokenType == RightParen ==> s.pos == inner.pos + 1 && s.diags == inner.diags)
            && (ts[inner.pos].tokenType != RightParen ==>
                  && s.pos == inner.pos
                  && |s.diags| == |inner.diags| + 1
                  && s.diags[..|inner.diags|] == inner.diags
                  && s.diags[|inner.diags|].description == MissingParen
                  && (s.diags[|inner.diags|].location == AtEnd <==> ts[inner.pos].tokenType == Eof)))
  {
    assert CheckAt(ts, pos, [LeftParen][0]);
    MatchNotAtEnd(ts, pos, [LeftParen]);
  }

  /** The comma loop discards the tree parsed so far as soon as it sees a
      comma: from then on its outcome does not depend on that tree. */
  lemma {:induction false} ExpressionLoopDiscards(ts: seq<Token>, e1: Expr, e2: Expr, pos: nat)
    requires WellFormed(ts) && Cursor(ts, pos) && ExpressionShaped(e1) && ExpressionShaped(e2)
    requires MatchAt(ts, pos, [Comma])
    ensures ExpressionLoopAt(ts, e1, pos) == ExpressionLoopAt(ts, e2, pos)
  {
  }

  /** Without a comma the loop returns the tree it was given and reports nothing. */
  lemma {:induction false} ExpressionLoopWithoutComma(ts: seq<Token>, e: Expr, pos: nat)
    requires WellFormed(ts) && Cursor(ts, pos) && ExpressionShaped(e)
    requires !MatchAt(ts, pos, [Comma])
    ensures ExpressionLoopAt(ts, e, pos) == Step(Ok(e), pos, [])
  {
  }

  /** A successful comma loop never stops on a comma. */
  lemma {:induction false} ExpressionLoopStopsOffComma(ts: seq<Token>, e: Expr, pos: nat)
    requires WellFormed(ts) && Cursor(ts, pos) && ExpressionShaped(e)
    ensures var s := ExpressionLoopAt(ts, e, pos);
      s.result.Ok? ==> !MatchAt(ts, s.pos, [Comma])
    decreases |ts| - pos
  {
    if MatchAt(ts, pos, [Comma]) {
      MatchNotAtEnd(ts, pos, [Comma]);
      var next := BinaryAt(EqualityLevel, ts, pos + 1);
      if next.result.Ok? {
        ExpressionLoopStopsOffComma(ts, next.result.value, next.pos);
      }
    }
  }

  /** expression consumes every comma: when it succeeds it never stops on one,
      and without a comma after the first equality it is that equality. */
  lemma {:induction false} ExpressionStopsOffComma(ts: seq<Token>, pos: nat)
    requires WellFormed(ts) && Cursor(ts, pos)
    ensures var s := ExpressionAt(ts, pos);
      s.result.Ok? ==> !MatchAt(ts, s.pos, [Comma])
    ensures var first := BinaryAt(EqualityLevel, ts, pos);
      first.result.Ok? && !MatchAt(ts, first.pos, [Comma]) ==> ExpressionAt(ts, pos) == first
  {
    var first := BinaryAt(EqualityLevel, ts, pos);
    if first.result.Ok? {
      ExpressionLoopStopsOffComma(ts, first.result.value, first.pos);
      if !MatchAt(ts, first.pos, [Comma]) {
        ExpressionLoopWithoutComma(ts, first.result.value, first.pos);
      }
    }
  }

  // ---------------------------------------------------------------------
  // The binary levels fold to the left

  /** One round of a binary loop: the operator token matched and the operand
      parsed after it. */
  datatype Round = Round(operator: Token, operand: Expr)

  /** The left fold of `first` and `rounds`: the last round is the root, and
      its left child is the fold of the rounds before it. */
  function Folded(first: Expr, rounds: seq<Round>): Expr
    decreases |rounds|
  {
    if rounds == [] then first
    else
      var last := rounds[|rounds| - 1];
      Binary(BinaryExpr(Folded(first, rounds[..|rounds| - 1]), last.operator, last.operand))
  }

  /** Folding a round into `first` before the others is folding it first. */
  lemma {:induction false} FoldedCons(first: Expr, r: Round, rounds: seq<Round>)
    ensures Folded(Binary(BinaryExpr(first, r.operator, r.operand)), rounds) == Folded(first, [r] + rounds)
    decreases |rounds|
  {
    if rounds != [] {
      var n := |rounds|;
      FoldedCons(first, r, rounds[..n - 1]);
      assert ([r] + rounds)[..n] == [r] + rounds[..n - 1];
    }
  }

  /** Round `r` was read at `p`: the token there matches an operator of the
      level and is the round's operator, and the next tighter rule, run just
      after it, returns the round's operand and stops at `next`. */
  predicate RoundAt(level: BinaryLevel, ts: seq<Token>, p: nat, r: Round, next: nat)
    requires WellFormed(ts)
  {
    && Cursor(ts, p) && MatchAt(ts, p, Operators(level)) && ts[p] == r.operator
    && Cursor(ts, p + 1)
    && var right := OperandAt(level, ts, p + 1);
       right.result == Ok(r.operand) && right.pos == next && p < next
  }

  /** The loop of `level`, started at `start`, read `rounds` with operators at
      the increasing positions `at`, each operand reaching up to the next
      operator, and stopped at `end`, where no operator of the level follows. */
  predicate Chained(level: BinaryLevel, ts: seq<Token>, start: nat, rounds: seq<Round>, at: seq<nat>, end: nat)
    requires WellFormed(ts)
  {
    && |at| == |rounds|
    && Cursor(ts, end) && !MatchAt(ts, end, Operators(level))
    && (if at == [] then end == start else at[0] == start)
    && forall i :: 0 <= i < |at| ==> RoundAt(level, ts, at[i], rounds[i], NextOf(at, i, end))
  }

  /** Where the operand of round `i` ends: at the next operator, or at `end`. */
  function NextOf(at: seq<nat>, i: nat, end: nat): nat
    requires i < |at|
  {
    if i + 1 < |at| then at[i + 1] else end
  }

  /** A round read at `p` before a chain that starts where its operand ends. */
  lemma {:induction false} ChainedCons(level: BinaryLevel, ts: seq<Token>, p: nat, r: Round, next: nat,
                                       rounds: seq<Round>, at: seq<nat>, end: nat)
    requires WellFormed(ts) && RoundAt(level, ts, p, r, next) && Chained(level, ts, next, rounds, at, end)
    ensures Chained(level, ts, p, [r] + rounds, [p] + at, end)
  {
    var at' := [p] + at;
    var rounds' := [r] + rounds;
    forall i | 0 <= i < |at'|
      ensures RoundAt(level, ts, at'[i], rounds'[i], NextOf(at', i, end))
    {
      if i > 0 {
        assert at'[i] == at[i - 1] && rounds'[i] == rounds[i - 1];
        assert NextOf(at', i, end) == NextOf(at, i - 1, end);
      } else if at != [] {
        assert at'[1] == at[0];
      }
    }
    assert at'[0] == p;
  }

  /** A successful loop of the binary helper returns the left fold of the
      tree it was given and the rounds it read, in the order of the tokens. */
  lemma {:induction false} BinaryLoopFolds(level: BinaryLevel, ts: seq<Token>, left: Expr, pos: nat)
    returns (rounds: seq<Round>, at: seq<nat>)
    requires WellFormed(ts) && Cursor(ts, pos) && BinaryShaped(level, left)
    requires BinaryLoopAt(level, ts, left, pos).result.Ok?
    ensures BinaryLoopAt(level, ts, left, pos).result.value == Folded(left, rounds)
    ensures Chained(level, ts, pos, rounds, at, BinaryLoopAt(level, ts, left, pos).pos)
    decreases |ts| - pos
  {
    var s := BinaryLoopAt(level, ts, left, pos);
    if MatchAt(ts, pos, Operators(level)) {
      BinaryLoopRound(level, ts, left, pos);
      var right := OperandAt(level, ts, pos + 1);
      var r := Round(ts[pos], right.result.value);
      var tree := Binary(BinaryExpr(left, r.operator, r.operand));
      var rest, restAt := BinaryLoopFolds(level, ts, tree, right.pos);
      FoldedCons(left, r, rest);
      assert RoundAt(level, ts, pos, r, right.pos);
      ChainedCons(level, ts, pos, r, right.pos, rest, restAt, s.pos);
      rounds := [r] + rest;
      at := [pos] + restAt;
    } else {
      rounds := [];
      at := [];
    }
  }

  /** Left associativity in full: a successful binary level returns the left
      fold of its first operand and the rounds of operators and operands that
      follow it, each operator the matched token, in the order of the tokens. */
  lemma {:induction false} BinaryFolds(level: BinaryLevel, ts: seq<Token>, pos: nat)
    returns (rounds: seq<Round>, at: seq<nat>)
    requires WellFormed(ts) && Cursor(ts, pos) && BinaryAt(level, ts, pos).result.Ok?
    ensures var first := OperandAt(level, ts, pos);
      && first.result.Ok?
      && BinaryAt(level, ts, pos).result.value == Folded(first.result.value, rounds)
      && Chained(level, ts, first.pos, rounds, at, BinaryAt(level, ts, pos).pos)
  {
    BinaryFirst(level, ts, pos);
    var first := OperandAt(level, ts, pos);
    rounds, at := BinaryLoopFolds(level, ts, first.result.value, first.pos);
  }

  // ---------------------------------------------------------------------
  // Worked examples

  function Num(n: bv64, text: string): Token
  {
    Token(TokenType.Number, text, Some(LiteralValue.Number(n)), 1)
  }

  function Op(k: TokenType, text: string): Token
  {
    Token(k, text, None, 1)
  }

  function Lit(n: bv64): Expr
  {
    Literal(LiteralExpr(Some(LiteralValue.Number(n))))
  }

  /** The end-of-file token on line 1, `EofToken(1)`, written out. */
  const End: Token := Token(Eof, "", None, 1)

  /** A number followed by no `*` or `/` is a whole factor. */
  lemma {:induction false} NumberIsFactor(ts: seq<Token>, p: nat)
    requires WellFormed(ts) && Cursor(ts, p) && ts[p].tokenType == TokenType.Number
    requires !MatchAt(ts, p + 1, Operators(FactorLevel))
    ensures BinaryAt(FactorLevel, ts, p) == Step(Ok(Literal(LiteralExpr(ts[p].literal))), p + 1, [])
  {
    assert PrimaryAt(ts, p) == Step(Ok(Literal(LiteralExpr(ts[p].literal))), p + 1, []);
    assert UnaryAt(ts, p) == PrimaryAt(ts, p);
  }

  /** parse reads one expression and leaves what follows it: on `1 )` it
      returns the number, stops before `)` and reports nothing. */
  lemma {:induction false} ParseLeavesTrailingTokens()
    ensures var ts := [Num(1, "1"), Op(RightParen, ")"), End];
      WellFormed(ts) && ExpressionAt(ts, 0) == Step(Ok(Lit(1)), 1, [])
  {
    var ts := [Num(1, "1"), Op(RightParen, ")"), End];
    assert WellFormed(ts);
    NumberIsFactor(ts, 0);
    assert BinaryLoopAt(TermLevel, ts, Lit(1), 1) == Step(Ok(Lit(1)), 1, []);
    assert BinaryAt(TermLevel, ts, 0) == Step(Ok(Lit(1)), 1, []);
    assert BinaryAt(ComparisonLevel, ts, 0) == Step(Ok(Lit(1)), 1, []);
    assert BinaryAt(EqualityLevel, ts, 0) == Step(Ok(Lit(1)), 1, []);
  }

  /** `1 - 2 - 3` associates to the left. */
  lemma {:induction false} SubtractionAssociatesLeft()
    ensures var ts := [Num(1, "1"), Op(Minus, "-"), Num(2, "2"), Op(Minus, "-"), Num(3, "3"), End];
      WellFormed(ts) &&
      ExpressionAt(ts, 0) ==
        Step(Ok(Binary(BinaryExpr(Binary(BinaryExpr(Lit(1), ts[1], Lit(2))), ts[3], Lit(3)))), 5, [])
  {
    var ts := [Num(1, "1"), Op(Minus, "-"), Num(2, "2"), Op(Minus, "-"), Num(3, "3"), End];
    assert WellFormed(ts);
    var one := Binary(BinaryExpr(Lit(1), ts[1], Lit(2)));
    var two := Binary(BinaryExpr(one, ts[3], Lit(3)));
    NumberIsFactor(ts, 0);
    NumberIsFactor(ts, 2);
    NumberIsFactor(ts, 4);
    // the term loop folds from the left
    assert BinaryLoopAt(TermLevel, ts, two, 5) == Step(Ok(two), 5, []);
    assert BinaryLoopAt(TermLevel, ts, one, 3) == Step(Ok(two), 5, []);
    assert BinaryLoopAt(TermLevel, ts, Lit(1), 1) == Step(Ok(two), 5, []);
    assert BinaryAt(TermLevel, ts, 0) == Step(Ok(two), 5, []);
    assert BinaryAt(ComparisonLevel, ts, 0) == Step(Ok(two), 5, []);
    assert BinaryAt(EqualityLevel, ts, 0) == Step(Ok(two), 5, []);
  }
}
