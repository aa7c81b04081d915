/** The recursive-descent parser as the object it is in the program: a token
    vector and a cursor that its methods move. Every method is proved to
    return, move the cursor and report exactly what the function of module
    ParserSpec with the same name says, so the properties proved about those
    functions hold for the methods. */
module Parsing {
  import opened Tokens
  import opened Errors
  import opened Exprs
  import opened ParserSpec

  class Parser {
    const tokens: seq<Token>
    var current: nat
    /** The diagnostics passed to `report` so far, oldest first. */
    ghost var reported: seq<Diagnostic>

    /** The vector ends with Eof and the cursor has not passed it. */
    predicate Valid()
      reads this
    {
      WellFormed(tokens) && Cursor(tokens, current)
    }

    constructor (tokens: seq<Token>)
      ensures this.tokens == tokens && current == 0 && reported == []
      ensures WellFormed(tokens) ==> Valid()
    {
      this.tokens := tokens;
      current := 0;
      reported := [];
    }

    /** The report function of the program writes a message to the error
        stream; here it appends the message's parts to `reported`. */
    ghost method Report(d: Diagnostic)
      modifies this`reported
      ensures reported == old(reported) + [d]
    {
      reported := reported + [d];
    }

    function Peek(): (t: Token)
      requires current < |tokens|
      reads this
      ensures t == tokens[current]
    {
      tokens[current]
    }

    function Previous(): (t: Token)
      requires 1 <= current <= |tokens|
      reads this
      ensures t == tokens[current - 1]
    {
      tokens[current - 1]
    }

    function IsAtEnd(): (b: bool)
      requires current < |tokens|
      reads this
      ensures b <==> tokens[current].tokenType == Eof
    {
      Peek().tokenType == Eof
    }

    function Check(k: TokenType): (b: bool)
      requires current < |tokens|
      reads this
      ensures b <==> tokens[current].tokenType == k && k != Eof
    {
      if IsAtEnd() then false else Peek().tokenType == k
    }

    /** Moves one token on unless at Eof and returns the token before the
        cursor; at Eof on the first token the program would panic. */
    method Advance() returns (t: Token)
      requires Valid() && (current >= 1 || !IsAtEnd())
      modifies this`current
      ensures Valid()
      ensures current == AdvanceAt(tokens, old(current))
      ensures current >= 1 && t == tokens[current - 1]
    {
      if !IsAtEnd() {
        current := current + 1;
      }
      t := Previous();
    }

    /** Tries the kinds in order and advances past the first that checks. */
    method MatchType(types: seq<TokenType>) returns (matched: bool)
      requires Valid()
      modifies this`current
      ensures Valid()
      ensures matched == MatchAt(tokens, old(current), types)
      ensures current == if matched then old(current) + 1 else old(current)
    {
      for i := 0 to |types|
        invariant current == old(current)
        invariant forall j :: 0 <= j < i ==> !CheckAt(tokens, current, types[j])
      {
        if Check(types[i]) {
          var _ := Advance();
          return true;
        }
      }
      return false;
    }

    /** Passes a token of kind `k`, or reports and fails without moving. */
    method Consume(k: TokenType, message: string) returns (r: Result<Token>)
      requires Valid()
      modifies this
      ensures Valid()
      ensures var s := ConsumeAt(tokens, old(current), k, message);
        r == s.result && current == s.pos && reported == old(reported) + s.diags
    {
      if Check(k) {
        var t := Advance();
        return Ok(t);
      }
      var token := Peek();
      if token.tokenType == Eof {
        var d := Diagnostic(token.line, AtEnd, message);
        Report(d);
        return Err(ParseError(d));
      }
      var d := Diagnostic(token.line, AtLexeme(token.lexeme), message);
      Report(d);
      return Err(ParseError(d));
    }

    method Expression() returns (r: Result<Expr>)
      requires Valid()
      modifies this
      ensures Valid()
      ensures var s := ExpressionAt(tokens, old(current));
        r == s.result && current == s.pos && reported == old(reported) + s.diags
      decreases |tokens| - current, 6, 3
    {
      var expr :- Equality();
      ghost var before := current;
      ghost var first := BinaryAt(EqualityLevel, tokens, old(current));
      ghost var rest := ExpressionLoopAt(tokens, expr, before);
      AppendAssociates(old(reported), first.diags, rest.diags);
      var matched := MatchType([Comma]);
      while matched
        invariant Valid() && old(current) <= before && Cursor(tokens, before) && ExpressionShaped(expr)
        invariant matched == MatchAt(tokens, before, [Comma])
        invariant current == if matched then before + 1 else before
        invariant var whole := ExpressionAt(tokens, old(current));
          var rest := ExpressionLoopAt(tokens, expr, before);
          && whole.result == rest.result && whole.pos == rest.pos
          && old(reported) + whole.diags == reported + rest.diags
        decreases |tokens| - before
      {
        MatchNotAtEnd(tokens, before, [Comma]);
        ghost var reportedBefore := reported;
        ghost var outer := ExpressionLoopAt(tokens, expr, before);
        expr :- Equality();
        ghost var next := BinaryAt(EqualityLevel, tokens, before + 1);
        ghost var inner := ExpressionLoopAt(tokens, expr, current);
        assert outer == Step(inner.result, inner.pos, next.diags + inner.diags);
        AppendAssociates(reportedBefore, next.diags, inner.diags);
        before := current;
        matched := MatchType([Comma]);
      }
      return Ok(expr);
    }

    method Equality() returns (r: Result<Expr>)
      requires Valid()
      modifies this
      ensures Valid()
      ensures var s := BinaryAt(EqualityLevel, tokens, old(current));
        r == s.result && current == s.pos && reported == old(reported) + s.diags
      decreases |tokens| - current, Rank(EqualityLevel), 3
    {
      r := BinaryHelper(EqualityLevel);
    }

    method Comparison() returns (r: Result<Expr>)
      requires Valid()
      modifies this
      ensures Valid()
      ensures var s := BinaryAt(ComparisonLevel, tokens, old(current));
        r == s.result && current == s.pos && reported == old(reported) + s.diags
      decreases |tokens| - current, Rank(ComparisonLevel), 3
    {
      r := BinaryHelper(ComparisonLevel);
    }

    method Term() returns (r: Result<Expr>)
      requires Valid()
      modifies this
      ensures Valid()
      ensures var s := BinaryAt(TermLevel, tokens, old(current));
        r == s.result && current == s.pos && reported == old(reported) + s.diags
      decreases |tokens| - current, Rank(TermLevel), 3
    {
      r := BinaryHelper(TermLevel);
    }

    method Factor() returns (r: Result<Expr>)
      requires Valid()
      modifies this
      ensures Valid()
      ensures var s := BinaryAt(FactorLevel, tokens, old(current));
        r == s.result && current == s.pos && reported == old(reported) + s.diags
      decreases |tokens| - current, Rank(FactorLevel), 3
    {
      r := BinaryHelper(FactorLevel);
    }

    /** The closure each level hands to the helper: the next tighter rule. */
    method Operand(level: BinaryLevel) returns (r: Result<Expr>)
      requires Valid()
      modifies this
      ensures Valid()
      ensures var s := OperandAt(level, tokens, old(current));
        r == s.result && current == s.pos && reported == old(reported) + s.diags
      decreases |tokens| - current, Rank(level), 1
    {
      match level
      case EqualityLevel => r := Comparison();
      case ComparisonLevel => r := Term();
      case TermLevel => r := Factor();
      case FactorLevel => r := Unary();
    }

    /** One operand, then as long as an operator of the level follows, another
        operand folded into a Binary node with the tree so far on the left. */
    method BinaryHelper(level: BinaryLevel) returns (r: Result<Expr>)
      requires Valid()
      modifies this
      ensures Valid()
      ensures Agrees(BinaryAt(level, tokens, old(current)), r, current, old(reported), reported)
      decreases |tokens| - current, Rank(level), 2
    {
      BinaryFirst(level, tokens, current);
      var expr :- Operand(level);
      ghost var before := current;
      ghost var first := OperandAt(level, tokens, old(current));
      AppendAssociates(old(reported), first.diags, BinaryLoopAt(level, tokens, expr, before).diags);
      var matched := MatchType(Operators(level));
      while matched
        invariant Valid() && old(current) <= before && Cursor(tokens, before) && BinaryShaped(level, expr)
        invariant matched == MatchAt(tokens, before, Operators(level))
        invariant current == if matched then before + 1 else before
        invariant Resumes(BinaryAt(level, tokens, old(current)), BinaryLoopAt(level, tokens, expr, before), old(reported), reported)
        decreases |tokens| - before
      {
        BinaryLoopRound(level, tokens, expr, before);
        ghost var reportedBefore := reported;
        ghost var next := OperandAt(level, tokens, before + 1);
        expr :- FoldOperand(level, expr, before);
        AppendAssociates(reportedBefore, next.diags, BinaryLoopAt(level, tokens, expr, current).diags);
        before := current;
        matched := MatchType(Operators(level));
      }
      return Ok(expr);
    }

    /** One pass of the helper's loop once an operator of the level has been
        matched at `at`: the operand that follows, folded onto `left`. */
    method FoldOperand(level: BinaryLevel, left: Expr, ghost at: nat) returns (r: Result<Expr>)
      requires Valid() && Cursor(tokens, at) && MatchAt(tokens, at, Operators(level)) && current == at + 1
      modifies this
      ensures Valid()
      ensures var right := OperandAt(level, tokens, at + 1);
        && current == right.pos && reported == old(reported) + right.diags
        && (right.result.Err? ==> r == right.result)
        && (right.result.Ok? ==> r == Ok(Binary(BinaryExpr(left, tokens[at], right.result.value))))
      decreases |tokens| - current, Rank(level), 2
    {
      var operator := Previous();
      var right :- Operand(level);
      r := Ok(Binary(BinaryExpr(left, operator, right)));
    }

    method Unary() returns (r: Result<Expr>)
      requires Valid()
      modifies this
      ensures Valid()
      ensures var s := UnaryAt(tokens, old(current));
        r == s.result && current == s.pos && reported == old(reported) + s.diags
      decreases |tokens| - current, 1, 3
    {
      var matched := MatchType(UnaryOperators);
      if matched {
        MatchNotAtEnd(tokens, old(current), UnaryOperators);
        var operator := Previous();
        var right :- Unary();
        return Ok(Expr.Unary(UnaryExpr(operator, right)));
      }
      r := Primary();
    }

    method Primary() returns (r: Result<Expr>)
      requires Valid()
      modifies this
      ensures Valid()
      ensures Agrees(PrimaryAt(tokens, old(current)), r, current, old(reported), reported)
      decreases |tokens| - current, 0, 3
    {
      var matched := MatchType([False]);
      if matched {
        MatchNotAtEnd(tokens, old(current), [False]);
        r := Ok(Literal(LiteralExpr(Some(LiteralValue.Identifier("False")))));
      } else {
        matched := MatchType([True]);
        if matched {
          MatchNotAtEnd(tokens, old(current), [True]);
          r := Ok(Literal(LiteralExpr(Some(LiteralValue.Identifier("True")))));
        } else {
          matched := MatchType([Nil]);
          if matched {
            MatchNotAtEnd(tokens, old(current), [Nil]);
            r := Ok(Literal(LiteralExpr(Some(LiteralValue.Identifier("null")))));
          } else {
            matched := MatchType([TokenType.Number, TokenType.String]);
            if matched {
              MatchNotAtEnd(tokens, old(current), [TokenType.Number, TokenType.String]);
              r := Ok(Literal(LiteralExpr(Some(Previous().literal.value))));
            } else {
              matched := MatchType([LeftParen]);
              if matched {
                MatchNotAtEnd(tokens, old(current), [LeftParen]);
                r := FinishGrouping();
                assert PrimaryAt(tokens, old(current)) == GroupingAt(tokens, old(current) + 1);
              } else {
                var token := Peek();
                Report(NoExpressionReport(token.line));
                r := Err(NoExpressionError(token.line));
              }
            }
          }
        }
      }
    }

    /** The rest of a parenthesised expression once its `(` has been
        consumed: the inner expression and then the closing `)`, whose
        absence is reported but does not stop the grouping being built. */
    method FinishGrouping() returns (r: Result<Expr>)
      requires Valid()
      modifies this
      ensures Valid()
      ensures Agrees(GroupingAt(tokens, old(current)), r, current, old(reported), reported)
      decreases |tokens| - current, 7, 3
    {
      ghost var inner := ExpressionAt(tokens, current);
      r := Expression();
      if r.Ok? {
        ghost var close := ConsumeAt(tokens, current, RightParen, MissingParen);
        var _ := Consume(RightParen, MissingParen);
        AppendAssociates(old(reported), inner.diags, close.diags);
        r := Ok(Grouping(GroupingExpr(r.value)));
      }
    }

    /** Skips tokens after an error up to the start of the next statement. */
    method Synchronize()
      requires Valid() && (current >= 1 || !IsAtEnd())
      modifies this`current
      ensures Valid()
      ensures current == SyncFrom(tokens, AdvanceAt(tokens, old(current)))
    {
      var _ := Advance();
      while !IsAtEnd()
        invariant Valid() && current >= 1
        invariant SyncFrom(tokens, current) == SyncFrom(tokens, AdvanceAt(tokens, old(current)))
        decreases |tokens| - current
      {
        if Previous().tokenType == Semicolon {
          return;
        }
        if Peek().tokenType in StatementStarts {
          return;
        }
        var _ := Advance();
      }
    }

    method Parse() returns (r: Result<Expr>)
      requires Valid()
      modifies this
      ensures Valid()
      ensures var s := ExpressionAt(tokens, old(current));
        r == s.result && current == s.pos && reported == old(reported) + s.diags
    {
      r := Expression();
    }
  }
}
