/** The tree printer: a visitor that renders every node in prefix form,
    `( name child …)`, and never fails. The Debug rendering of a literal
    value is not modelled; it is the parameter `debug`. */
module Printing {
  import opened Tokens
  import opened Errors
  import opened Exprs

  /** print: the tree dispatched to the visitor operation of its kind
      (Printer states that this is accept with the printer). */
  function Print(debug: LiteralValue -> string, e: Expr): (r: Result<string>)
    ensures r.Ok?
    decreases Size(e), 1
  {
    match e
    case Literal(le) => VisitLiteral(debug, le)
    case Unary(ue) => VisitUnary(debug, ue)
    case Binary(be) => VisitBinary(debug, be)
    case Grouping(ge) => VisitGrouping(debug, ge)
  }

  function VisitLiteral(debug: LiteralValue -> string, le: LiteralExpr): (r: Result<string>)
    ensures r.Ok?
  {
    match le.value
    case Some(v) => Ok(debug(v))
    case None => Ok("nil")
  }

  function VisitUnary(debug: LiteralValue -> string, ue: UnaryExpr): (r: Result<string>)
    ensures r.Ok?
    decreases Size(Unary(ue)), 0
  {
    SizeAllChildren([ue.right]);
    Parenthesize(debug, ue.operator.lexeme, [ue.right])
  }

  function VisitBinary(debug: LiteralValue -> string, be: BinaryExpr): (r: Result<string>)
    ensures r.Ok?
    decreases Size(Binary(be)), 0
  {
    SizeAllChildren([be.left, be.right]);
    Parenthesize(debug, be.operator.lexeme, [be.left, be.right])
  }

  function VisitGrouping(debug: LiteralValue -> string, ge: GroupingExpr): (r: Result<string>)
    ensures r.Ok?
    decreases Size(Grouping(ge)), 0
  {
    SizeAllChildren([ge.expression]);
    Parenthesize(debug, "group", [ge.expression])
  }

  /** parenthesize: start from `( name`, append a space and each child's
      rendering in turn, giving up on the first child that fails, and close
      with `)`. */
  function Parenthesize(debug: LiteralValue -> string, name: string, exprs: seq<Expr>): (r: Result<string>)
    ensures r.Ok?
    decreases SizeAll(exprs), 3
  {
    ParenthesizeFrom(debug, "( " + name, exprs)
  }

  /** The loop of parenthesize, with `sb` the text built so far. */
  function ParenthesizeFrom(debug: LiteralValue -> string, sb: string, exprs: seq<Expr>): (r: Result<string>)
    ensures r.Ok?
    decreases SizeAll(exprs), 2
  {
    if exprs == [] then Ok(sb + ")")
    else
      SizeAllFirst(exprs);
      match Print(debug, exprs[0])
      case Err(e) => Err(e)
      case Ok(s) => ParenthesizeFrom(debug, sb + " " + s, exprs[1..])
  }

  /** The first tree of a list is no larger than the whole list, and the
      rest is strictly smaller. */
  lemma {:induction false} SizeAllFirst(exprs: seq<Expr>)
    requires exprs != []
    ensures Size(exprs[0]) <= SizeAll(exprs)
    ensures SizeAll(exprs[1..]) < SizeAll(exprs)
  {
  }

  /** The size of a list of one or two children. */
  lemma {:induction false} SizeAllChildren(exprs: seq<Expr>)
    requires 1 <= |exprs| <= 2
    ensures SizeAll(exprs) == Size(exprs[0]) + if |exprs| == 2 then Size(exprs[1]) else 0
  {
    if |exprs| == 1 {
      assert exprs[1..] == [];
    } else {
      assert exprs[1..][0] == exprs[1] && exprs[1..][1..] == [];
      assert SizeAll(exprs[1..]) == Size(exprs[1]) + SizeAll(exprs[1..][1..]);
    }
  }

  /** The printer as a visitor, for accept to dispatch to: accepting it is
      print, so it never fails. */
  function Printer(debug: LiteralValue -> string): (v: Visitor<string>)
    ensures forall e :: Accept(e, v) == Print(debug, e)
  {
    Visitor(
      le => VisitLiteral(debug, le),
      ge => VisitGrouping(debug, ge),
      ue => VisitUnary(debug, ue),
      be => VisitBinary(debug, be))
  }

  // ---------------------------------------------------------------------
  // The printed form, independently of the loop that builds it

  /** The renderings of the trees, in order. */
  function Renderings(debug: LiteralValue -> string, exprs: seq<Expr>): (rs: seq<string>)
    ensures |rs| == |exprs|
  {
    if exprs == [] then [] else [Print(debug, exprs[0]).value] + Renderings(debug, exprs[1..])
  }

  /** The texts, each preceded by exactly one space. */
  function Spaced(ss: seq<string>): string
  {
    if ss == [] then "" else " " + ss[0] + Spaced(ss[1..])
  }

  /** The loop leaves the text built so far, then each child's rendering
      after one space, in argument order, then `)`. */
  lemma {:induction false} ParenthesizeFromSpaced(debug: LiteralValue -> string, sb: string, exprs: seq<Expr>)
    ensures ParenthesizeFrom(debug, sb, exprs) == Ok(sb + Spaced(Renderings(debug, exprs)) + ")")
    decreases |exprs|
  {
    if exprs == [] {
      assert sb + "" == sb;
    } else {
      var s := Print(debug, exprs[0]).value;
      ParenthesizeFromSpaced(debug, sb + " " + s, exprs[1..]);
      var rest := Spaced(Renderings(debug, exprs[1..]));
      assert Renderings(debug, exprs)[1..] == Renderings(debug, exprs[1..]);
      assert sb + " " + s + rest + ")" == sb + (" " + s + rest) + ")";
    }
  }

  /** parenthesize opens with `( name`, closes with `)`, and in between has
      each child's rendering after one space, in argument order. */
  lemma {:induction false} ParenthesizeSpaced(debug: LiteralValue -> string, name: string, exprs: seq<Expr>)
    ensures Parenthesize(debug, name, exprs) == Ok("( " + name + Spaced(Renderings(debug, exprs)) + ")")
  {
    ParenthesizeFromSpaced(debug, "( " + name, exprs);
  }

  /** The text of each kind of node, in terms of its children's texts. */
  lemma {:induction false} PrintForms(debug: LiteralValue -> string, e: Expr)
    ensures e.Literal? && e.literal.value.None? ==> Print(debug, e) == Ok("nil")
    ensures e.Literal? && e.literal.value.Some? ==> Print(debug, e) == Ok(debug(e.literal.value.value))
    ensures e.Unary? ==>
      Print(debug, e) == Ok("( " + e.unary.operator.lexeme + " " + Print(debug, e.unary.right).value + ")")
    ensures e.Binary? ==>
      Print(debug, e) == Ok("( " + e.binary.operator.lexeme + " " + Print(debug, e.binary.left).value
                            + " " + Print(debug, e.binary.right).value + ")")
    ensures e.Grouping? ==>
      Print(debug, e) == Ok("( group " + Print(debug, e.grouping.expression).value + ")")
  {
    match e
    case Literal(_) =>
    case Unary(u) =>
      ParenthesizeSpaced(debug, u.operator.lexeme, [u.right]);
      var s := Print(debug, u.right).value;
      assert Renderings(debug, [u.right]) == [s];
      assert Spaced([s]) == " " + s + "";
      assert "( " + u.operator.lexeme + (" " + s + "") + ")" == "( " + u.operator.lexeme + " " + s + ")";
    case Binary(b) =>
      ParenthesizeSpaced(debug, b.operator.lexeme, [b.left, b.right]);
      var l := Print(debug, b.left).value;
      var r := Print(debug, b.right).value;
      assert [b.left, b.right][1..] == [b.right];
      assert Renderings(debug, [b.right]) == [r];
      assert Renderings(debug, [b.left, b.right]) == [l, r];
      assert [l, r][1..] == [r];
      assert Spaced([r]) == " " + r + "";
      assert Spaced([l, r]) == " " + l + (" " + r + "");
      assert "( " + b.operator.lexeme + (" " + l + (" " + r + "")) + ")"
          == "( " + b.operator.lexeme + " " + l + " " + r + ")";
    case Grouping(g) =>
      ParenthesizeSpaced(debug, "group", [g.expression]);
      var s := Print(debug, g.expression).value;
      assert Renderings(debug, [g.expression]) == [s];
      assert Spaced([s]) == " " + s + "";
      assert "( " + "group" + (" " + s + "") + ")" == "( group " + s + ")";
  }

  // ---------------------------------------------------------------------
  // Balanced parentheses

  /** The number of occurrences of `c` in `s`. */
  function Count(c: char, s: string): nat
  {
    if s == [] then 0 else (if s[0] == c then 1 else 0) + Count(c, s[1..])
  }

  lemma {:induction false} CountAppend(c: char, a: string, b: string)
    ensures Count(c, a + b) == Count(c, a) + Count(c, b)
  {
    if a == [] {
      assert a + b == b;
    } else {
      assert (a + b)[1..] == a[1..] + b;
      CountAppend(c, a[1..], b);
    }
  }

  /** No parenthesis in the text. */
  predicate ParenFree(s: string)
  {
    Count('(', s) == 0 && Count(')', s) == 0
  }

  /** Every operator lexeme and every rendered literal of the tree is free of
      parentheses. */
  predicate PlainLeaves(debug: LiteralValue -> string, e: Expr)
  {
    match e
    case Literal(le) => le.value.Some? ==> ParenFree(debug(le.value.value))
    case Unary(u) => ParenFree(u.operator.lexeme) && PlainLeaves(debug, u.right)
    case Binary(b) => ParenFree(b.operator.lexeme) && PlainLeaves(debug, b.left) && PlainLeaves(debug, b.right)
    case Grouping(g) => PlainLeaves(debug, g.expression)
  }

  /** The number of nodes other than literals. */
  function Interior(e: Expr): nat
  {
    match e
    case Literal(_) => 0
    case Unary(u) => 1 + Interior(u.right)
    case Binary(b) => 1 + Interior(b.left) + Interior(b.right)
    case Grouping(g) => 1 + Interior(g.expression)
  }

  /** When the leaves bring no parentheses of their own, the printed text has
      one `(` and one `)` per node that is not a literal. */
  lemma {:induction false} PrintBalanced(debug: LiteralValue -> string, e: Expr)
    requires PlainLeaves(debug, e)
    ensures Count('(', Print(debug, e).value) == Interior(e)
    ensures Count(')', Print(debug, e).value) == Interior(e)
  {
    PrintForms(debug, e);
    match e
    case Literal(le) =>
      if le.value.None? {
        assert Count('(', "nil") == 0 && Count(')', "nil") == 0 by {
          assert "nil"[1..] == "il" && "il"[1..] == "l" && "l"[1..] == "";
        }
      }
    case Unary(u) =>
      PrintBalanced(debug, u.right);
      CountSurrounded(u.operator.lexeme, [Print(debug, u.right).value]);
    case Binary(b) =>
      PrintBalanced(debug, b.left);
      PrintBalanced(debug, b.right);
      CountSurrounded(b.operator.lexeme, [Print(debug, b.left).value, Print(debug, b.right).value]);
    case Grouping(g) =>
      PrintBalanced(debug, g.expression);
      assert ParenFree("group") by {
        assert "group"[1..] == "roup" && "roup"[1..] == "oup" && "oup"[1..] == "up";
        assert "up"[1..] == "p" && "p"[1..] == "";
      }
      CountSurrounded("group", [Print(debug, g.expression).value]);
      assert "( " + "group" + " " == "( group ";
  }

  /** The parentheses of `( name` + the spaced texts + `)`, for one or two texts. */
  lemma {:induction false} CountSurrounded(name: string, ss: seq<string>)
    requires ParenFree(name) && 1 <= |ss| <= 2
    ensures var text := "( " + name + Spaced(ss) + ")";
      && (|ss| == 1 ==> text == "( " + name + " " + ss[0] + ")")
      && (|ss| == 2 ==> text == "( " + name + " " + ss[0] + " " + ss[1] + ")")
      && Count('(', text) == 1 + Count('(', ss[0]) + (if |ss| == 2 then Count('(', ss[1]) else 0)
      && Count(')', text) == 1 + Count(')', ss[0]) + (if |ss| == 2 then Count(')', ss[1]) else 0)
  {
    assert Count('(', " ") == 0 && Count(')', " ") == 0 by { assert " "[1..] == ""; }
    assert Count('(', "( ") == 1 && Count(')', "( ") == 0 by { assert "( "[1..] == " "; }
    assert Count('(', ")") == 0 && Count(')', ")") == 1 by { assert ")"[1..] == ""; }
    forall c | c == '(' || c == ')'
      ensures Count(c, "( " + name + Spaced(ss) + ")")
           == Count(c, "( ") + Count(c, ss[0]) + (if |ss| == 2 then Count(c, ss[1]) else 0) + Count(c, ")")
    {
      CountAppend(c, "( ", name);
      CountAppend(c, "( " + name, Spaced(ss));
      CountAppend(c, "( " + name + Spaced(ss), ")");
      CountAppend(c, " ", ss[0]);
      if |ss| == 1 {
        assert Spaced(ss) == " " + ss[0] + "";
        assert " " + ss[0] + "" == " " + ss[0];
      } else {
        assert ss[1..] == [ss[1]];
        assert Spaced(ss[1..]) == " " + ss[1] + "";
        assert Spaced(ss) == " " + ss[0] + (" " + ss[1] + "");
        CountAppend(c, " ", ss[1]);
        CountAppend(c, " " + ss[0], " " + ss[1]);
        assert " " + ss[0] + (" " + ss[1] + "") == (" " + ss[0]) + (" " + ss[1]);
      }
    }
    if |ss| == 1 {
      assert Spaced(ss) == " " + ss[0] + "";
      assert "( " + name + (" " + ss[0] + "") + ")" == "( " + name + " " + ss[0] + ")";
    } else {
      assert ss[1..] == [ss[1]];
      assert Spaced(ss[1..]) == " " + ss[1] + "";
      assert Spaced(ss) == " " + ss[0] + (" " + ss[1] + "");
      assert "( " + name + (" " + ss[0] + (" " + ss[1] + "")) + ")"
          == "( " + name + " " + ss[0] + " " + ss[1] + ")";
    }
  }
}
