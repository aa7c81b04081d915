/** The syntax tree: four node kinds, each a record as in the program, and
    the visitor dispatch that consumers of the tree go through. */
module Exprs {
  import opened Tokens
  import opened Errors

  datatype LiteralExpr = LiteralExpr(value: Option<LiteralValue>)
  datatype GroupingExpr = GroupingExpr(expression: Expr)
  datatype UnaryExpr = UnaryExpr(operator: Token, right: Expr)
  datatype BinaryExpr = BinaryExpr(left: Expr, operator: Token, right: Expr)

  /** Each node exclusively owns its children, so a tree is a value. */
  datatype Expr =
    | Literal(literal: LiteralExpr)
    | Unary(unary: UnaryExpr)
    | Binary(binary: BinaryExpr)
    | Grouping(grouping: GroupingExpr)

  /** A consumer of the tree: one operation per node kind, all with the same
      result type. */
  datatype Visitor<T> = Visitor(
    visitLiteral: LiteralExpr -> Result<T>,
    visitGrouping: GroupingExpr -> Result<T>,
    visitUnary: UnaryExpr -> Result<T>,
    visitBinary: BinaryExpr -> Result<T>)

  /** Hands the node's own record to the visitor operation for its kind. */
  function Accept<T>(e: Expr, v: Visitor<T>): Result<T>
  {
    match e
    case Literal(le) => v.visitLiteral(le)
    case Unary(ue) => v.visitUnary(ue)
    case Binary(be) => v.visitBinary(be)
    case Grouping(ge) => v.visitGrouping(ge)
  }

  /** The visitor whose operation for each kind applies `f` to the node
      rebuilt from its record. */
  function Lift<T>(f: Expr -> Result<T>): Visitor<T>
  {
    Visitor(
      le => f(Literal(le)),
      ge => f(Grouping(ge)),
      ue => f(Unary(ue)),
      be => f(Binary(be)))
  }

  /** accept loses nothing: each node reaches the operation of its own kind
      with its own record, so dispatching to the lifted `f` is `f`. */
  lemma {:induction false} AcceptDispatches<T>(f: Expr -> Result<T>, e: Expr)
    ensures Accept(e, Lift(f)) == f(e)
  {
  }

  /** The number of nodes of a tree. */
  function Size(e: Expr): (n: nat)
    ensures n >= 1
  {
    match e
    case Literal(_) => 1
    case Unary(u) => 1 + Size(u.right)
    case Binary(b) => 1 + Size(b.left) + Size(b.right)
    case Grouping(g) => 1 + Size(g.expression)
  }

  function SizeAll(es: seq<Expr>): nat
  {
    if es == [] then 0 else Size(es[0]) + SizeAll(es[1..])
  }
}
