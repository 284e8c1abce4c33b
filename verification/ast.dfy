/**
  The expression tree the parser builds (`AstNode` in src/main.rs, held in a
  `BinaryTree`), and its value under the arithmetic of the target machine.
 */
module Ast {
  import opened Wrappers
  import opened BinaryTree
  import opened Numbers

  datatype NodeKind = Add | Sub | Mul | Div | Num

  datatype AstNode = AstNode(kind: NodeKind, value: string)

  type Ast = Tree<AstNode>

  /** The number leaf `primary` builds for a number token. */
  function Leaf(value: string): Ast
  {
    New(AstNode(Num, value))
  }

  /**
    A tree the code generator can walk without unwrapping a missing link:
    a number node, or an operator node with both children present and
    complete.  The children of a number node are never visited.
   */
  predicate Complete(t: Ast)
    decreases t
  {
    match t.key.kind
    case Num => true
    case _ =>
      && t.left.Some? && Complete(t.left.value)
      && t.right.Some? && Complete(t.right.value)
  }

  /** Every number node reached by the code generator holds a decimal literal. */
  predicate NumeralLeaves(t: Ast)
    decreases t
  {
    match t.key.kind
    case Num => IsNumeral(t.key.value)
    case _ =>
      && (t.left.Some? ==> NumeralLeaves(t.left.value))
      && (t.right.Some? ==> NumeralLeaves(t.right.value))
  }

  /** Every number node holds a literal with no superfluous leading zero. */
  predicate PlainLeaves(t: Ast)
    decreases t
  {
    match t.key.kind
    case Num => IsPlainNumeral(t.key.value)
    case _ =>
      && (t.left.Some? ==> PlainLeaves(t.left.value))
      && (t.right.Some? ==> PlainLeaves(t.right.value))
  }

  /**
    The value of a complete tree: operators combine left then right
    operand; division truncates as the target's `div` does.
   */
  function Eval(t: Ast): int
    requires Complete(t)
    decreases t
  {
    match t.key.kind
    case Num => Decimal(t.key.value)
    case Add => Eval(t.left.value) + Eval(t.right.value)
    case Sub => Eval(t.left.value) - Eval(t.right.value)
    case Mul => Eval(t.left.value) * Eval(t.right.value)
    case Div => TruncDiv(Eval(t.left.value), Eval(t.right.value))
  }
}
