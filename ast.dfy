/**
 * The syntax tree the parser builds (HLang/Parser/Ast).  Every node class of the
 * source becomes one constructor; each keeps the token it was built from, and the
 * operand nodes are fixed when the node is constructed.
 */
module Ast {
  import Tokens

  /** `AstNode.NodeType`: the kind tag every node carries. */
  datatype NodeType =
    | Literal | Identifier
    | TernaryOperator | BinaryOperator | UnaryOperator | BitwiseOperator
    | Comparison
    | LogicalOperator
    | Assignment

  datatype Node =
    | LiteralNode(token: Tokens.Token)
    | IdentifierNode(token: Tokens.Token)
    | BinaryOperatorNode(token: Tokens.Token, left: Node, right: Node)
    | BitwiseOperatorNode(token: Tokens.Token, left: Node, right: Node)
    | ComparisonNode(token: Tokens.Token, left: Node, right: Node)
    | LogicalOperatorNode(token: Tokens.Token, left: Node, right: Node)
    | AssignmentNode(token: Tokens.Token, left: Node, right: Node)
    | TernaryNode(token: Tokens.Token, testExpr: Node, trueExpr: Node, falseExpr: Node)
    | PrefixOperatorNode(token: Tokens.Token, expr: Node)

  /** The operands of a node, in constructor order; each is a strictly smaller tree. */
  function Children(n: Node): (r: seq<Node>)
    ensures forall c :: c in r ==> c < n
  {
    match n
    case LiteralNode(_) => []
    case IdentifierNode(_) => []
    case BinaryOperatorNode(_, l, r) => [l, r]
    case BitwiseOperatorNode(_, l, r) => [l, r]
    case ComparisonNode(_, l, r) => [l, r]
    case LogicalOperatorNode(_, l, r) => [l, r]
    case AssignmentNode(_, l, r) => [l, r]
    case TernaryNode(_, t, a, b) => [t, a, b]
    case PrefixOperatorNode(_, e) => [e]
  }

  /** How many operands a node of the given kind has. */
  function Arity(t: NodeType): nat {
    match t
    case Literal => 0
    case Identifier => 0
    case UnaryOperator => 1
    case TernaryOperator => 3
    case _ => 2
  }

  /** The tag each node class passes to `AstNode`'s constructor; it fixes the number of operands. */
  function Tag(n: Node): (t: NodeType)
    ensures |Children(n)| == Arity(t)
    ensures t == Literal <==> n.LiteralNode?
    ensures t == Identifier <==> n.IdentifierNode?
    ensures t == Assignment <==> n.AssignmentNode?
  {
    match n
    case LiteralNode(_) => Literal
    case IdentifierNode(_) => Identifier
    case BinaryOperatorNode(_, _, _) => BinaryOperator
    case BitwiseOperatorNode(_, _, _) => BitwiseOperator
    case ComparisonNode(_, _, _) => Comparison
    case LogicalOperatorNode(_, _, _) => LogicalOperator
    case AssignmentNode(_, _, _) => Assignment
    case TernaryNode(_, _, _, _) => TernaryOperator
    case PrefixOperatorNode(_, _) => UnaryOperator
  }

  /** The number of nodes in a tree. */
  function Size(n: Node): (r: nat)
    ensures r >= 1
    ensures (r == 1) <==> |Children(n)| == 0
  {
    match n
    case LiteralNode(_) => 1
    case IdentifierNode(_) => 1
    case BinaryOperatorNode(_, l, r) => 1 + Size(l) + Size(r)
    case BitwiseOperatorNode(_, l, r) => 1 + Size(l) + Size(r)
    case ComparisonNode(_, l, r) => 1 + Size(l) + Size(r)
    case LogicalOperatorNode(_, l, r) => 1 + Size(l) + Size(r)
    case AssignmentNode(_, l, r) => 1 + Size(l) + Size(r)
    case TernaryNode(_, t, a, b) => 1 + Size(t) + Size(a) + Size(b)
    case PrefixOperatorNode(_, e) => 1 + Size(e)
  }

  /** Whether an `AssignmentNode` occurs anywhere in the tree. */
  predicate HasAssignment(n: Node) {
    match n
    case LiteralNode(_) => false
    case IdentifierNode(_) => false
    case AssignmentNode(_, _, _) => true
    case BinaryOperatorNode(_, l, r) => HasAssignment(l) || HasAssignment(r)
    case BitwiseOperatorNode(_, l, r) => HasAssignment(l) || HasAssignment(r)
    case ComparisonNode(_, l, r) => HasAssignment(l) || HasAssignment(r)
    case LogicalOperatorNode(_, l, r) => HasAssignment(l) || HasAssignment(r)
    case TernaryNode(_, t, a, b) => HasAssignment(t) || HasAssignment(a) || HasAssignment(b)
    case PrefixOperatorNode(_, e) => HasAssignment(e)
  }
}
