/**
 * The interpreter object of HLang/Visitor/AstInterpreter.cs: a symbol table that
 * assignments update in place, and one `Visit` per node class, each proved to
 * compute what `Evaluation.Evaluate` describes, table included.  A thrown
 * exception becomes an `Err` result; the assignments made before it stay in the
 * table, as they do in the source.
 */
module Interpreting {
  import opened Wrappers
  import opened Evaluation
  import Ast

  class AstInterpreter {
    var symbolTable: Table
    const oracle: FloatOracle

    /** A fresh interpreter with an empty table. */
    constructor(oracle: FloatOracle)
      ensures symbolTable == map[] && this.oracle == oracle
    {
      symbolTable := map[];
      this.oracle := oracle;
    }

    /** `Visit((dynamic)node)`: the node's value; the table ends as the evaluation leaves it. */
    method Visit(node: Ast.Node) returns (r: Result<Value, EvalError>)
      modifies this`symbolTable
      decreases node
      ensures Outcome(r, symbolTable) == Evaluate(node, old(symbolTable), oracle)
    {
      match node
      case LiteralNode(t) =>
        r := LiteralValue(t, oracle);
      case IdentifierNode(t) =>
        if t.value in symbolTable {
          r := Ok(symbolTable[t.value]);
        } else {
          r := Ok(Text(t.value));
        }
      case PrefixOperatorNode(t, e) =>
        var expr := Visit(e);
        if expr.Err? {
          return expr;
        }
        r := Prefix(t.kind, expr.value);
      case TernaryNode(_, test, thenExpr, elseExpr) =>
        var cond := Visit(test);
        if cond.Err? {
          return cond;
        }
        var flag := ToBoolean(cond.value, oracle);
        if flag.Err? {
          return Err(flag.error);
        }
        if flag.value {
          r := Visit(thenExpr);
        } else {
          r := Visit(elseExpr);
        }
      case AssignmentNode(_, left, right) =>
        var exprLeft := Visit(left);
        if exprLeft.Err? {
          return exprLeft;
        }
        var value := Visit(right);
        if value.Err? {
          return value;
        }
        symbolTable := symbolTable[AssignmentKey(left, exprLeft.value, oracle) := value.value];
        r := value;
      case _ =>
        var lhs := Visit(node.left);
        if lhs.Err? {
          return lhs;
        }
        var rhs := Visit(node.right);
        if rhs.Err? {
          return rhs;
        }
        r := Operate(node, lhs.value, rhs.value, oracle);
    }

    /** `Eval(root)`: visits the root of a tree. */
    method Eval(root: Ast.Node) returns (r: Result<Value, EvalError>)
      modifies this`symbolTable
      ensures Outcome(r, symbolTable) == Evaluate(root, old(symbolTable), oracle)
    {
      r := Visit(root);
    }
  }
}
