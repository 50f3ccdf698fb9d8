/**
 * Binding powers of the operators (HLang/Parser/Expr/Base/Precedence.cs).  The
 * enum numbers its members from `Assignment = 1` upwards, one per level; the
 * two `Not` levels are aliases of `Unary`, so `Exponent` comes right after it.
 */
module Precedences {

  const Assignment: int := 1
  const Conditional: int := 2
  const LogicalOr: int := 3
  const LogicalAnd: int := 4
  const BitwiseOr: int := 5
  const BitwiseXor: int := 6
  const BitwiseAnd: int := 7
  const Equality: int := 8
  const Relational: int := 9
  const BitwiseShift: int := 10
  const Additive: int := 11
  const Multiplicative: int := 12
  const Unary: int := 13
  const BitwiseNot: int := Unary
  const LogicalNot: int := Unary
  const Exponent: int := Unary + 1

  /** `Precedence.Sum` and `Precedence.Product`, which the rule table names: the additive and multiplicative levels. */
  const Sum: int := Additive
  const Product: int := Multiplicative

  /**
   * `Precedence.Comparison`, which `ComparisonParse` names but the enum does not
   * declare: taken as the relational level, between `Conditional` and `Additive`.
   */
  const Comparison: int := Relational

  /** The levels in declaration order, without the two aliases of `Unary`. */
  const Levels: seq<int> :=
    [Assignment, Conditional, LogicalOr, LogicalAnd, BitwiseOr, BitwiseXor, BitwiseAnd,
     Equality, Relational, BitwiseShift, Additive, Multiplicative, Unary, Exponent]

  /** Each level is one above the one declared before it, from 1; `Exponent` lies above `Unary`. */
  lemma LevelsAreConsecutive()
    ensures forall i :: 0 <= i < |Levels| ==> Levels[i] == i + 1
    ensures BitwiseNot == LogicalNot == Unary < Exponent
  {
  }
}
