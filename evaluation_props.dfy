/**
 * Properties of `Evaluation.Evaluate`: what an evaluation may change in the
 * table, that every `long` it produces fits in 64 bits, how the operators relate
 * to each other, and whole expressions run through the parser and the evaluator.
 */
module EvaluationProps {
  import opened Wrappers
  import opened Tokens
  import opened Int64
  import opened Evaluation
  import LexerSpec
  import ParserSpec
  import ParserProps
  import Ast

  // ------------------------------------------------------------ the table

  /** A tree without an `AssignmentNode` leaves the table as it found it, even when it fails. */
  lemma {:induction false} OnlyAssignmentWrites(node: Ast.Node, table: Table, oracle: FloatOracle)
    requires !Ast.HasAssignment(node)
    ensures Evaluate(node, table, oracle).table == table
    decreases node, 1
  {
    match node
    case LiteralNode(_) =>
    case IdentifierNode(_) =>
    case PrefixOperatorNode(_, e) =>
      OnlyAssignmentWrites(e, table, oracle);
    case TernaryNode(_, test, thenExpr, elseExpr) =>
      OnlyAssignmentWrites(test, table, oracle);
      OnlyAssignmentWrites(thenExpr, table, oracle);
      OnlyAssignmentWrites(elseExpr, table, oracle);
    case AssignmentNode(_, _, _) =>
      assert false;
    case _ =>
      OperandsOnlyAssignmentWrites(node, table, oracle);
  }

  lemma {:induction false} OperandsOnlyAssignmentWrites(node: Ast.Node, table: Table, oracle: FloatOracle)
    requires HasOperands(node) && !Ast.HasAssignment(node)
    ensures EvalOperands(node, table, oracle).table == table
    decreases node, 0
  {
    OnlyAssignmentWrites(node.left, table, oracle);
    OnlyAssignmentWrites(node.right, table, oracle);
  }

  /** Evaluation never removes a binding: the table only gains or overwrites keys. */
  lemma {:induction false} TableOnlyGrows(node: Ast.Node, table: Table, oracle: FloatOracle)
    ensures table.Keys <= Evaluate(node, table, oracle).table.Keys
    decreases node, 1
  {
    match node
    case LiteralNode(_) =>
    case IdentifierNode(_) =>
    case PrefixOperatorNode(_, e) =>
      TableOnlyGrows(e, table, oracle);
    case TernaryNode(_, test, thenExpr, elseExpr) =>
      TableOnlyGrows(test, table, oracle);
      var after := Evaluate(test, table, oracle).table;
      TableOnlyGrows(thenExpr, after, oracle);
      TableOnlyGrows(elseExpr, after, oracle);
    case _ =>
      OperandsOnlyGrow(node, table, oracle);
  }

  lemma {:induction false} OperandsOnlyGrow(node: Ast.Node, table: Table, oracle: FloatOracle)
    requires HasOperands(node)
    ensures table.Keys <= EvalOperands(node, table, oracle).table.Keys
    decreases node, 0
  {
    TableOnlyGrows(node.left, table, oracle);
    TableOnlyGrows(node.right, Evaluate(node.left, table, oracle).table, oracle);
  }

  /** Every `long` evaluation produces or stores fits in 64 bits, as the CLR's boxed `long` does. */
  lemma {:induction false} EvaluationKeepsLongsInRange(node: Ast.Node, table: Table, oracle: FloatOracle)
    requires TableInRange(table)
    ensures var r := Evaluate(node, table, oracle);
      TableInRange(r.table) && (r.result.Ok? ==> ValueInRange(r.result.value))
    decreases node, 1
  {
    match node
    case LiteralNode(_) =>
    case IdentifierNode(_) =>
    case PrefixOperatorNode(_, e) =>
      EvaluationKeepsLongsInRange(e, table, oracle);
    case TernaryNode(_, test, thenExpr, elseExpr) =>
      EvaluationKeepsLongsInRange(test, table, oracle);
      var after := Evaluate(test, table, oracle).table;
      EvaluationKeepsLongsInRange(thenExpr, after, oracle);
      EvaluationKeepsLongsInRange(elseExpr, after, oracle);
    case _ =>
      OperandsKeepLongsInRange(node, table, oracle);
  }

  lemma {:induction false} OperandsKeepLongsInRange(node: Ast.Node, table: Table, oracle: FloatOracle)
    requires HasOperands(node) && TableInRange(table)
    ensures var r := EvalOperands(node, table, oracle);
      TableInRange(r.table) && (r.result.Ok? ==> ValueInRange(r.result.value.0) && ValueInRange(r.result.value.1))
    decreases node, 0
  {
    EvaluationKeepsLongsInRange(node.left, table, oracle);
    EvaluationKeepsLongsInRange(node.right, Evaluate(node.left, table, oracle).table, oracle);
  }

  /** A conditional evaluates its test, then only the branch the test selects. */
  lemma TernarySelectsOneBranch(token: Token, test: Ast.Node, thenExpr: Ast.Node, elseExpr: Ast.Node,
                                table: Table, oracle: FloatOracle)
    ensures var cond := Evaluate(test, table, oracle);
      cond.result.Ok? && ToBoolean(cond.result.value, oracle).Ok? ==>
        Evaluate(Ast.TernaryNode(token, test, thenExpr, elseExpr), table, oracle)
          == (if ToBoolean(cond.result.value, oracle).value then Evaluate(thenExpr, cond.table, oracle)
              else Evaluate(elseExpr, cond.table, oracle))
  {
  }

  // ---------------------------------------------------------- the operators

  /** `-` undoes `+` on `long`s, across the wrap-around. */
  lemma SubtractionUndoesAddition(a: int, b: int, oracle: FloatOracle)
    requires InRange(a)
    ensures Arithmetic(Plus, Long(a), Long(b), oracle).Ok?
    ensures Arithmetic(Minus, Arithmetic(Plus, Long(a), Long(b), oracle).value, Long(b), oracle) == Ok(Long(a))
  {
    WrapAddSub(a, b);
  }

  /** Unary minus twice gives the operand back, `long.MinValue` included. */
  lemma NegationIsAnInvolution(a: int)
    requires InRange(a)
    ensures Prefix(Minus, Long(a)).Ok?
    ensures Prefix(Minus, Prefix(Minus, Long(a)).value) == Ok(Long(a))
  {
    WrapNegNeg(a);
  }

  /** `div` and `%` on `long`s recompose the dividend whenever neither throws. */
  lemma DivisionRecomposes(a: int, b: int)
    requires b != 0 && !(a == MinValue && b == -1)
    ensures Division(Div, a, b).Ok? && Division(Percent, a, b).Ok?
    ensures a == Division(Div, a, b).value * b + Division(Percent, a, b).value
  {
    TruncDivRem(a, b);
  }

  /** `~x` is `x ^ -1` on `long`s: the complement flips every bit of the pattern. */
  lemma ComplementIsXorWithAllOnes(a: int)
    requires InRange(a)
    ensures Prefix(BitwiseNot, Long(a)) == BitwiseOp(BitwiseXor, Long(a), Long(-1))
  {
    assert Prefix(BitwiseNot, Long(a)) == Ok(Long(-a - 1));
    XorWithAllOnes(a, -1);
  }

  /** `x ^ m` with `m` the all-ones `long` -1, on `long`s: `-x - 1`. */
  lemma XorWithAllOnes(a: int, m: int)
    requires InRange(a) && m == -1
    ensures BitwiseOp(BitwiseXor, Long(a), Long(m)) == Ok(Long(-a - 1))
  {
    assert BitwiseOp(BitwiseXor, Long(a), Long(m)) == Ok(Long(Bitwise(XorBits, a, m)));
    ComplementIsXorAllOnes(a);
  }

  /** `x & x`, `x | x` give `x` and `x ^ x` gives 0 on `long`s. */
  lemma BitwiseWithItself(a: int)
    requires InRange(a)
    ensures BitwiseOp(BitwiseAnd, Long(a), Long(a)) == Ok(Long(a))
    ensures BitwiseOp(BitwiseOr, Long(a), Long(a)) == Ok(Long(a))
    ensures BitwiseOp(BitwiseXor, Long(a), Long(a)) == Ok(Long(0))
  {
    BitwiseSelf(a);
    LongBitwise(BitwiseAnd, AndBits, a, a);
    LongBitwise(BitwiseOr, OrBits, a, a);
    LongBitwise(BitwiseXor, XorBits, a, a);
  }

  /** `&`, `|` and `^` on two `long`s: the 64-bit pattern operation of the same kind. */
  lemma LongBitwise(op: TokenType, kind: BitwiseKind, a: int, b: int)
    requires (op.BitwiseAnd? && kind.AndBits?) || (op.BitwiseOr? && kind.OrBits?) || (op.BitwiseXor? && kind.XorBits?)
    ensures BitwiseOp(op, Long(a), Long(b)) == Ok(Long(Bitwise(kind, a, b)))
  {
  }

  /** On two `bool`s, `&&` and `||` agree with the non-short-circuit `&` and `|`. */
  lemma LogicalAgreesWithBitwise(a: bool, b: bool)
    ensures Logical(And, Bool(a), Bool(b)) == BitwiseOp(BitwiseAnd, Bool(a), Bool(b))
    ensures Logical(Or, Bool(a), Bool(b)) == BitwiseOp(BitwiseOr, Bool(a), Bool(b))
  {
  }

  /** With a decisive left operand, `&&` and `||` ignore the right one, whatever it is. */
  lemma LogicalShortCircuits(r: Value)
    ensures Logical(And, Bool(false), r) == Ok(Bool(false))
    ensures Logical(Or, Bool(true), r) == Ok(Bool(true))
  {
  }

  /**
   * The corrected comparison differs from the source's only on `<=` between two
   * `long`s, and there only where rounding to `double` loses precision: every
   * other operator and operand pair, and `<=` between exactly representable
   * `long`s, give what the source gives.
   */
  lemma ComparisonCorrectionOnlyRounds(op: TokenType, l: Value, r: Value, oracle: FloatOracle)
    ensures !(op.LessOrEqual? && l.Long? && r.Long?) ==>
      Comparison(op, l, r, oracle) == ComparisonAsWritten(op, l, r, oracle)
    ensures l.Long? && r.Long? && Abs(l.n) <= TwoTo53 && Abs(r.n) <= TwoTo53 ==>
      Comparison(op, l, r, oracle) == ComparisonAsWritten(op, l, r, oracle)
  {
  }

  /**
   * In `(1 < 2) <= 1` the left operand is a `bool`: `<=` converts it with
   * `Convert.ToDouble` and compares 1.0 with the right `long`, while `<` on the
   * same operands fails in the `(long)` cast.
   */
  lemma BoolLeftOfLessOrEqual(oracle: FloatOracle)
    ensures Comparison(LessOrEqual, Bool(true), Long(1), oracle) == Ok(Bool(oracle.compare(LessOrEqual, FromLong(1), FromLong(1))))
    ensures Comparison(Less, Bool(true), Long(1), oracle) == Err(BinderError)
  {
  }

  // ------------------------------------------------------------ literals

  /** Reading back the decimal digits of a natural number gives the number. */
  lemma {:induction false} NaturalTextRoundTrip(n: nat)
    ensures DigitsValue(10, NaturalText(n)) == n
    decreases n
  {
    if n >= 10 {
      NaturalTextRoundTrip(n / 10);
      var s := NaturalText(n);
      assert s[..|s| - 1] == NaturalText(n / 10);
    }
  }

  /** A text without `_` is left as it is by the separator removal. */
  lemma {:induction false} NoSeparatorsUnchanged(s: string)
    requires '_' !in s
    ensures LexerSpec.RemoveUnderscores(s) == s
  {
    if s != [] {
      NoSeparatorsUnchanged(s[1..]);
    }
  }

  /** An `IntLiteral` holding the digits of a `long` evaluates to that `long`. */
  lemma IntLiteralRoundTrip(n: int, line: int, column: int, oracle: FloatOracle)
    requires 0 <= n <= MaxValue
    ensures LiteralValue(Token(IntLiteral, NaturalText(n), line, column), oracle) == Ok(Long(n))
  {
    NoSeparatorsUnchanged(NaturalText(n));
    NaturalTextRoundTrip(n);
  }

  /** Digit separators do not change the value of an `IntLiteral`. */
  lemma SeparatorsAreIgnored(s: string, line: int, column: int, oracle: FloatOracle)
    ensures LiteralValue(Token(IntLiteral, s, line, column), oracle)
         == LiteralValue(Token(IntLiteral, LexerSpec.RemoveUnderscores(s), line, column), oracle)
  {
    NoSeparatorsUnchanged(LexerSpec.RemoveUnderscores(s));
  }

  /** The lexer's `1_000` is one thousand; passed to `Convert.ToInt64` unchanged it throws instead. */
  lemma SeparatedLiteralRejectedAsWritten(oracle: FloatOracle)
    ensures IntLiteralAsWritten(Token(IntLiteral, "1_000", 0, 0)) == Err(FormatError)
    ensures LiteralValue(Token(IntLiteral, "1_000", 0, 0), oracle) == Ok(Long(1000))
  {
    assert !AllDigits(10, "1_000") by {
      assert !DigitOk(10, "1_000"[1]);
    }
    ThousandWithoutSeparator();
    SeparatorsAreIgnored("1_000", 0, 0, oracle);
    IntLiteralRoundTrip(1000, 0, 0, oracle);
  }

  /** Removing the separator from `1_000` gives the decimal digits of one thousand. */
  lemma ThousandWithoutSeparator()
    ensures LexerSpec.RemoveUnderscores("1_000") == NaturalText(1000)
  {
    NoSeparatorsUnchanged("000");
    assert "1_000"[1..][1..] == "000";
    assert NaturalText(1000) == "1000";
  }

  // ------------------------------------------------------------- findings

  /**
   * `mod` as written: `1 mod long.MaxValue` wraps `1 + long.MaxValue` to
   * `long.MinValue` and comes out -1; the flooring remainder is 1.
   */
  lemma ModIdiomOverflows()
    ensures ModAsWritten(1, MaxValue) == Ok(-1)
    ensures Division(Mod, 1, MaxValue) == Ok(1)
  {
    assert TruncRem(1, MaxValue) == 1;
    assert Wrap(1 + MaxValue) == MinValue;
  }

  /** The written idiom and the flooring remainder agree whenever `a % b + b` does not overflow. */
  lemma ModIdiomAgreesWithoutOverflow(a: int, b: int)
    requires b != 0 && InRange(TruncRem(a, b) + b)
    ensures ModAsWritten(a, b) == Division(Mod, a, b)
  {
    if !(a == MinValue && b == -1) {
      ModIdiomIsFloorMod(a, b);
    }
  }

  /** In particular they agree for every divisor of magnitude at most 2^62. */
  lemma ModIdiomSafeForSmallDivisors(a: int, b: int)
    requires b != 0 && Abs(b) <= 0x4000_0000_0000_0000
    ensures ModAsWritten(a, b) == Division(Mod, a, b)
  {
    ModIdiomAgreesWithoutOverflow(a, b);
  }

  /**
   * `<=` as written: `2^53 + 1 <= 2^53` holds, because `2^53 + 1` rounds to
   * `2^53` as a `double`, although `2^53 + 1 > 2^53` holds too.
   */
  lemma LessOrEqualRoundsFirst(oracle: FloatOracle)
    ensures ComparisonAsWritten(LessOrEqual, Long(TwoTo53 + 1), Long(TwoTo53), oracle) == Ok(Bool(true))
    ensures Comparison(Greater, Long(TwoTo53 + 1), Long(TwoTo53), oracle) == Ok(Bool(true))
    ensures Comparison(LessOrEqual, Long(TwoTo53 + 1), Long(TwoTo53), oracle) == Ok(Bool(false))
  {
    assert DoubleSpacing(TwoTo53 + 1, 1) == 2 by {
      assert DoubleSpacing(TwoTo53 + 1, 2) == 2;
    }
    assert ToDouble(TwoTo53 + 1) == TwoTo53;
  }

  // ---------------------------------------------------- whole expressions

  /** An `IntLiteral` node holding the digits of a `long` evaluates to it and leaves the table alone. */
  lemma IntLiteralEvaluates(n: int, line: int, column: int, table: Table, oracle: FloatOracle)
    requires 0 <= n <= MaxValue
    ensures Evaluate(Ast.LiteralNode(Token(IntLiteral, NaturalText(n), line, column)), table, oracle)
         == Outcome(Ok(Long(n)), table)
  {
    IntLiteralRoundTrip(n, line, column, oracle);
  }

  /** A binary node whose operands are `long`s that write nothing applies its operator to their values. */
  lemma BinaryOfLongs(t: Token, left: Ast.Node, right: Ast.Node, a: int, b: int, table: Table, oracle: FloatOracle)
    requires Evaluate(left, table, oracle) == Outcome(Ok(Long(a)), table)
    requires Evaluate(right, table, oracle) == Outcome(Ok(Long(b)), table)
    ensures Evaluate(Ast.BinaryOperatorNode(t, left, right), table, oracle)
         == Outcome(Arithmetic(t.kind, Long(a), Long(b), oracle), table)
  {
    var node := Ast.BinaryOperatorNode(t, left, right);
    assert EvalOperands(node, table, oracle) == Operands(Ok((Long(a), Long(b))), table);
  }

  /** The tree of `2*3` evaluates to 6 and leaves the table alone. */
  lemma ProductValue(table: Table, oracle: FloatOracle)
    ensures
      var two, star, three := ParserProps.Tok(IntLiteral, "2", 2), ParserProps.Tok(Star, "*", 3), ParserProps.Tok(IntLiteral, "3", 4);
      Evaluate(Ast.BinaryOperatorNode(star, Ast.LiteralNode(two), Ast.LiteralNode(three)), table, oracle) == Outcome(Ok(Long(6)), table)
  {
    var two, star, three := ParserProps.Tok(IntLiteral, "2", 2), ParserProps.Tok(Star, "*", 3), ParserProps.Tok(IntLiteral, "3", 4);
    assert NaturalText(2) == "2" && NaturalText(3) == "3";
    IntLiteralEvaluates(2, 0, 2, table, oracle);
    IntLiteralEvaluates(3, 0, 4, table, oracle);
    BinaryOfLongs(star, Ast.LiteralNode(two), Ast.LiteralNode(three), 2, 3, table, oracle);
  }

  /** The tree of `1+2*3` evaluates to 7 and leaves the table alone. */
  lemma SumOfProductValue(table: Table, oracle: FloatOracle)
    ensures
      var one, plus, two := ParserProps.Tok(IntLiteral, "1", 0), ParserProps.Tok(Plus, "+", 1), ParserProps.Tok(IntLiteral, "2", 2);
      var star, three := ParserProps.Tok(Star, "*", 3), ParserProps.Tok(IntLiteral, "3", 4);
      var product := Ast.BinaryOperatorNode(star, Ast.LiteralNode(two), Ast.LiteralNode(three));
      Evaluate(Ast.BinaryOperatorNode(plus, Ast.LiteralNode(one), product), table, oracle) == Outcome(Ok(Long(7)), table)
  {
    var one, plus, two := ParserProps.Tok(IntLiteral, "1", 0), ParserProps.Tok(Plus, "+", 1), ParserProps.Tok(IntLiteral, "2", 2);
    var star, three := ParserProps.Tok(Star, "*", 3), ParserProps.Tok(IntLiteral, "3", 4);
    var product := Ast.BinaryOperatorNode(star, Ast.LiteralNode(two), Ast.LiteralNode(three));
    assert NaturalText(1) == "1";
    IntLiteralEvaluates(1, 0, 0, table, oracle);
    ProductValue(table, oracle);
    BinaryOfLongs(plus, Ast.LiteralNode(one), product, 1, 6, table, oracle);
  }

  /** `1+2*3`, parsed and evaluated: 7, with the table untouched. */
  lemma SumOfProductEvaluates(toks: seq<Token>, oracle: FloatOracle)
    requires toks == [ParserProps.Tok(IntLiteral, "1", 0), ParserProps.Tok(Plus, "+", 1), ParserProps.Tok(IntLiteral, "2", 2),
                      ParserProps.Tok(Star, "*", 3), ParserProps.Tok(IntLiteral, "3", 4), ParserProps.Tok(EndOfStream, "", 5)]
    ensures var parsed := ParserSpec.ParseExpr(toks, -1, 0);
      parsed.Ok? && Evaluate(parsed.value.node, map[], oracle) == Outcome(Ok(Long(7)), map[])
  {
    ParserProps.SumOfProduct(toks);
    SumOfProductValue(map[], oracle);
  }

  /** `a=b=c=1` on an empty table binds all three names to 1, innermost first. */
  lemma ChainedAssignmentEvaluates(toks: seq<Token>, oracle: FloatOracle)
    requires toks == [ParserProps.Tok(Identifier, "a", 1), ParserProps.Tok(Assign, "=", 1), ParserProps.Tok(Identifier, "b", 3),
                      ParserProps.Tok(Assign, "=", 3), ParserProps.Tok(Identifier, "c", 5), ParserProps.Tok(Assign, "=", 5),
                      ParserProps.Tok(IntLiteral, "1", 6), ParserProps.Tok(EndOfStream, "", 7)]
    ensures var parsed := ParserSpec.ParseExpr(toks, -1, 0);
      parsed.Ok? && Evaluate(parsed.value.node, map[], oracle)
        == Outcome(Ok(Long(1)), map["c" := Long(1), "b" := Long(1), "a" := Long(1)])
  {
    ParserProps.AssignmentIsRightAssociative(toks);
    ChainedAssignmentValue(oracle);
  }

  /** Assigning to a name that is not bound binds that very name to the right operand's value. */
  lemma AssignmentToUnboundName(t: Token, name: Token, right: Ast.Node, v: Value, table: Table, after: Table, oracle: FloatOracle)
    requires name.value !in table
    requires Evaluate(right, table, oracle) == Outcome(Ok(v), after)
    ensures Evaluate(Ast.AssignmentNode(t, Ast.IdentifierNode(name), right), table, oracle)
         == Outcome(Ok(v), after[name.value := v])
  {
    var node := Ast.AssignmentNode(t, Ast.IdentifierNode(name), right);
    assert EvalOperands(node, table, oracle) == Operands(Ok((Text(name.value), v)), after);
  }

  /** The tree of `a=b=c=1` on an empty table: 1, with `c`, then `b`, then `a` bound to it. */
  lemma ChainedAssignmentValue(oracle: FloatOracle)
    ensures
      var a, eq1, b, eq2 := ParserProps.Tok(Identifier, "a", 1), ParserProps.Tok(Assign, "=", 1), ParserProps.Tok(Identifier, "b", 3), ParserProps.Tok(Assign, "=", 3);
      var c, eq3, one := ParserProps.Tok(Identifier, "c", 5), ParserProps.Tok(Assign, "=", 5), ParserProps.Tok(IntLiteral, "1", 6);
      var node := Ast.AssignmentNode(eq1, Ast.IdentifierNode(a),
                    Ast.AssignmentNode(eq2, Ast.IdentifierNode(b),
                      Ast.AssignmentNode(eq3, Ast.IdentifierNode(c), Ast.LiteralNode(one))));
      Evaluate(node, map[], oracle) == Outcome(Ok(Long(1)), map["c" := Long(1), "b" := Long(1), "a" := Long(1)])
  {
    var a, eq1, b, eq2 := ParserProps.Tok(Identifier, "a", 1), ParserProps.Tok(Assign, "=", 1), ParserProps.Tok(Identifier, "b", 3), ParserProps.Tok(Assign, "=", 3);
    var c, eq3, one := ParserProps.Tok(Identifier, "c", 5), ParserProps.Tok(Assign, "=", 5), ParserProps.Tok(IntLiteral, "1", 6);
    var empty: Table := map[];
    assert NaturalText(1) == "1";
    IntLiteralEvaluates(1, 0, 6, empty, oracle);
    var cAssign := Ast.AssignmentNode(eq3, Ast.IdentifierNode(c), Ast.LiteralNode(one));
    AssignmentToUnboundName(eq3, c, Ast.LiteralNode(one), Long(1), empty, empty, oracle);
    var bAssign := Ast.AssignmentNode(eq2, Ast.IdentifierNode(b), cAssign);
    AssignmentToUnboundName(eq2, b, cAssign, Long(1), empty, map["c" := Long(1)], oracle);
    AssignmentToUnboundName(eq1, a, bAssign, Long(1), empty, map["c" := Long(1), "b" := Long(1)], oracle);
  }

  /**
   * The key an assignment writes is the left operand's value: once `a` holds 1,
   * `a = 2` binds "1" and leaves `a` as it was.
   */
  lemma AssignmentKeyIsLeftValue(oracle: FloatOracle)
    ensures
      var a := Ast.IdentifierNode(Token(Identifier, "a", 0, 0));
      var two := Ast.LiteralNode(Token(IntLiteral, "2", 0, 4));
      var node := Ast.AssignmentNode(Token(Assign, "=", 0, 2), a, two);
      Evaluate(node, map["a" := Long(1)], oracle) == Outcome(Ok(Long(2)), map["a" := Long(1), "1" := Long(2)])
  {
    IntLiteralRoundTrip(2, 0, 4, oracle);
    assert LongText(1) == "1";
  }

  /** An unbound identifier is its own name, so `x + 1` concatenates. */
  lemma UnboundIdentifierConcatenates(oracle: FloatOracle)
    ensures
      var x := Ast.IdentifierNode(Token(Identifier, "x", 0, 0));
      var one := Ast.LiteralNode(Token(IntLiteral, "1", 0, 4));
      Evaluate(Ast.BinaryOperatorNode(Token(Plus, "+", 0, 2), x, one), map[], oracle) == Outcome(Ok(Text("x1")), map[])
  {
    IntLiteralRoundTrip(1, 0, 4, oracle);
    assert LongText(1) == "1";
    var x := Ast.IdentifierNode(Token(Identifier, "x", 0, 0));
    var one := Ast.LiteralNode(Token(IntLiteral, "1", 0, 4));
    assert EvalOperands(Ast.BinaryOperatorNode(Token(Plus, "+", 0, 2), x, one), map[], oracle)
        == Operands(Ok((Text("x"), Long(1))), map[]);
    assert TextOf(Long(1), oracle) == "1";
    assert "x" + "1" == "x1";
    assert Add(Text("x"), Long(1), oracle) == Ok(Text("x1"));
  }
}
