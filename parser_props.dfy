/**
 * Properties of the Pratt parser: it stays inside a stream that ends in
 * `EndOfStream`, and the tree shapes that precedence and associativity give to
 * the expressions HLang's own tests and comments use.
 */
module ParserProps {
  import opened Wrappers
  import opened Tokens
  import opened ParserSpec
  import Ast
  import P = Precedences

  /** A token stream as the lexer leaves it after a successful run: its last token is `EndOfStream`. */
  predicate EndsWithEndOfStream(toks: seq<Token>) {
    |toks| > 0 && toks[|toks| - 1].kind == EndOfStream
  }

  /** The errors a parse may end in without having read outside the stream. */
  predicate ReportedAtToken(r: Result<Parsed, ParseError>) {
    r.Ok? || r.error.ExpectedExpression? || r.error.ExpectedKind?
  }

  /**
   * On a stream ending in `EndOfStream`, `Parse(precedence)` with a non-negative
   * precedence never reads past that token: it either succeeds before it or fails
   * with a `ParseError` at a token of the stream.
   */
  lemma {:induction false} ParseStaysInStream(toks: seq<Token>, cur: int, precedence: int)
    requires EndsWithEndOfStream(toks) && -1 <= cur < |toks| - 1 && precedence >= 0
    ensures var r := ParseExpr(toks, cur, precedence);
      ReportedAtToken(r) && (r.Ok? ==> r.value.cursor < |toks| - 1)
    decreases |toks| - cur, 1
  {
    var token := toks[cur + 1];
    match PrefixRuleOf(token.kind)
    case None =>
    case Some(rule) =>
      PrefixStaysInStream(toks, cur + 1, rule, token);
      var r := ParsePrefix(toks, cur + 1, rule, token);
      if r.Ok? {
        LoopStaysInStream(toks, r.value.cursor, precedence, r.value.node);
      }
  }

  lemma {:induction false} LoopStaysInStream(toks: seq<Token>, cur: int, precedence: int, left: Ast.Node)
    requires EndsWithEndOfStream(toks) && -1 <= cur < |toks| - 1 && precedence >= 0
    ensures var r := ParseLoop(toks, cur, precedence, left);
      ReportedAtToken(r) && (r.Ok? ==> r.value.cursor < |toks| - 1)
    decreases |toks| - cur, 0
  {
    var token := toks[cur + 1];
    if precedence < InfixPrecedence(token.kind) {
      var rule := InfixRuleOf(token.kind).value;
      InfixStaysInStream(toks, cur + 1, rule, left, token);
      var r := ParseInfix(toks, cur + 1, rule, left, token);
      if r.Ok? {
        LoopStaysInStream(toks, r.value.cursor, precedence, r.value.node);
      }
    }
  }

  lemma {:induction false} PrefixStaysInStream(toks: seq<Token>, cur: int, rule: PrefixRule, token: Token)
    requires EndsWithEndOfStream(toks) && 0 <= cur < |toks| - 1
    requires rule.PrefixParse? ==> rule.precedence >= 0
    ensures var r := ParsePrefix(toks, cur, rule, token);
      ReportedAtToken(r) && (r.Ok? ==> r.value.cursor < |toks| - 1)
    decreases |toks| - cur, 2
  {
    match rule
    case LiteralParse =>
    case IdentifierParse =>
    case PrefixParse(prec) =>
      ParseStaysInStream(toks, cur, prec);
    case ParenParse =>
      ParseStaysInStream(toks, cur, 0);
  }

  lemma {:induction false} InfixStaysInStream(toks: seq<Token>, cur: int, rule: InfixRule, left: Ast.Node, token: Token)
    requires EndsWithEndOfStream(toks) && 0 <= cur < |toks| - 1
    requires rule.GetPrecedence() >= P.Assignment
    ensures var r := ParseInfix(toks, cur, rule, left, token);
      ReportedAtToken(r) && (r.Ok? ==> r.value.cursor < |toks| - 1)
    decreases |toks| - cur, 3
  {
    match rule
    case BinaryOperatorParse(prec, rightAssociative) =>
      ParseStaysInStream(toks, cur, prec - (if rightAssociative then 1 else 0));
    case ComparisonParse =>
      ParseStaysInStream(toks, cur, rule.GetPrecedence());
    case AssignmentParse =>
      ParseStaysInStream(toks, cur, rule.GetPrecedence() - 1);
    case BitwiseOperatorParse(_) =>
      ParseStaysInStream(toks, cur, rule.GetPrecedence());
    case LogicalOperatorParse(_) =>
      ParseStaysInStream(toks, cur, rule.GetPrecedence());
    case TernaryParse =>
      TernaryStaysInStream(toks, cur, left, token);
  }

  lemma {:induction false} TernaryStaysInStream(toks: seq<Token>, cur: int, left: Ast.Node, token: Token)
    requires EndsWithEndOfStream(toks) && 0 <= cur < |toks| - 1
    ensures var r := ParseInfix(toks, cur, TernaryParse, left, token);
      ReportedAtToken(r) && (r.Ok? ==> r.value.cursor < |toks| - 1)
    decreases |toks| - cur, 2
  {
    ParseStaysInStream(toks, cur, 0);
    var truePart := ParseExpr(toks, cur, 0);
    if truePart.Ok? {
      var afterColon := ConsumeAt(toks, truePart.value.cursor, Colon);
      if afterColon.Ok? {
        ParseStaysInStream(toks, afterColon.value, 0);
      }
    }
  }

  /** A token on line 0 at the given column, as the lexer builds them for a one-line input. */
  function Tok(kind: TokenType, text: string, column: int): Token {
    Token(kind, text, 0, column)
  }

  /** `1+2*3` is `1+(2*3)`: the higher-precedence operator goes into the right operand. */
  lemma SumOfProduct(toks: seq<Token>)
    requires toks == [Tok(IntLiteral, "1", 0), Tok(Plus, "+", 1), Tok(IntLiteral, "2", 2),
                      Tok(Star, "*", 3), Tok(IntLiteral, "3", 4), Tok(EndOfStream, "", 5)]
    ensures var one, plus, two, star, three := toks[0], toks[1], toks[2], toks[3], toks[4];
      ParseExpr(toks, -1, 0)
        == Ok(Parsed(Ast.BinaryOperatorNode(plus, Ast.LiteralNode(one),
                       Ast.BinaryOperatorNode(star, Ast.LiteralNode(two), Ast.LiteralNode(three))), 4))
  {
    var one, plus, two, star, three := toks[0], toks[1], toks[2], toks[3], toks[4];
    var l1, l2, l3 := Ast.LiteralNode(one), Ast.LiteralNode(two), Ast.LiteralNode(three);
    var product := Ast.BinaryOperatorNode(star, l2, l3);
    assert ParseLoop(toks, 4, P.Product, l3) == Ok(Parsed(l3, 4));
    assert ParseExpr(toks, 3, P.Product) == Ok(Parsed(l3, 4));
    assert ParseLoop(toks, 4, P.Sum, product) == Ok(Parsed(product, 4));
    assert ParseLoop(toks, 2, P.Sum, l2) == Ok(Parsed(product, 4));
    assert ParseExpr(toks, 1, P.Sum) == Ok(Parsed(product, 4));
    assert ParseLoop(toks, 0, 0, l1) == Ok(Parsed(Ast.BinaryOperatorNode(plus, l1, product), 4));
  }

  /** `a-b-c` is `(a-b)-c`: a left-associative operator does not absorb one of equal precedence. */
  lemma SubtractionIsLeftAssociative(toks: seq<Token>)
    requires toks == [Tok(Identifier, "a", 1), Tok(Minus, "-", 1), Tok(Identifier, "b", 3),
                      Tok(Minus, "-", 3), Tok(Identifier, "c", 5), Tok(EndOfStream, "", 5)]
    ensures var a, minus1, b, minus2, c := toks[0], toks[1], toks[2], toks[3], toks[4];
      ParseExpr(toks, -1, 0)
        == Ok(Parsed(Ast.BinaryOperatorNode(minus2,
                       Ast.BinaryOperatorNode(minus1, Ast.IdentifierNode(a), Ast.IdentifierNode(b)),
                       Ast.IdentifierNode(c)), 4))
  {
    var a, minus1, b, minus2, c := toks[0], toks[1], toks[2], toks[3], toks[4];
    var na, nb, nc := Ast.IdentifierNode(a), Ast.IdentifierNode(b), Ast.IdentifierNode(c);
    var ab := Ast.BinaryOperatorNode(minus1, na, nb);
    var abc := Ast.BinaryOperatorNode(minus2, ab, nc);
    assert ParseLoop(toks, 2, P.Sum, nb) == Ok(Parsed(nb, 2));
    assert ParseExpr(toks, 1, P.Sum) == Ok(Parsed(nb, 2));
    assert ParseLoop(toks, 4, P.Sum, nc) == Ok(Parsed(nc, 4));
    assert ParseExpr(toks, 3, P.Sum) == Ok(Parsed(nc, 4));
    assert ParseLoop(toks, 4, 0, abc) == Ok(Parsed(abc, 4));
    assert ParseLoop(toks, 2, 0, ab) == Ok(Parsed(abc, 4));
    assert ParseLoop(toks, 0, 0, na) == Ok(Parsed(abc, 4));
  }

  /** `2**3**2` is `2**(3**2)`: the right-associative `**` absorbs an operator of equal precedence. */
  lemma PowerIsRightAssociative(toks: seq<Token>)
    requires toks == [Tok(IntLiteral, "2", 1), Tok(DoubleStar, "**", 1), Tok(IntLiteral, "3", 4),
                      Tok(DoubleStar, "**", 4), Tok(IntLiteral, "2", 7), Tok(EndOfStream, "", 7)]
    ensures var two, pow1, three, pow2, two2 := toks[0], toks[1], toks[2], toks[3], toks[4];
      ParseExpr(toks, -1, 0)
        == Ok(Parsed(Ast.BinaryOperatorNode(pow1, Ast.LiteralNode(two),
                       Ast.BinaryOperatorNode(pow2, Ast.LiteralNode(three), Ast.LiteralNode(two2))), 4))
  {
    var two, pow1, three, pow2, two2 := toks[0], toks[1], toks[2], toks[3], toks[4];
    var n2, n3, n2b := Ast.LiteralNode(two), Ast.LiteralNode(three), Ast.LiteralNode(two2);
    var inner := Ast.BinaryOperatorNode(pow2, n3, n2b);
    assert ParseLoop(toks, 4, P.Exponent - 1, n2b) == Ok(Parsed(n2b, 4));
    assert ParseExpr(toks, 3, P.Exponent - 1) == Ok(Parsed(n2b, 4));
    assert ParseLoop(toks, 4, P.Exponent - 1, inner) == Ok(Parsed(inner, 4));
    assert ParseLoop(toks, 2, P.Exponent - 1, n3) == Ok(Parsed(inner, 4));
    assert ParseExpr(toks, 1, P.Exponent - 1) == Ok(Parsed(inner, 4));
    assert ParseLoop(toks, 0, 0, n2) == Ok(Parsed(Ast.BinaryOperatorNode(pow1, n2, inner), 4));
  }

  /** `a=b=c=1` is `a=(b=(c=1))`: the right side of `=` is parsed at level 0. */
  lemma AssignmentIsRightAssociative(toks: seq<Token>)
    requires toks == [Tok(Identifier, "a", 1), Tok(Assign, "=", 1), Tok(Identifier, "b", 3), Tok(Assign, "=", 3),
                      Tok(Identifier, "c", 5), Tok(Assign, "=", 5), Tok(IntLiteral, "1", 6), Tok(EndOfStream, "", 7)]
    ensures var a, eq1, b, eq2, c, eq3, one := toks[0], toks[1], toks[2], toks[3], toks[4], toks[5], toks[6];
      ParseExpr(toks, -1, 0)
        == Ok(Parsed(Ast.AssignmentNode(eq1, Ast.IdentifierNode(a),
                       Ast.AssignmentNode(eq2, Ast.IdentifierNode(b),
                         Ast.AssignmentNode(eq3, Ast.IdentifierNode(c), Ast.LiteralNode(one)))), 6))
  {
    var a, eq1, b, eq2, c, eq3, one := toks[0], toks[1], toks[2], toks[3], toks[4], toks[5], toks[6];
    var na, nb, nc, n1 := Ast.IdentifierNode(a), Ast.IdentifierNode(b), Ast.IdentifierNode(c), Ast.LiteralNode(one);
    var cAssign := Ast.AssignmentNode(eq3, nc, n1);
    var bAssign := Ast.AssignmentNode(eq2, nb, cAssign);
    var aAssign := Ast.AssignmentNode(eq1, na, bAssign);
    assert ParseLoop(toks, 6, 0, n1) == Ok(Parsed(n1, 6));
    assert ParseExpr(toks, 5, 0) == Ok(Parsed(n1, 6));
    assert ParseLoop(toks, 6, 0, cAssign) == Ok(Parsed(cAssign, 6));
    assert ParseLoop(toks, 4, 0, nc) == Ok(Parsed(cAssign, 6));
    assert ParseExpr(toks, 3, 0) == Ok(Parsed(cAssign, 6));
    assert ParseLoop(toks, 6, 0, bAssign) == Ok(Parsed(bAssign, 6));
    assert ParseLoop(toks, 2, 0, nb) == Ok(Parsed(bAssign, 6));
    assert ParseExpr(toks, 1, 0) == Ok(Parsed(bAssign, 6));
    assert ParseLoop(toks, 6, 0, aAssign) == Ok(Parsed(aAssign, 6));
    assert ParseLoop(toks, 0, 0, na) == Ok(Parsed(aAssign, 6));
  }

  /** `-2**2` is `-(2**2)`: at the `Unary` level only `**` binds inside the operand of a sign. */
  lemma NegationOfPower(toks: seq<Token>)
    requires toks == [Tok(Minus, "-", 1), Tok(IntLiteral, "2", 2), Tok(DoubleStar, "**", 2),
                      Tok(IntLiteral, "2", 5), Tok(EndOfStream, "", 5)]
    ensures var minus, two, pow, two2 := toks[0], toks[1], toks[2], toks[3];
      ParseExpr(toks, -1, 0)
        == Ok(Parsed(Ast.PrefixOperatorNode(minus,
                       Ast.BinaryOperatorNode(pow, Ast.LiteralNode(two), Ast.LiteralNode(two2))), 3))
  {
    var minus, two, pow, two2 := toks[0], toks[1], toks[2], toks[3];
    var n2, n2b := Ast.LiteralNode(two), Ast.LiteralNode(two2);
    var power := Ast.BinaryOperatorNode(pow, n2, n2b);
    var negation := Ast.PrefixOperatorNode(minus, power);
    assert ParseLoop(toks, 3, P.Exponent - 1, n2b) == Ok(Parsed(n2b, 3));
    assert ParseExpr(toks, 2, P.Exponent - 1) == Ok(Parsed(n2b, 3));
    assert ParseLoop(toks, 3, P.Unary, power) == Ok(Parsed(power, 3));
    assert ParseLoop(toks, 1, P.Unary, n2) == Ok(Parsed(power, 3));
    assert ParseExpr(toks, 0, P.Unary) == Ok(Parsed(power, 3));
    assert ParseLoop(toks, 3, 0, negation) == Ok(Parsed(negation, 3));
  }

  /** `-a*b` is `(-a)*b`: the sign takes only the operand before `*`. */
  lemma NegationBindsTighterThanProduct(toks: seq<Token>)
    requires toks == [Tok(Minus, "-", 1), Tok(Identifier, "a", 2), Tok(Star, "*", 2),
                      Tok(Identifier, "b", 4), Tok(EndOfStream, "", 4)]
    ensures var minus, a, star, b := toks[0], toks[1], toks[2], toks[3];
      ParseExpr(toks, -1, 0)
        == Ok(Parsed(Ast.BinaryOperatorNode(star,
                       Ast.PrefixOperatorNode(minus, Ast.IdentifierNode(a)), Ast.IdentifierNode(b)), 3))
  {
    var minus, a, star, b := toks[0], toks[1], toks[2], toks[3];
    var na, nb := Ast.IdentifierNode(a), Ast.IdentifierNode(b);
    var negation := Ast.PrefixOperatorNode(minus, na);
    var product := Ast.BinaryOperatorNode(star, negation, nb);
    assert ParseLoop(toks, 1, P.Unary, na) == Ok(Parsed(na, 1));
    assert ParseExpr(toks, 0, P.Unary) == Ok(Parsed(na, 1));
    assert ParseLoop(toks, 3, P.Product, nb) == Ok(Parsed(nb, 3));
    assert ParseExpr(toks, 2, P.Product) == Ok(Parsed(nb, 3));
    assert ParseLoop(toks, 3, 0, product) == Ok(Parsed(product, 3));
    assert ParseLoop(toks, 1, 0, negation) == Ok(Parsed(product, 3));
  }

  /** `a<b==c` is `(a<b)==c`: all comparisons share one level and associate to the left. */
  lemma ComparisonsAssociateLeft(toks: seq<Token>)
    requires toks == [Tok(Identifier, "a", 1), Tok(Less, "<", 1), Tok(Identifier, "b", 3),
                      Tok(Equal, "==", 3), Tok(Identifier, "c", 6), Tok(EndOfStream, "", 6)]
    ensures var a, less, b, equal, c := toks[0], toks[1], toks[2], toks[3], toks[4];
      ParseExpr(toks, -1, 0)
        == Ok(Parsed(Ast.ComparisonNode(equal,
                       Ast.ComparisonNode(less, Ast.IdentifierNode(a), Ast.IdentifierNode(b)),
                       Ast.IdentifierNode(c)), 4))
  {
    var a, less, b, equal, c := toks[0], toks[1], toks[2], toks[3], toks[4];
    var na, nb, nc := Ast.IdentifierNode(a), Ast.IdentifierNode(b), Ast.IdentifierNode(c);
    var lt := Ast.ComparisonNode(less, na, nb);
    var eq := Ast.ComparisonNode(equal, lt, nc);
    assert ParseLoop(toks, 2, P.Comparison, nb) == Ok(Parsed(nb, 2));
    assert ParseExpr(toks, 1, P.Comparison) == Ok(Parsed(nb, 2));
    assert ParseLoop(toks, 4, P.Comparison, nc) == Ok(Parsed(nc, 4));
    assert ParseExpr(toks, 3, P.Comparison) == Ok(Parsed(nc, 4));
    assert ParseLoop(toks, 4, 0, eq) == Ok(Parsed(eq, 4));
    assert ParseLoop(toks, 2, 0, lt) == Ok(Parsed(eq, 4));
    assert ParseLoop(toks, 0, 0, na) == Ok(Parsed(eq, 4));
  }

  /** `1+2<3` is `(1+2)<3`: with the comparison level below `Additive`, a sum is a comparison's operand. */
  lemma SumInsideComparison(toks: seq<Token>)
    requires toks == [Tok(IntLiteral, "1", 1), Tok(Plus, "+", 1), Tok(IntLiteral, "2", 3),
                      Tok(Less, "<", 3), Tok(IntLiteral, "3", 5), Tok(EndOfStream, "", 5)]
    ensures var one, plus, two, less, three := toks[0], toks[1], toks[2], toks[3], toks[4];
      ParseExpr(toks, -1, 0)
        == Ok(Parsed(Ast.ComparisonNode(less,
                       Ast.BinaryOperatorNode(plus, Ast.LiteralNode(one), Ast.LiteralNode(two)),
                       Ast.LiteralNode(three)), 4))
  {
    var one, plus, two, less, three := toks[0], toks[1], toks[2], toks[3], toks[4];
    var n1, n2, n3 := Ast.LiteralNode(one), Ast.LiteralNode(two), Ast.LiteralNode(three);
    var sum := Ast.BinaryOperatorNode(plus, n1, n2);
    var lt := Ast.ComparisonNode(less, sum, n3);
    assert ParseLoop(toks, 2, P.Sum, n2) == Ok(Parsed(n2, 2));
    assert ParseExpr(toks, 1, P.Sum) == Ok(Parsed(n2, 2));
    assert ParseLoop(toks, 4, P.Comparison, n3) == Ok(Parsed(n3, 4));
    assert ParseExpr(toks, 3, P.Comparison) == Ok(Parsed(n3, 4));
    assert ParseLoop(toks, 4, 0, lt) == Ok(Parsed(lt, 4));
    assert ParseLoop(toks, 2, 0, sum) == Ok(Parsed(lt, 4));
    assert ParseLoop(toks, 0, 0, n1) == Ok(Parsed(lt, 4));
  }

  /** `a ? b : c ? d : e` is `a ? b : (c ? d : e)`: both branches are parsed at level 0. */
  lemma TernaryNestsToTheRight(toks: seq<Token>)
    requires toks == [Tok(Identifier, "a", 1), Tok(Quest, "?", 2), Tok(Identifier, "b", 4), Tok(Colon, ":", 5),
                      Tok(Identifier, "c", 7), Tok(Quest, "?", 8), Tok(Identifier, "d", 10), Tok(Colon, ":", 11),
                      Tok(Identifier, "e", 13), Tok(EndOfStream, "", 13)]
    ensures var a, q1, b, c, q2, d, e := toks[0], toks[1], toks[2], toks[4], toks[5], toks[6], toks[8];
      ParseExpr(toks, -1, 0)
        == Ok(Parsed(Ast.TernaryNode(q1, Ast.IdentifierNode(a), Ast.IdentifierNode(b),
                       Ast.TernaryNode(q2, Ast.IdentifierNode(c), Ast.IdentifierNode(d), Ast.IdentifierNode(e))), 8))
  {
    var a, q1, b, c, q2, d, e := toks[0], toks[1], toks[2], toks[4], toks[5], toks[6], toks[8];
    var na, nb, nc := Ast.IdentifierNode(a), Ast.IdentifierNode(b), Ast.IdentifierNode(c);
    var nd, ne := Ast.IdentifierNode(d), Ast.IdentifierNode(e);
    var inner := Ast.TernaryNode(q2, nc, nd, ne);
    var outer := Ast.TernaryNode(q1, na, nb, inner);
    assert ParseLoop(toks, 8, 0, ne) == Ok(Parsed(ne, 8));
    assert ParseExpr(toks, 7, 0) == Ok(Parsed(ne, 8));
    assert ParseLoop(toks, 6, 0, nd) == Ok(Parsed(nd, 6));
    assert ParseExpr(toks, 5, 0) == Ok(Parsed(nd, 6));
    assert ParseInfix(toks, 5, TernaryParse, nc, q2) == Ok(Parsed(inner, 8));
    assert ParseLoop(toks, 8, 0, inner) == Ok(Parsed(inner, 8));
    assert ParseLoop(toks, 4, 0, nc) == Ok(Parsed(inner, 8));
    assert ParseExpr(toks, 3, 0) == Ok(Parsed(inner, 8));
    assert ParseLoop(toks, 2, 0, nb) == Ok(Parsed(nb, 2));
    assert ParseExpr(toks, 1, 0) == Ok(Parsed(nb, 2));
    assert ParseInfix(toks, 1, TernaryParse, na, q1) == Ok(Parsed(outer, 8));
    assert ParseLoop(toks, 8, 0, outer) == Ok(Parsed(outer, 8));
    assert ParseLoop(toks, 0, 0, na) == Ok(Parsed(outer, 8));
  }

  /** In `a = b ? c : d`, the right side of `=` is the whole conditional `b ? c : d`. */
  lemma AssignedTernary(toks: seq<Token>)
    requires toks == [Tok(Identifier, "a", 1), Tok(Assign, "=", 2), Tok(Identifier, "b", 4), Tok(Quest, "?", 5),
                      Tok(Identifier, "c", 7), Tok(Colon, ":", 8), Tok(Identifier, "d", 10), Tok(EndOfStream, "", 10)]
    ensures ParseExpr(toks, 1, 0)
         == Ok(Parsed(Ast.TernaryNode(toks[3], Ast.IdentifierNode(toks[2]), Ast.IdentifierNode(toks[4]), Ast.IdentifierNode(toks[6])), 6))
  {
    var b, q, c, d := toks[2], toks[3], toks[4], toks[6];
    var nb, nc, nd := Ast.IdentifierNode(b), Ast.IdentifierNode(c), Ast.IdentifierNode(d);
    var ternary := Ast.TernaryNode(q, nb, nc, nd);
    assert ParseLoop(toks, 6, 0, nd) == Ok(Parsed(nd, 6));
    assert ParseExpr(toks, 5, 0) == Ok(Parsed(nd, 6));
    assert ParseLoop(toks, 4, 0, nc) == Ok(Parsed(nc, 4));
    assert ParseExpr(toks, 3, 0) == Ok(Parsed(nc, 4));
    assert ParseInfix(toks, 3, TernaryParse, nb, q) == Ok(Parsed(ternary, 6));
    assert ParseLoop(toks, 6, 0, ternary) == Ok(Parsed(ternary, 6));
    assert ParseLoop(toks, 2, 0, nb) == Ok(Parsed(ternary, 6));
  }

  /** `a = b ? c : d` is `a = (b ? c : d)`: the right side of `=` absorbs `?`. */
  lemma AssignmentTakesWholeTernary(toks: seq<Token>)
    requires toks == [Tok(Identifier, "a", 1), Tok(Assign, "=", 2), Tok(Identifier, "b", 4), Tok(Quest, "?", 5),
                      Tok(Identifier, "c", 7), Tok(Colon, ":", 8), Tok(Identifier, "d", 10), Tok(EndOfStream, "", 10)]
    ensures var a, eq, b, q, c, d := toks[0], toks[1], toks[2], toks[3], toks[4], toks[6];
      ParseExpr(toks, -1, 0)
        == Ok(Parsed(Ast.AssignmentNode(eq, Ast.IdentifierNode(a),
                       Ast.TernaryNode(q, Ast.IdentifierNode(b), Ast.IdentifierNode(c), Ast.IdentifierNode(d))), 6))
  {
    var a, eq, b, q, c, d := toks[0], toks[1], toks[2], toks[3], toks[4], toks[6];
    var na := Ast.IdentifierNode(a);
    var ternary := Ast.TernaryNode(q, Ast.IdentifierNode(b), Ast.IdentifierNode(c), Ast.IdentifierNode(d));
    var assignment := Ast.AssignmentNode(eq, na, ternary);
    AssignedTernary(toks);
    assert ParseInfix(toks, 1, AssignmentParse, na, eq) == Ok(Parsed(assignment, 6));
    assert ParseLoop(toks, 6, 0, assignment) == Ok(Parsed(assignment, 6));
    assert ParseLoop(toks, 0, 0, na) == Ok(Parsed(assignment, 6));
  }

  /** `a ? b` with no `:` fails at the token found where the colon should be. */
  lemma MissingColonIsReported(toks: seq<Token>)
    requires toks == [Tok(Identifier, "a", 1), Tok(Quest, "?", 2), Tok(Identifier, "b", 4), Tok(EndOfStream, "", 4)]
    ensures ParseExpr(toks, -1, 0) == Err(ExpectedKind(Colon, toks[3]))
  {
    var a, q, b, eos := toks[0], toks[1], toks[2], toks[3];
    assert ParseExpr(toks, 1, 0) == Ok(Parsed(Ast.IdentifierNode(b), 2));
    assert ParseInfix(toks, 1, TernaryParse, Ast.IdentifierNode(a), q) == Err(ExpectedKind(Colon, eos));
  }

  /** `1+` fails at `EndOfStream`, which has no prefix rule. */
  lemma MissingOperandIsReported(toks: seq<Token>)
    requires toks == [Tok(IntLiteral, "1", 1), Tok(Plus, "+", 2), Tok(EndOfStream, "", 2)]
    ensures ParseExpr(toks, -1, 0) == Err(ExpectedExpression(toks[2]))
  {
    var one, eos := toks[0], toks[2];
    assert ParseExpr(toks, 1, P.Sum) == Err(ExpectedExpression(eos));
    assert ParseLoop(toks, 0, 0, Ast.LiteralNode(one)) == Err(ExpectedExpression(eos));
  }
}
