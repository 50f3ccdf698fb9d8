/**
 * What the Pratt parser of HLang/Parser/ExprParser.cs computes, stated as functions
 * over the token list and the stream's cursor.
 *
 * The cursor is `TokenStream.currentId`: the index of the token read last, -1
 * before the first read.  `Next()` reads index `cursor + 1` and `Peek()` looks at
 * the same index without moving.  A read outside the list is the exception the
 * source's indexing throws, here `OutOfRange`.
 */
module ParserSpec {
  import opened Wrappers
  import opened Tokens
  import opened TokenStreams
  import Ast
  import P = Precedences

  /** The prefix parselets (`IPrefix` implementations). */
  datatype PrefixRule =
    | LiteralParse
    | IdentifierParse
    | PrefixParse(precedence: int)
    | ParenParse

  /** The infix parselets (`IInfix` implementations), with the precedence each was built with. */
  datatype InfixRule =
    | BinaryOperatorParse(precedence: int, rightAssociative: bool)
    | ComparisonParse
    | AssignmentParse
    | TernaryParse
    | BitwiseOperatorParse(precedence: int)
    | LogicalOperatorParse(precedence: int)
  {
    /** Each parselet's `GetPrecedence()`. */
    function GetPrecedence(): int {
      match this
      case BinaryOperatorParse(p, _) => p
      case ComparisonParse => P.Comparison
      case AssignmentParse => P.Assignment
      case TernaryParse => P.Conditional
      case BitwiseOperatorParse(p) => p
      case LogicalOperatorParse(p) => p
    }
  }

  /** What `ExprParser` throws: a `ParseError` at a token, or the exception of an out-of-range read. */
  datatype ParseError =
    | ExpectedExpression(found: Token)
    | ExpectedKind(expected: TokenType, found: Token)
    | OutOfRange(index: int)
    | NoInfixRule(found: Token)

  /** A parsed node and the cursor after it: the index of the last token it used. */
  datatype Parsed = Parsed(node: Ast.Node, cursor: int)

  /** The prefix table `RegisterParser` fills (`PrefixParse` built with the `Unary` level). */
  const PrefixTable: map<TokenType, PrefixRule> :=
    map[
      IntLiteral := LiteralParse, DoubleLiteral := LiteralParse,
      Identifier := IdentifierParse,
      Plus := PrefixParse(P.Unary), Minus := PrefixParse(P.Unary)
    ]

  /** The infix table `RegisterParser` fills. */
  const InfixTable: map<TokenType, InfixRule> :=
    map[
      Plus := BinaryOperatorParse(P.Sum, false), Minus := BinaryOperatorParse(P.Sum, false),
      Star := BinaryOperatorParse(P.Product, false), Slash := BinaryOperatorParse(P.Product, false),
      Div := BinaryOperatorParse(P.Product, false), Percent := BinaryOperatorParse(P.Product, false),
      Mod := BinaryOperatorParse(P.Product, false),
      DoubleStar := BinaryOperatorParse(P.Exponent, true),
      Quest := TernaryParse,
      Equal := ComparisonParse, NotEqual := ComparisonParse, Less := ComparisonParse,
      LessOrEqual := ComparisonParse, Greater := ComparisonParse, GreaterOrEqual := ComparisonParse,
      Assign := AssignmentParse
    ]

  /** The kinds with a prefix rule: literals, identifiers and the two signs. */
  predicate HasPrefixRule(kind: TokenType) {
    kind.IntLiteral? || kind.DoubleLiteral? || kind.Identifier? || kind.Plus? || kind.Minus?
  }

  /** The kinds with an infix rule: the arithmetic operators, `?`, the six comparisons and `=`. */
  predicate HasInfixRule(kind: TokenType) {
    kind.Plus? || kind.Minus? || kind.Star? || kind.Slash? || kind.Div? || kind.Percent? || kind.Mod?
    || kind.DoubleStar? || kind.Quest? || kind.Equal? || kind.NotEqual? || kind.Less? || kind.LessOrEqual?
    || kind.Greater? || kind.GreaterOrEqual? || kind.Assign?
  }

  /** The prefix rule for a token kind: what the prefix table holds for it, if anything. */
  function PrefixRuleOf(kind: TokenType): (r: Option<PrefixRule>)
    ensures r.Some? <==> HasPrefixRule(kind)
  {
    if kind.IntLiteral? || kind.DoubleLiteral? then Some(LiteralParse)
    else if kind.Identifier? then Some(IdentifierParse)
    else if kind.Plus? || kind.Minus? then Some(PrefixParse(P.Unary))
    else None
  }

  /** The infix rule for a token kind: what the infix table holds for it, if anything. */
  function InfixRuleOf(kind: TokenType): (r: Option<InfixRule>)
    ensures r.Some? <==> HasInfixRule(kind)
    ensures r.Some? ==> r.value.GetPrecedence() >= P.Assignment
  {
    if kind.Plus? || kind.Minus? then Some(BinaryOperatorParse(P.Sum, false))
    else if kind.Star? || kind.Slash? || kind.Div? || kind.Percent? || kind.Mod? then Some(BinaryOperatorParse(P.Product, false))
    else if kind.DoubleStar? then Some(BinaryOperatorParse(P.Exponent, true))
    else if kind.Quest? then Some(TernaryParse)
    else if kind.Equal? || kind.NotEqual? || kind.Less? || kind.LessOrEqual? || kind.Greater? || kind.GreaterOrEqual? then
      Some(ComparisonParse)
    else if kind.Assign? then Some(AssignmentParse)
    else None
  }

  /** The prefix table holds exactly the rules `PrefixRuleOf` gives. */
  lemma PrefixTableAgrees()
    ensures forall k :: k in PrefixTable <==> PrefixRuleOf(k).Some?
    ensures forall k :: k in PrefixTable ==> PrefixTable[k] == PrefixRuleOf(k).value
  {
  }

  /** The infix table holds exactly the rules `InfixRuleOf` gives. */
  lemma InfixTableAgrees()
    ensures forall k :: k in InfixTable <==> InfixRuleOf(k).Some?
    ensures forall k :: k in InfixTable ==> InfixTable[k] == InfixRuleOf(k).value
  {
  }

  /** `GetPrecedence()` of the engine: the infix precedence of a token kind, 0 when it has no infix rule. */
  function InfixPrecedence(kind: TokenType): int {
    match InfixRuleOf(kind)
    case Some(rule) => rule.GetPrecedence()
    case None => 0
  }

  /** `Consume(kind)`: reads the next token, which must be of the given kind; the result is the new cursor. */
  function ConsumeAt(toks: seq<Token>, cur: int, kind: TokenType): (r: Result<int, ParseError>)
    ensures r.Ok? <==> 0 <= cur + 1 < |toks| && toks[cur + 1].kind == kind
    ensures r.Ok? ==> r.value == cur + 1
    ensures r.Err? && 0 <= cur + 1 < |toks| ==> r.error == ExpectedKind(kind, toks[cur + 1])
    ensures r.Err? && !(0 <= cur + 1 < |toks|) ==> r.error == OutOfRange(cur + 1)
  {
    match At(toks, cur + 1)
    case None => Err(OutOfRange(cur + 1))
    case Some(token) => if token.kind != kind then Err(ExpectedKind(kind, token)) else Ok(cur + 1)
  }

  /**
   * `Parse(precedence)`: reads a token, applies its prefix rule, then the infix loop.
   * On success the parse has used at least one token, stopped before the end of the
   * list, and the token after it binds no tighter than `precedence`.
   */
  function ParseExpr(toks: seq<Token>, cur: int, precedence: int): (r: Result<Parsed, ParseError>)
    decreases |toks| - cur, 1
    ensures r.Ok? ==> cur < r.value.cursor && 0 <= r.value.cursor + 1 < |toks|
    ensures r.Ok? ==> InfixPrecedence(toks[r.value.cursor + 1].kind) <= precedence
  {
    match At(toks, cur + 1)
    case None => Err(OutOfRange(cur + 1))
    case Some(token) =>
      match PrefixRuleOf(token.kind)
      case None => Err(ExpectedExpression(token))
      case Some(rule) =>
        match ParsePrefix(toks, cur + 1, rule, token)
        case Err(e) => Err(e)
        case Ok(p) => ParseLoop(toks, p.cursor, precedence, p.node)
  }

  /**
   * The `while (precedence < GetPrecedence())` loop of `Parse`, with `left` the
   * expression built so far.  The token each iteration reads is the one whose
   * precedence it has just peeked.
   */
  function ParseLoop(toks: seq<Token>, cur: int, precedence: int, left: Ast.Node): (r: Result<Parsed, ParseError>)
    decreases |toks| - cur, 0
    ensures r.Ok? ==> cur <= r.value.cursor && 0 <= r.value.cursor + 1 < |toks|
    ensures r.Ok? ==> InfixPrecedence(toks[r.value.cursor + 1].kind) <= precedence
  {
    match At(toks, cur + 1)
    case None => Err(OutOfRange(cur + 1))
    case Some(token) =>
      if precedence < InfixPrecedence(token.kind) then
        match InfixRuleOf(token.kind)
        case None => Err(NoInfixRule(token))
        case Some(rule) =>
          match ParseInfix(toks, cur + 1, rule, left, token)
          case Err(e) => Err(e)
          case Ok(p) => ParseLoop(toks, p.cursor, precedence, p.node)
      else
        Ok(Parsed(left, cur))
  }

  /** The loop stops, with what it has built, before a token that binds no tighter than `precedence`. */
  lemma LoopStops(toks: seq<Token>, cur: int, precedence: int, left: Ast.Node)
    requires 0 <= cur + 1 < |toks| && InfixPrecedence(toks[cur + 1].kind) <= precedence
    ensures ParseLoop(toks, cur, precedence, left) == Ok(Parsed(left, cur))
  {
  }

  /** One iteration of the loop: the infix rule of the next token extends the expression built so far. */
  lemma LoopStep(toks: seq<Token>, cur: int, precedence: int, left: Ast.Node, rule: InfixRule, p: Parsed)
    requires 0 <= cur + 1 < |toks| && precedence < InfixPrecedence(toks[cur + 1].kind)
    requires InfixRuleOf(toks[cur + 1].kind) == Some(rule)
    requires ParseInfix(toks, cur + 1, rule, left, toks[cur + 1]) == Ok(p)
    ensures ParseLoop(toks, cur, precedence, left) == ParseLoop(toks, p.cursor, precedence, p.node)
  {
  }

  /** After a successful prefix parse, `Parse` is the loop from where the prefix parselet stopped. */
  lemma ExprStart(toks: seq<Token>, cur: int, precedence: int, rule: PrefixRule, p: Parsed)
    requires 0 <= cur + 1 < |toks| && PrefixRuleOf(toks[cur + 1].kind) == Some(rule)
    requires ParsePrefix(toks, cur + 1, rule, toks[cur + 1]) == Ok(p)
    ensures ParseExpr(toks, cur, precedence) == ParseLoop(toks, p.cursor, precedence, p.node)
  {
  }

  /** An iteration whose infix parselet fails ends the loop with that parselet's error. */
  lemma LoopFails(toks: seq<Token>, cur: int, precedence: int, left: Ast.Node, rule: InfixRule, e: ParseError)
    requires 0 <= cur + 1 < |toks| && precedence < InfixPrecedence(toks[cur + 1].kind)
    requires InfixRuleOf(toks[cur + 1].kind) == Some(rule)
    requires ParseInfix(toks, cur + 1, rule, left, toks[cur + 1]) == Err(e)
    ensures ParseLoop(toks, cur, precedence, left) == Err(e)
  {
  }

  /** A prefix parselet's `Parse(parser, token)`, where `token` was read at `cur`. */
  function ParsePrefix(toks: seq<Token>, cur: int, rule: PrefixRule, token: Token): (r: Result<Parsed, ParseError>)
    requires 0 <= cur < |toks|
    decreases |toks| - cur, 2
    ensures r.Ok? ==> cur <= r.value.cursor < |toks|
    ensures rule.LiteralParse? ==> r == Ok(Parsed(Ast.LiteralNode(token), cur))
    ensures rule.IdentifierParse? ==> r == Ok(Parsed(Ast.IdentifierNode(token), cur))
    ensures rule.PrefixParse? && r.Ok? ==> r.value.node.PrefixOperatorNode? && r.value.node.token == token
  {
    match rule
    case LiteralParse => Ok(Parsed(Ast.LiteralNode(token), cur))
    case IdentifierParse => Ok(Parsed(Ast.IdentifierNode(token), cur))
    case PrefixParse(prec) =>
      (match ParseExpr(toks, cur, prec)
       case Err(e) => Err(e)
       case Ok(operand) => Ok(Parsed(Ast.PrefixOperatorNode(token, operand.node), operand.cursor)))
    case ParenParse =>
      match ParseExpr(toks, cur, 0)
      case Err(e) => Err(e)
      case Ok(inner) =>
        match ConsumeAt(toks, inner.cursor, RightParen)
        case Err(e) => Err(e)
        case Ok(after) => Ok(Parsed(inner.node, after))
  }

  /**
   * The precedence an infix parselet parses its right operand at, so the level the
   * whole parselet stops before: one below its own for a right-associative operator
   * and for `=`, its own for the others, and 0 for the false branch of `?:`.
   */
  function RightLevel(rule: InfixRule): int {
    match rule
    case BinaryOperatorParse(p, rightAssociative) => if rightAssociative then p - 1 else p
    case ComparisonParse => P.Comparison
    case AssignmentParse => P.Assignment - 1
    case TernaryParse => 0
    case BitwiseOperatorParse(p) => p
    case LogicalOperatorParse(p) => p
  }

  /** The node an infix parselet builds: its kind's node on the operator token, with `left` as first operand. */
  predicate Builds(rule: InfixRule, token: Token, left: Ast.Node, node: Ast.Node) {
    match rule
    case BinaryOperatorParse(_, _) => node.BinaryOperatorNode? && node.token == token && node.left == left
    case ComparisonParse => node.ComparisonNode? && node.token == token && node.left == left
    case AssignmentParse => node.AssignmentNode? && node.token == token && node.left == left
    case TernaryParse => node.TernaryNode? && node.token == token && node.testExpr == left
    case BitwiseOperatorParse(_) => node.BitwiseOperatorNode? && node.token == token && node.left == left
    case LogicalOperatorParse(_) => node.LogicalOperatorNode? && node.token == token && node.left == left
  }

  /** An infix parselet's `Parse(parser, left, token)`, where `token` was read at `cur`. */
  function ParseInfix(toks: seq<Token>, cur: int, rule: InfixRule, left: Ast.Node, token: Token): (r: Result<Parsed, ParseError>)
    requires 0 <= cur < |toks|
    decreases |toks| - cur, 3
    ensures r.Ok? ==> cur < r.value.cursor < |toks|
    ensures r.Ok? ==> Builds(rule, token, left, r.value.node)
    ensures r.Ok? ==> r.value.cursor + 1 < |toks| && InfixPrecedence(toks[r.value.cursor + 1].kind) <= RightLevel(rule)
  {
    match rule
    case BinaryOperatorParse(prec, rightAssociative) =>
      (match ParseExpr(toks, cur, prec - (if rightAssociative then 1 else 0))
       case Err(e) => Err(e)
       case Ok(right) => Ok(Parsed(Ast.BinaryOperatorNode(token, left, right.node), right.cursor)))
    case ComparisonParse =>
      (match ParseExpr(toks, cur, rule.GetPrecedence())
       case Err(e) => Err(e)
       case Ok(right) => Ok(Parsed(Ast.ComparisonNode(token, left, right.node), right.cursor)))
    case AssignmentParse =>
      (match ParseExpr(toks, cur, rule.GetPrecedence() - 1)
       case Err(e) => Err(e)
       case Ok(right) => Ok(Parsed(Ast.AssignmentNode(token, left, right.node), right.cursor)))
    case BitwiseOperatorParse(_) =>
      (match ParseExpr(toks, cur, rule.GetPrecedence())
       case Err(e) => Err(e)
       case Ok(right) => Ok(Parsed(Ast.BitwiseOperatorNode(token, left, right.node), right.cursor)))
    case LogicalOperatorParse(_) =>
      (match ParseExpr(toks, cur, rule.GetPrecedence())
       case Err(e) => Err(e)
       case Ok(right) => Ok(Parsed(Ast.LogicalOperatorNode(token, left, right.node), right.cursor)))
    case TernaryParse => ParseConditional(toks, cur, left, token)
  }

  /** `TernaryParse.Parse`: the true branch at level 0, a `:`, then the false branch at level 0. */
  function ParseConditional(toks: seq<Token>, cur: int, left: Ast.Node, token: Token): (r: Result<Parsed, ParseError>)
    requires 0 <= cur < |toks|
    decreases |toks| - cur, 2
    ensures r.Ok? ==> cur < r.value.cursor && r.value.cursor + 1 < |toks|
    ensures r.Ok? ==> r.value.node.TernaryNode? && r.value.node.token == token && r.value.node.testExpr == left
    ensures r.Ok? ==> InfixPrecedence(toks[r.value.cursor + 1].kind) <= 0
  {
    match ParseExpr(toks, cur, 0)
    case Err(e) => Err(e)
    case Ok(truePart) =>
      match ConsumeAt(toks, truePart.cursor, Colon)
      case Err(e) => Err(e)
      case Ok(afterColon) =>
        match ParseExpr(toks, afterColon, 0)
        case Err(e) => Err(e)
        case Ok(falsePart) =>
          Ok(Parsed(Ast.TernaryNode(token, left, truePart.node, falsePart.node), falsePart.cursor))
  }
}
