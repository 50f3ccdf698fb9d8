/**
 * The parser object of HLang/Parser/ExprParser.cs: two rule tables filled once by
 * `RegisterParser`, and the Pratt loop `Parse`, which advances the shared token
 * stream's cursor.  Each method is proved to compute what the functions of
 * `ParserSpec` describe, starting from the cursor it was called at.
 *
 * The parselet classes' `Parse` methods become `ApplyPrefix` and `ApplyInfix`,
 * which dispatch on the rule; a thrown `ParseError` or indexing exception becomes
 * an `Err` result that every caller passes on unchanged.
 */
module Parsing {
  import opened Wrappers
  import opened Tokens
  import opened TokenStreams
  import opened ParserSpec
  import Ast
  import P = Precedences

  /** A method's result paired with the cursor it left, in the form the spec functions return. */
  function WithCursor(r: Result<Ast.Node, ParseError>, cursor: int): Result<Parsed, ParseError> {
    match r
    case Ok(node) => Ok(Parsed(node, cursor))
    case Err(e) => Err(e)
  }

  class ExprParser {
    const tokenStream: TokenStream
    var infixMap: map<TokenType, InfixRule>
    var prefixMap: map<TokenType, PrefixRule>

    /** The tables hold, kind by kind, the rules `RegisterParser` puts in them. */
    predicate Registered()
      reads this
    {
      && (forall k {:trigger k in prefixMap} :: k in prefixMap <==> PrefixRuleOf(k).Some?)
      && (forall k {:trigger prefixMap[k]} :: k in prefixMap ==> prefixMap[k] == PrefixRuleOf(k).value)
      && (forall k {:trigger k in infixMap} :: k in infixMap <==> InfixRuleOf(k).Some?)
      && (forall k {:trigger infixMap[k]} :: k in infixMap ==> infixMap[k] == InfixRuleOf(k).value)
    }

    /** A parser over the given stream, with both tables registered. */
    constructor(tokenStream: TokenStream)
      ensures this.tokenStream == tokenStream
      ensures prefixMap == PrefixTable && infixMap == InfixTable && Registered()
    {
      this.tokenStream := tokenStream;
      infixMap := map[];
      prefixMap := map[];
      new;
      RegisterParser();
    }

    /** Fills the two empty tables, one `Register` call per token kind, in the source's order. */
    method RegisterParser()
      requires infixMap == map[] && prefixMap == map[]
      modifies this`infixMap, this`prefixMap
      ensures prefixMap == PrefixTable && infixMap == InfixTable && Registered()
    {
      RegisterPrefixRule(IntLiteral, LiteralParse);
      RegisterPrefixRule(DoubleLiteral, LiteralParse);
      RegisterPrefixRule(Identifier, IdentifierParse);
      RegisterPrefix(Plus);
      RegisterPrefix(Minus);

      RegisterBinaryOperator(Plus, P.Sum);
      RegisterBinaryOperator(Minus, P.Sum);

      RegisterBinaryOperator(Star, P.Product);
      RegisterBinaryOperator(Slash, P.Product);
      RegisterBinaryOperator(Div, P.Product);
      RegisterBinaryOperator(Percent, P.Product);
      RegisterBinaryOperator(Mod, P.Product);

      RegisterBinaryOperatorR(DoubleStar, P.Exponent);

      RegisterInfix(Quest, TernaryParse);

      RegisterComparison(Equal);
      RegisterComparison(NotEqual);
      RegisterComparison(Less);
      RegisterComparison(LessOrEqual);
      RegisterComparison(Greater);
      RegisterComparison(GreaterOrEqual);

      RegisterInfix(Assign, AssignmentParse);
      PrefixTableAgrees();
      InfixTableAgrees();
    }

    /** `Register(type, IInfix)`: sets or replaces the infix rule of one kind. */
    method RegisterInfix(kind: TokenType, infix: InfixRule)
      modifies this`infixMap
      ensures infixMap == old(infixMap)[kind := infix]
    {
      infixMap := infixMap[kind := infix];
    }

    /** `Register(type, IPrefix)`: sets or replaces the prefix rule of one kind. */
    method RegisterPrefixRule(kind: TokenType, prefix: PrefixRule)
      modifies this`prefixMap
      ensures prefixMap == old(prefixMap)[kind := prefix]
    {
      prefixMap := prefixMap[kind := prefix];
    }

    /** `RegisterPrefix`: a sign, whose operand is parsed at the `Unary` level. */
    method RegisterPrefix(kind: TokenType)
      modifies this`prefixMap
      ensures prefixMap == old(prefixMap)[kind := PrefixParse(P.Unary)]
    {
      RegisterPrefixRule(kind, PrefixParse(P.Unary));
    }

    /** `RegisterBinaryOperator`: a left-associative binary operator at the given level. */
    method RegisterBinaryOperator(kind: TokenType, precedence: int)
      modifies this`infixMap
      ensures infixMap == old(infixMap)[kind := BinaryOperatorParse(precedence, false)]
    {
      RegisterInfix(kind, BinaryOperatorParse(precedence, false));
    }

    /** `RegisterComparison`: one of the comparisons, which share a single rule. */
    method RegisterComparison(kind: TokenType)
      modifies this`infixMap
      ensures infixMap == old(infixMap)[kind := ComparisonParse]
    {
      RegisterInfix(kind, ComparisonParse);
    }

    /** `RegisterBinaryOperatorR`: a right-associative binary operator at the given level. */
    method RegisterBinaryOperatorR(kind: TokenType, precedence: int)
      modifies this`infixMap
      ensures infixMap == old(infixMap)[kind := BinaryOperatorParse(precedence, true)]
    {
      RegisterInfix(kind, BinaryOperatorParse(precedence, true));
    }

    /**
     * `GetPrecedence()`: the infix precedence of the token `Peek()` shows, 0 when it
     * has no infix rule; `Peek()` past the end throws.
     */
    method GetPrecedence() returns (r: Result<int, ParseError>)
      requires Registered()
      ensures r.Ok? <==> tokenStream.Peek(1).Some?
      ensures r.Ok? ==> r.value == InfixPrecedence(tokenStream.Peek(1).value.kind)
      ensures r.Err? ==> r.error == OutOfRange(tokenStream.currentId + 1)
    {
      var next := tokenStream.Peek(1);
      if next.None? {
        return Err(OutOfRange(tokenStream.currentId + 1));
      }
      var kind := next.value.kind;
      return Ok(if kind in infixMap then infixMap[kind].GetPrecedence() else 0);
    }

    /** `Consume(kind)`: reads one token and fails at it unless it is of the given kind. */
    method Consume(kind: TokenType) returns (r: Result<(), ParseError>)
      modifies tokenStream`currentId
      ensures tokenStream.currentId == old(tokenStream.currentId) + 1
      ensures r.Ok? <==> ConsumeAt(tokenStream.stream, old(tokenStream.currentId), kind).Ok?
      ensures r.Err? ==> ConsumeAt(tokenStream.stream, old(tokenStream.currentId), kind) == Err(r.error)
    {
      var next := tokenStream.Next();
      if next.None? {
        return Err(OutOfRange(tokenStream.currentId));
      }
      if next.value.kind != kind {
        return Err(ExpectedKind(kind, next.value));
      }
      return Ok(());
    }

    /**
     * `Parse(precedence)`: the prefix rule of the token it reads, then infix rules
     * while the upcoming token binds tighter than `precedence`.
     */
    method Parse(precedence: int) returns (r: Result<Ast.Node, ParseError>)
      requires Registered()
      modifies tokenStream`currentId
      decreases |tokenStream.stream| - tokenStream.currentId, 1
      ensures WithCursor(r, tokenStream.currentId) == ParseExpr(tokenStream.stream, old(tokenStream.currentId), precedence)
    {
      ghost var toks, start := tokenStream.stream, tokenStream.currentId;
      ghost var spec := ParseExpr(toks, start, precedence);
      var next := tokenStream.Next();
      if next.None? {
        assert spec == Err(OutOfRange(start + 1));
        return Err(OutOfRange(tokenStream.currentId));
      }
      var token := next.value;
      if token.kind !in prefixMap {
        assert spec == Err(ExpectedExpression(token));
        return Err(ExpectedExpression(token));
      }
      var rule := prefixMap[token.kind];
      assert token == toks[start + 1] && PrefixRuleOf(token.kind) == Some(rule);
      var prefixed := ApplyPrefix(rule, token);
      if prefixed.Err? {
        assert spec == Err(prefixed.error);
        return Err(prefixed.error);
      }
      var expr := prefixed.value;
      ExprStart(toks, start, precedence, rule, Parsed(expr, tokenStream.currentId));
      r := ParseInfixes(precedence, expr);
    }

    /**
     * The `while (precedence < GetPrecedence())` loop of `Parse`, with `left` the
     * expression the prefix rule built.
     */
    method ParseInfixes(precedence: int, left: Ast.Node) returns (r: Result<Ast.Node, ParseError>)
      requires Registered()
      requires 0 <= tokenStream.currentId < |tokenStream.stream|
      modifies tokenStream`currentId
      decreases |tokenStream.stream| - tokenStream.currentId, 1
      ensures WithCursor(r, tokenStream.currentId) == ParseLoop(tokenStream.stream, old(tokenStream.currentId), precedence, left)
    {
      ghost var toks, start := tokenStream.stream, tokenStream.currentId;
      ghost var spec := ParseLoop(toks, start, precedence, left);
      var expr := left;
      var upcoming := GetPrecedence();
      while upcoming.Ok? && precedence < upcoming.value
        invariant tokenStream.stream == toks
        invariant start <= tokenStream.currentId < |toks|
        invariant ParseLoop(toks, tokenStream.currentId, precedence, expr) == spec
        invariant upcoming.Ok? <==> tokenStream.currentId + 1 < |toks|
        invariant upcoming.Ok? ==> upcoming.value == InfixPrecedence(toks[tokenStream.currentId + 1].kind)
        invariant upcoming.Err? ==> upcoming.error == OutOfRange(tokenStream.currentId + 1)
        decreases |toks| - tokenStream.currentId
      {
        var infixed := ParseUpcomingInfix(precedence, expr);
        if infixed.Err? {
          return Err(infixed.error);
        }
        expr := infixed.value;
        upcoming := GetPrecedence();
      }
      if upcoming.Err? {
        return Err(upcoming.error);
      }
      LoopStops(toks, tokenStream.currentId, precedence, expr);
      return Ok(expr);
    }

    /**
     * The body of `Parse`'s loop, entered when the upcoming token binds tighter than
     * `precedence`: reads that token and applies its infix rule to `left`.  The loop
     * then goes on from where the rule stopped, or ends with the error of this round.
     */
    method ParseUpcomingInfix(precedence: int, left: Ast.Node) returns (r: Result<Ast.Node, ParseError>)
      requires Registered()
      requires 0 <= tokenStream.currentId && tokenStream.currentId + 1 < |tokenStream.stream|
      requires precedence < InfixPrecedence(tokenStream.stream[tokenStream.currentId + 1].kind)
      modifies tokenStream`currentId
      decreases |tokenStream.stream| - tokenStream.currentId, 0
      ensures var loop := ParseLoop(tokenStream.stream, old(tokenStream.currentId), precedence, left);
        match r
        case Err(e) => loop == Err(e)
        case Ok(expr) =>
          old(tokenStream.currentId) < tokenStream.currentId < |tokenStream.stream|
          && loop == ParseLoop(tokenStream.stream, tokenStream.currentId, precedence, expr)
    {
      ghost var toks, before := tokenStream.stream, tokenStream.currentId;
      var next := tokenStream.Next();
      var token := next.value;
      if token.kind !in infixMap {
        return Err(NoInfixRule(token));
      }
      var rule := infixMap[token.kind];
      assert token == toks[before + 1] && InfixRuleOf(token.kind) == Some(rule);
      var infixed := ApplyInfix(rule, left, token);
      if infixed.Err? {
        LoopFails(toks, before, precedence, left, rule, infixed.error);
        return Err(infixed.error);
      }
      LoopStep(toks, before, precedence, left, rule, Parsed(infixed.value, tokenStream.currentId));
      return Ok(infixed.value);
    }

    /** A prefix parselet's `Parse(this, token)`, with `token` the one just read: the call dispatched on the rule. */
    method ApplyPrefix(rule: PrefixRule, token: Token) returns (r: Result<Ast.Node, ParseError>)
      requires Registered()
      requires 0 <= tokenStream.currentId < |tokenStream.stream|
      modifies tokenStream`currentId
      decreases |tokenStream.stream| - tokenStream.currentId, 3
      ensures WithCursor(r, tokenStream.currentId) == ParsePrefix(tokenStream.stream, old(tokenStream.currentId), rule, token)
    {
      match rule
      case LiteralParse =>
        r := Ok(Ast.LiteralNode(token));
      case IdentifierParse =>
        r := Ok(Ast.IdentifierNode(token));
      case PrefixParse(prec) =>
        r := ParsePrefixOperator(prec, token);
      case ParenParse =>
        r := ParseParen(token);
    }

    /** `PrefixParse.Parse`: the operand at the parselet's level, under a prefix node. */
    method ParsePrefixOperator(precedence: int, token: Token) returns (r: Result<Ast.Node, ParseError>)
      requires Registered()
      requires 0 <= tokenStream.currentId < |tokenStream.stream|
      modifies tokenStream`currentId
      decreases |tokenStream.stream| - tokenStream.currentId, 2
      ensures WithCursor(r, tokenStream.currentId) == ParsePrefix(tokenStream.stream, old(tokenStream.currentId), PrefixParse(precedence), token)
    {
      var operand := Parse(precedence);
      if operand.Err? {
        return Err(operand.error);
      }
      r := Ok(Ast.PrefixOperatorNode(token, operand.value));
    }

    /** `ParenParse.Parse`: an expression at level 0, then a `)`. */
    method ParseParen(token: Token) returns (r: Result<Ast.Node, ParseError>)
      requires Registered()
      requires 0 <= tokenStream.currentId < |tokenStream.stream|
      modifies tokenStream`currentId
      decreases |tokenStream.stream| - tokenStream.currentId, 2
      ensures WithCursor(r, tokenStream.currentId) == ParsePrefix(tokenStream.stream, old(tokenStream.currentId), ParenParse, token)
    {
      var expr := Parse(0);
      if expr.Err? {
        return Err(expr.error);
      }
      var consumed := Consume(RightParen);
      if consumed.Err? {
        return Err(consumed.error);
      }
      r := expr;
    }

    /** An infix parselet's `Parse(this, left, token)`, with `token` the one just read: the call dispatched on the rule. */
    method ApplyInfix(rule: InfixRule, left: Ast.Node, token: Token) returns (r: Result<Ast.Node, ParseError>)
      requires Registered()
      requires 0 <= tokenStream.currentId < |tokenStream.stream|
      modifies tokenStream`currentId
      decreases |tokenStream.stream| - tokenStream.currentId, 3
      ensures WithCursor(r, tokenStream.currentId) == ParseInfix(tokenStream.stream, old(tokenStream.currentId), rule, left, token)
    {
      match rule
      case BinaryOperatorParse(prec, rightAssociative) =>
        r := ParseBinaryOperator(prec, rightAssociative, left, token);
      case ComparisonParse =>
        r := ParseComparison(left, token);
      case AssignmentParse =>
        r := ParseAssignment(left, token);
      case BitwiseOperatorParse(prec) =>
        r := ParseBitwiseOperator(prec, left, token);
      case LogicalOperatorParse(prec) =>
        r := ParseLogicalOperator(prec, left, token);
      case TernaryParse =>
        r := ParseTernary(left, token);
    }

    /** `BinaryOperatorParse.Parse`: the right operand one level lower when right-associative. */
    method ParseBinaryOperator(precedence: int, rightAssociative: bool, left: Ast.Node, token: Token)
      returns (r: Result<Ast.Node, ParseError>)
      requires Registered()
      requires 0 <= tokenStream.currentId < |tokenStream.stream|
      modifies tokenStream`currentId
      decreases |tokenStream.stream| - tokenStream.currentId, 2
      ensures WithCursor(r, tokenStream.currentId)
           == ParseInfix(tokenStream.stream, old(tokenStream.currentId), BinaryOperatorParse(precedence, rightAssociative), left, token)
    {
      var right := Parse(precedence - (if rightAssociative then 1 else 0));
      if right.Err? {
        return Err(right.error);
      }
      r := Ok(Ast.BinaryOperatorNode(token, left, right.value));
    }

    /** `ComparisonParse.Parse`: the right operand at the `Comparison` level. */
    method ParseComparison(left: Ast.Node, token: Token) returns (r: Result<Ast.Node, ParseError>)
      requires Registered()
      requires 0 <= tokenStream.currentId < |tokenStream.stream|
      modifies tokenStream`currentId
      decreases |tokenStream.stream| - tokenStream.currentId, 2
      ensures WithCursor(r, tokenStream.currentId) == ParseInfix(tokenStream.stream, old(tokenStream.currentId), ComparisonParse, left, token)
    {
      var right := Parse(ComparisonParse.GetPrecedence());
      if right.Err? {
        return Err(right.error);
      }
      r := Ok(Ast.ComparisonNode(token, left, right.value));
    }

    /** `AssignmentParse.Parse`: the right operand one level below `Assignment`, so `=` nests to the right. */
    method ParseAssignment(left: Ast.Node, token: Token) returns (r: Result<Ast.Node, ParseError>)
      requires Registered()
      requires 0 <= tokenStream.currentId < |tokenStream.stream|
      modifies tokenStream`currentId
      decreases |tokenStream.stream| - tokenStream.currentId, 2
      ensures WithCursor(r, tokenStream.currentId) == ParseInfix(tokenStream.stream, old(tokenStream.currentId), AssignmentParse, left, token)
    {
      var right := Parse(AssignmentParse.GetPrecedence() - 1);
      if right.Err? {
        return Err(right.error);
      }
      r := Ok(Ast.AssignmentNode(token, left, right.value));
    }

    /** `BitwiseOperatorParse.Parse`: the right operand at the parselet's level. */
    method ParseBitwiseOperator(precedence: int, left: Ast.Node, token: Token) returns (r: Result<Ast.Node, ParseError>)
      requires Registered()
      requires 0 <= tokenStream.currentId < |tokenStream.stream|
      modifies tokenStream`currentId
      decreases |tokenStream.stream| - tokenStream.currentId, 2
      ensures WithCursor(r, tokenStream.currentId)
           == ParseInfix(tokenStream.stream, old(tokenStream.currentId), BitwiseOperatorParse(precedence), left, token)
    {
      var right := Parse(precedence);
      if right.Err? {
        return Err(right.error);
      }
      r := Ok(Ast.BitwiseOperatorNode(token, left, right.value));
    }

    /** `LogicalOperatorParse.Parse`: the right operand at the parselet's level. */
    method ParseLogicalOperator(precedence: int, left: Ast.Node, token: Token) returns (r: Result<Ast.Node, ParseError>)
      requires Registered()
      requires 0 <= tokenStream.currentId < |tokenStream.stream|
      modifies tokenStream`currentId
      decreases |tokenStream.stream| - tokenStream.currentId, 2
      ensures WithCursor(r, tokenStream.currentId)
           == ParseInfix(tokenStream.stream, old(tokenStream.currentId), LogicalOperatorParse(precedence), left, token)
    {
      var right := Parse(precedence);
      if right.Err? {
        return Err(right.error);
      }
      r := Ok(Ast.LogicalOperatorNode(token, left, right.value));
    }

    /** `TernaryParse.Parse`: the true part, a `:`, then the false part, both at level 0. */
    method ParseTernary(left: Ast.Node, token: Token) returns (r: Result<Ast.Node, ParseError>)
      requires Registered()
      requires 0 <= tokenStream.currentId < |tokenStream.stream|
      modifies tokenStream`currentId
      decreases |tokenStream.stream| - tokenStream.currentId, 2
      ensures WithCursor(r, tokenStream.currentId) == ParseInfix(tokenStream.stream, old(tokenStream.currentId), TernaryParse, left, token)
    {
      var truePart := Parse(0);
      if truePart.Err? {
        return Err(truePart.error);
      }
      var consumed := Consume(Colon);
      if consumed.Err? {
        return Err(consumed.error);
      }
      var falsePart := Parse(0);
      if falsePart.Err? {
        return Err(falsePart.error);
      }
      r := Ok(Ast.TernaryNode(token, left, truePart.value, falsePart.value));
    }
  }
}
