/** Tokens produced by the lexer (HLang/Token/Token.cs). */
module Tokens {

  /** The closed set of token kinds, in declaration order; `EndOfStream` is the first (default) one. */
  datatype TokenType =
    | EndOfStream
    | IntLiteral | DoubleLiteral | StringLiteral | CharLiteral | BoolLiteral
    | HexLiteral | OctLiteral | BinLiteral
    | Identifier
    | Plus | Minus | Star | Slash | Div | Percent | Mod | DoubleStar
    | Equal | NotEqual | Less | LessOrEqual | Greater | GreaterOrEqual
    | And | Or | Not
    | LeftParen | RightParen
    | Assign
    | Quest | Colon
    | LeftShift | RightShift | BitwiseAnd | BitwiseOr | BitwiseXor | BitwiseNot
    | Indent | Dedent

  /** An immutable token: kind, lexeme, line and column, stored exactly as constructed. */
  datatype Token = Token(kind: TokenType, value: string, line: int, column: int)

  predicate IsLiteralKind(k: TokenType) {
    k in {IntLiteral, DoubleLiteral, StringLiteral, CharLiteral, BoolLiteral, HexLiteral, OctLiteral, BinLiteral}
  }

  predicate IsOperatorKind(k: TokenType) {
    k in {Plus, Minus, Star, Slash, Div, Percent, Mod, DoubleStar,
          Equal, NotEqual, Less, LessOrEqual, Greater, GreaterOrEqual,
          And, Or, Not, LeftParen, RightParen, Assign, Quest, Colon,
          LeftShift, RightShift, BitwiseAnd, BitwiseOr, BitwiseXor, BitwiseNot}
  }

  predicate IsStructuralKind(k: TokenType) { k == Indent || k == Dedent }

  /**
   * The `Indent`/`Dedent` tokens the lexer builds with a one-argument constructor
   * that Token.cs does not declare; the model gives them an empty lexeme and the
   * default position (0, 0).
   */
  function StructuralToken(kind: TokenType): (t: Token)
    requires IsStructuralKind(kind)
    ensures t.kind == kind && t.value == [] && IsStructuralKind(t.kind)
    ensures !IsLiteralKind(t.kind) && !IsOperatorKind(t.kind) && t.kind != Identifier && t.kind != EndOfStream
  {
    Token(kind, "", 0, 0)
  }
}
