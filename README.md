# HLang front end and evaluator in Dafny

HLang is a small expression language. Its pipeline has four layers, and this
project models each in Dafny and proves properties of it:

- **Lexer.** A character lexer with a pushback queue and line/column tracking.
  It scans identifiers, the keywords `mod` and `div`, decimal, base-prefixed and
  real numbers, strings, and one- or two-character operators. Each newline adds
  one `Indent` or `Dedent`, and the end of input adds the closing `Dedent`s and
  one `EndOfStream`. Character classes live in `CharHelper`.
- **Token stream.** A token list with an integer cursor.
- **Parser.** A Pratt parser: a prefix-rule table and an infix-rule table keyed
  by token kind, the parselets that build nodes, and the precedence levels.
- **Evaluator.** An AST interpreter over the closed set of node kinds. Its one
  symbol table is written only by assignment.

The model follows the source's own form, file by file.

- **Pure layers.** Character classes, tokens, precedences, AST nodes and
  parselets are datatypes and functions (`char_helper.dfy`, `tokens.dfy`,
  `precedence.dfy`, `ast.dfy`, `parser_spec.dfy`, `evaluation.dfy`,
  `int64.dfy`).
- **Stateful classes.** Each is a Dafny class whose methods are proved against
  the pure specification:
  - `Lexer` (`lexer.dfy`) keeps the remaining input, the pushback queue,
    `Line`, `Column` and its `TokenStream`. Every loop of the source is a
    `while` loop whose invariants tie it to `LexerSpec`. `Start` is proved to
    append exactly the tokens `LexerSpec.LexFrom` yields.
  - `TokenStream` (`token_stream.dfy`) keeps the list and the cursor.
  - `ExprParser` (`expr_parser.dfy`) keeps the two rule maps. `Parse` runs the
    source's `while` loop over the shared cursor and is proved equal to
    `ParserSpec.ParseExpr`.
  - `AstInterpreter` (`interpreter.dfy`) keeps the symbol table. `Visit` is
    proved equal to `Evaluation.Evaluate`.
- **Properties.** Lemmas about the specifications are in `lexer_props.dfy`,
  `parser_props.dfy` and `evaluation_props.dfy`.

## Modelling choices

Where the source files do not fit together, the model makes these choices:

- `ExprParser` registers operators at `Precedence.Sum` and `Precedence.Product`,
  which the enum does not declare. The model takes them as `Additive` (11) and
  `Multiplicative` (12).
- `ComparisonParse` uses `Precedence.Comparison`, which the enum does not
  declare either. The model takes it as `Relational` (9): below `Additive` and
  above `Conditional`.
- `RegisterPrefix` builds `new PrefixParse()` with no precedence. The model
  takes the precedence as `Unary` (13).
- The lexer builds `Indent` and `Dedent` with a one-argument `Token`
  constructor that `Token` does not declare. The model gives them an empty
  lexeme at line 0, column 0.
- `_indentStyle` is never assigned, so it keeps its default, `Space`. Every
  newline followed by a tab is therefore an inconsistent-indentation error.

The lexer's tests disagree with the code in some places. The model follows the
code:

- `EndOfStream` is placed where the input ended: at line 0, column 3 for
  `1+1`, where the tests expect 0 0.
- `1.0+2.0*3.0` is one real literal `1.0+2.0`, which `double.TryParse` then
  judges. The real scanner takes a sign whenever the previous character taken
  was not one.
- `1^2`, and any input with a character that starts no token, makes the source
  loop forever. `Start` reads the character, pushes it back and restores the
  column. The model stops there with the status `Diverged` and keeps the tokens
  produced so far.

Other modelling choices:

- **Input.** Input is a `seq<char>`. Reading past the end gives the sentinel
  `CharHelper.EofChar`, which no character class accepts.
- **Character classes.** `char.IsLetter`, `char.IsDigit` and
  `char.IsWhiteSpace` are their ASCII subsets.
- **`double.TryParse`.** The lexer's use of it is the parameter
  `parsesAsDouble: string -> bool`.
- **Errors.** A `SyntaxError` from the lexer and a `ParseError` from the parser
  are returned as values rather than thrown. A `Console.Error` line for the
  lexer's error is not modelled. The interpreter's exceptions are the
  `EvalError` values:
  - `FormatException` is `FormatError`;
  - `OverflowException` is `Overflow`;
  - `DivideByZeroException` is `DivideByZero`;
  - the `dynamic` binder's failure is `BinderError`. This includes a `(long)`
    cast of a `dynamic` value that is not a boxed `long`.
- **Reads past the end of the token list.** The token stream clamps its index
  to `Count`, so reading past the end throws. That read returns
  `None` / `OutOfRange`.
- **`long` arithmetic.** It is unbounded arithmetic followed by `Int64.Wrap`,
  which is unchecked two's-complement wrap-around. Division and remainder
  truncate toward zero (`Int64.TruncDiv`, `Int64.TruncRem`). `&`, `|`, `^` act
  on the 64-bit pattern. `~x` is `-x - 1`.
- **`double` values.** A `double` is a symbolic term (`Evaluation.FloatTerm`).
  A `FloatOracle` record supplies:
  - which texts parse as doubles;
  - truncation to `long`;
  - comparisons;
  - the test for zero;
  - the text form.

  A `long` is converted to `double` by `Int64.ToDouble`, which rounds to the
  nearest representable value with ties to even. That conversion is what
  `<=` uses.

## Model

| member | source | states |
|---|---|---|
| CharHelper.ToLower | HLang/Helper/CharHelper.cs:7 | lower-cases exactly the ASCII capitals (code + 32) and leaves every other character as it is |
| CharHelper.CharClassesExact | HLang/Helper/CharHelper.cs:7-13 | each class accepts exactly its listed characters: `IsBin` "01", `IsOctal` "0".."7", `IsHex` digits and a-f in either case, `IsBasePrefix` "xXoObB", `IsNumberLiteral` digits and `_`, `IsUniqueRealLiteral` ".eE" |
| CharHelper.CharClassesNest | HLang/Helper/CharHelper.cs:7-13 | `IsBin` implies `IsOctal`, `IsOctal` implies `IsHex`, `IsNumberLiteral` implies `IsIdentifier`, and `IsUniqueRealLiteral` and `IsNumberLiteral` are disjoint |
| CharHelper.EofCharInNoClass | HLang/Helper/CharHelper.cs:7-13 | the end-of-input sentinel belongs to no class, so every scanning loop stops at it |
| Tokens.StructuralToken | HLang/Lexer/Lexer.cs:255 | an `Indent`/`Dedent` token has its kind, an empty lexeme, and is neither a literal, an operator, an identifier nor `EndOfStream` |
| TokenStreams.At | HLang/Token/TokenStream.cs:17-19 | the clamped index `Stream[Math.Min(i, Count)]` gives a token exactly when `0 <= i < Count`, and then the token at `i` |
| TokenStreams.TokenStream.constructor | HLang/Token/TokenStream.cs:8-15 | a new stream is empty with the cursor at -1 |
| TokenStreams.TokenStream.Current | HLang/Token/TokenStream.cs:17 | the token under the cursor, present exactly when the cursor is in range |
| TokenStreams.TokenStream.Peek | HLang/Token/TokenStream.cs:18 | the token `distance` places ahead, present exactly when that index is in range; the cursor does not move |
| TokenStreams.TokenStream.Next | HLang/Token/TokenStream.cs:19 | advances the cursor by one and returns the token `Peek(1)` showed, which is now `Current()` |
| TokenStreams.TokenStream.Unget | HLang/Token/TokenStream.cs:20 | moves the cursor back by exactly one |
| TokenStreams.TokenStream.Append | HLang/Token/TokenStream.cs:22 | the stream becomes the old stream plus the token; the cursor is unchanged |
| TokenStreams.NextUngetNext | HLang/Token/TokenStream.cs:19-20 | `Next`, `Unget`, `Next` returns the same token twice and leaves the cursor one further on |
| TokenStreams.AppendKeepsReads | HLang/Token/TokenStream.cs:22 | after `Append`, every index that was readable reads the same token, and the new last index reads the appended token |
| Precedences.LevelsAreConsecutive | HLang/Parser/Expr/Base/Precedence.cs:5-19 | the levels from `Assignment` to `Unary` are 1, 2, …, 13 in declaration order; `BitwiseNot` and `LogicalNot` equal `Unary`, and `Exponent` lies above it |
| Ast.Children | HLang/Parser/Ast/AstNode.cs:3-17 | the operands of a node in constructor order, each a strictly smaller tree, so trees are finite and acyclic |
| Ast.Tag | HLang/Parser/Ast/AstNode.cs:19-26 | the tag each variant passes to `AstNode` fixes its number of operands; `Literal`, `Identifier` and `Assignment` tags belong exactly to their variants |
| Ast.Size | HLang/Parser/Ast/AstNode.cs:3-17 | every tree has at least one node, and exactly one when it has no operands (literal and identifier leaves) |
| ParserSpec.PrefixRuleOf | HLang/Parser/ExprParser.cs:26-32 | a prefix rule exists exactly for `IntLiteral`, `DoubleLiteral`, `Identifier`, `Plus` and `Minus` |
| ParserSpec.InfixRuleOf | HLang/Parser/ExprParser.cs:35-57 | an infix rule exists exactly for the registered operators, and its precedence is at least `Assignment` (1) |
| ParserSpec.PrefixTableAgrees | HLang/Parser/ExprParser.cs:24-32 | the prefix map the registration builds holds exactly the rules `PrefixRuleOf` gives |
| ParserSpec.InfixTableAgrees | HLang/Parser/ExprParser.cs:34-57 | the infix map the registration builds holds exactly the rules `InfixRuleOf` gives |
| ParserSpec.ConsumeAt | HLang/Parser/ExprParser.cs:120-127 | `Consume(kind)` succeeds exactly when the next token is of that kind and then moves the cursor by one; otherwise it fails at the token found, or out of range |
| ParserSpec.ParseExpr | HLang/Parser/ExprParser.cs:65-83 | a successful `Parse` uses at least one token and stops inside the list, before a token whose infix precedence is at most the argument |
| ParserSpec.ParseLoop | HLang/Parser/ExprParser.cs:76-80 | the loop never moves the cursor back, stops inside the list, and on success the upcoming token's infix precedence is at most the argument |
| ParserSpec.LoopStops | HLang/Parser/ExprParser.cs:76-88 | the loop ends, returning what it has built, before a token whose infix precedence is not above the argument (0 without an infix rule) |
| ParserSpec.LoopStep | HLang/Parser/ExprParser.cs:76-80 | one iteration reads the token whose precedence it just peeked and extends the expression with that token's infix rule |
| ParserSpec.ExprStart | HLang/Parser/ExprParser.cs:67-76 | after a successful prefix parselet, `Parse` is the loop from where that parselet stopped |
| ParserSpec.LoopFails | HLang/Parser/ExprParser.cs:78-79 | an infix parselet's failure ends the loop with that failure |
| ParserSpec.ParsePrefix | HLang/Parser/Expr/Derived/PrefixParse.cs:15-18 | a prefix parselet never moves the cursor back and stops inside the list; a prefix operator builds a `PrefixOperatorNode` on its own token; literal and identifier leaves are a `LiteralNode` or `IdentifierNode` on their token and take no further token (LiteralParse.cs:7-10, IdentifierParse.cs:7-10) |
| ParserSpec.ParseInfix | HLang/Parser/Expr/Derived/BinaryOperatorParse.cs:22-25 | an infix parselet takes at least one more token and stops inside the list; it builds its kind's node on the operator token with `left` as first operand (the test of a `TernaryNode`); and it stops before a token whose infix precedence is at most its right operand's level: its precedence less one when right-associative, its own for comparison, bitwise and logical rules, 0 for `=` and `?:` (also AssignmentParse.cs:8-11, ComparisonParse.cs:8-11, BitwiseOperatorParse.cs:16-19, LogicalOperatorParse.cs:19-22) |
| ParserSpec.ParseConditional | HLang/Parser/Expr/Derived/TernaryParse.cs:8-15 | a successful conditional is a `TernaryNode` on the `?` token whose test is the left operand, takes at least one more token, and stops before a token of infix precedence 0 |
| Parsing.ExprParser.constructor | HLang/Parser/ExprParser.cs:16-22 | a new parser shares the given stream and holds both registered tables |
| Parsing.ExprParser.RegisterParser | HLang/Parser/ExprParser.cs:24-58 | filling the empty maps one `Register` call at a time, in the source's order, gives exactly the two rule tables |
| Parsing.ExprParser.RegisterInfix | HLang/Parser/ExprParser.cs:90-93 | sets or replaces the infix rule of one kind and leaves the others |
| Parsing.ExprParser.RegisterPrefixRule | HLang/Parser/ExprParser.cs:95-98 | sets or replaces the prefix rule of one kind and leaves the others |
| Parsing.ExprParser.RegisterPrefix | HLang/Parser/ExprParser.cs:100-103 | registers a sign whose operand is parsed at the `Unary` level |
| Parsing.ExprParser.RegisterBinaryOperator | HLang/Parser/ExprParser.cs:105-108 | registers a left-associative binary rule at the given level |
| Parsing.ExprParser.RegisterComparison | HLang/Parser/ExprParser.cs:110-113 | registers the shared comparison rule |
| Parsing.ExprParser.RegisterBinaryOperatorR | HLang/Parser/ExprParser.cs:115-118 | registers a right-associative binary rule at the given level |
| Parsing.ExprParser.GetPrecedence | HLang/Parser/ExprParser.cs:85-88 | the infix precedence of the upcoming token, 0 without a rule; it fails exactly when the peek is out of range |
| Parsing.ExprParser.Consume | HLang/Parser/ExprParser.cs:120-127 | moves the cursor by one and succeeds or fails exactly as `ConsumeAt` does |
| Parsing.ExprParser.Parse | HLang/Parser/ExprParser.cs:65-83 | the result and the final cursor are those of `ParseExpr` on the stream from the old cursor |
| Parsing.ExprParser.ParseInfixes | HLang/Parser/ExprParser.cs:76-80 | the `while` loop's result and final cursor are those of `ParseLoop` from the old cursor |
| Parsing.ExprParser.ParseUpcomingInfix | HLang/Parser/ExprParser.cs:78-79 | one loop iteration: on failure the loop fails with its error; on success the cursor advances and the loop continues from the new expression |
| Parsing.ExprParser.ApplyPrefix | HLang/Parser/ExprParser.cs:74 | dispatching on the prefix rule gives what `ParsePrefix` gives, cursor included |
| Parsing.ExprParser.ParsePrefixOperator | HLang/Parser/Expr/Derived/PrefixParse.cs:15-18 | the operand at the rule's level under a prefix node, as `ParsePrefix` states |
| Parsing.ExprParser.ParseParen | HLang/Parser/Expr/Derived/ParenParse.cs:8-13 | an expression at level 0 followed by `)`; the node is returned as it is, as `ParsePrefix` states |
| Parsing.ExprParser.ApplyInfix | HLang/Parser/ExprParser.cs:79 | dispatching on the infix rule gives what `ParseInfix` gives, cursor included |
| Parsing.ExprParser.ParseBinaryOperator | HLang/Parser/Expr/Derived/BinaryOperatorParse.cs:22-25 | the right operand at the rule's level, one lower when right-associative, as `ParseInfix` states |
| Parsing.ExprParser.ParseComparison | HLang/Parser/Expr/Derived/ComparisonParse.cs:8-11 | the right operand at the comparison level, as `ParseInfix` states |
| Parsing.ExprParser.ParseAssignment | HLang/Parser/Expr/Derived/AssignmentParse.cs:8-11 | the right operand at `Assignment - 1`, as `ParseInfix` states |
| Parsing.ExprParser.ParseBitwiseOperator | HLang/Parser/Expr/Derived/BitwiseOperatorParse.cs:16-19 | the right operand at the rule's level, as `ParseInfix` states |
| Parsing.ExprParser.ParseLogicalOperator | HLang/Parser/Expr/Derived/LogicalOperatorParse.cs:19-22 | the right operand at the rule's level, as `ParseInfix` states |
| Parsing.ExprParser.ParseTernary | HLang/Parser/Expr/Derived/TernaryParse.cs:8-15 | the true part at level 0, a `:`, then the false part at level 0, as `ParseInfix` states |
| ParserProps.ParseStaysInStream | HLang/Parser/ExprParser.cs:65-83 | on a list ending in `EndOfStream`, `Parse` never reads past that token: it succeeds before it, or fails with a `ParseError` at a token of the list |
| ParserProps.LoopStaysInStream | HLang/Parser/ExprParser.cs:76-80 | the same for the loop of `Parse` |
| ParserProps.PrefixStaysInStream | HLang/Parser/Expr/Derived/PrefixParse.cs:15-18 | the same for every prefix parselet |
| ParserProps.InfixStaysInStream | HLang/Parser/Expr/Derived/BinaryOperatorParse.cs:22-25 | the same for every infix parselet |
| ParserProps.TernaryStaysInStream | HLang/Parser/Expr/Derived/TernaryParse.cs:8-15 | the same for the ternary parselet, whose `Consume(Colon)` fails at a token of the list |
| ParserProps.SumOfProduct | HLang/Parser/Expr/Derived/BinaryOperatorParse.cs:24 | `1+2*3` parses as `1+(2*3)` |
| ParserProps.SubtractionIsLeftAssociative | HLang/Parser/Expr/Derived/BinaryOperatorParse.cs:24 | `a-b-c` parses as `(a-b)-c` |
| ParserProps.PowerIsRightAssociative | HLang/Parser/ExprParser.cs:44 | `2**3**2` parses as `2**(3**2)` |
| ParserProps.AssignmentIsRightAssociative | HLang/Parser/Expr/Derived/AssignmentParse.cs:10 | `a=b=c=1` parses as `a=(b=(c=1))` |
| ParserProps.NegationOfPower | HLang/Parser/Expr/Derived/PrefixParse.cs:17 | `-2**2` parses as `-(2**2)` |
| ParserProps.NegationBindsTighterThanProduct | HLang/Parser/Expr/Derived/PrefixParse.cs:17 | `-a*b` parses as `(-a)*b` |
| ParserProps.ComparisonsAssociateLeft | HLang/Parser/Expr/Derived/ComparisonParse.cs:10 | `a<b==c` parses as `(a<b)==c` |
| ParserProps.SumInsideComparison | HLang/Parser/Expr/Derived/ComparisonParse.cs:13-16 | `1+2<3` parses as `(1+2)<3` |
| ParserProps.TernaryNestsToTheRight | HLang/Parser/Expr/Derived/TernaryParse.cs:10-12 | `a ? b : c ? d : e` parses as `a ? b : (c ? d : e)` |
| ParserProps.AssignmentTakesWholeTernary | HLang/Parser/Expr/Derived/AssignmentParse.cs:10 | `a = b ? c : d` parses as `a = (b ? c : d)` |
| ParserProps.MissingColonIsReported | HLang/Parser/Expr/Derived/TernaryParse.cs:11 | `a ? b` fails at the token found where `:` should be |
| ParserProps.MissingOperandIsReported | HLang/Parser/ExprParser.cs:69-72 | `1+` fails at `EndOfStream`, which has no prefix rule |
| Int64.Wrap | HLang/Visitor/AstInterpreter.cs:68 | unchecked 64-bit arithmetic: the result is a `long`, and a `long` argument is returned unchanged |
| Int64.TruncDiv | HLang/Visitor/AstInterpreter.cs:89 | `long / long`: the magnitude is the quotient of the magnitudes, and a non-zero quotient is negative exactly when the signs differ |
| Int64.TruncRem | HLang/Visitor/AstInterpreter.cs:96 | `long % long`: smaller in magnitude than the divisor, and a non-zero remainder has the dividend's sign |
| Int64.TruncDivRem | HLang/Visitor/AstInterpreter.cs:89-96 | the truncating quotient and remainder recompose the dividend |
| Int64.WrapUnique | HLang/Visitor/AstInterpreter.cs:68 | `Wrap` gives the one `long` congruent to its argument modulo 2^64 |
| Int64.WrapCongruent | HLang/Visitor/AstInterpreter.cs:68 | `Wrap` changes its argument by a multiple of 2^64 |
| Int64.WrapAddSub | HLang/Visitor/AstInterpreter.cs:56-68 | unchecked subtraction undoes unchecked addition |
| Int64.WrapNegNeg | HLang/Visitor/AstInterpreter.cs:150 | unchecked negation is its own inverse, `long.MinValue` included |
| Int64.TruncDivInRange | HLang/Visitor/AstInterpreter.cs:89 | a quotient of `long`s is a `long` except `MinValue / -1` |
| Int64.FloorMod | HLang/Visitor/AstInterpreter.cs:104 | the flooring remainder the `mod` idiom is written to compute: in `[0, b)` for `b > 0`, in `(b, 0]` for `b < 0`, congruent to `a` |
| Int64.ModIdiomIsFloorMod | HLang/Visitor/AstInterpreter.cs:104 | when `a % b + b` does not overflow, `(a % b + b) % b` is the flooring remainder |
| Int64.Pow2OfBits | HLang/Visitor/AstInterpreter.cs:127-131 | a `long` has 64 bits |
| Int64.Unsigned | HLang/Visitor/AstInterpreter.cs:127-131 | the two's-complement pattern of a `long`, below 2^64, from which `Wrap` gives the `long` back |
| Int64.BitOp | HLang/Visitor/AstInterpreter.cs:127-131 | a bit-by-bit operation on `width` bits gives a pattern of `width` bits |
| Int64.BitOpCommutes | HLang/Visitor/AstInterpreter.cs:127-131 | and, or and xor on patterns are commutative |
| Int64.BitOpSelf | HLang/Visitor/AstInterpreter.cs:127-131 | on patterns, and-ing or or-ing `x` with itself gives `x`, and xor-ing it with itself gives 0 |
| Int64.XorAllOnes | HLang/Visitor/AstInterpreter.cs:131 | exclusive or with all ones subtracts the pattern from the largest one |
| Int64.Bitwise | HLang/Visitor/AstInterpreter.cs:127-131 | and, or, xor on two `long`s give a `long` |
| Int64.BitwiseSelf | HLang/Visitor/AstInterpreter.cs:127-131 | `x & x == x`, `x` or `x` is `x` and `x ^ x == 0` on `long`s |
| Int64.XorWithAllOnesPattern | HLang/Visitor/AstInterpreter.cs:131 | the pattern of `x ^ -1` is the largest pattern less that of `x` |
| Int64.ComplementIsXorAllOnes | HLang/Visitor/AstInterpreter.cs:130-152 | `x ^ -1` on a `long` is `-x - 1`, which is `~x` |
| Int64.WrapOfShifted | HLang/Visitor/AstInterpreter.cs:68 | adding 2^64 to a `long` and wrapping gives it back |
| Int64.DoubleSpacing | HLang/Visitor/AstInterpreter.cs:193 | the spacing of doubles around a magnitude: at least the starting unit, with the magnitude below 2^53 spacings |
| Int64.ToDouble | HLang/Visitor/AstInterpreter.cs:193 | `(double)x` as an integer: exact when the magnitude of `x` is at most 2^53, and of the same sign as `x` |
| Evaluation.ParseDecimal | HLang/Visitor/AstInterpreter.cs:20 | `Convert.ToInt64(text)`: succeeds exactly on non-empty decimal digits whose value fits, giving that value; fails with `Overflow` exactly on digits whose value does not fit |
| Evaluation.ParseInBase | HLang/Visitor/AstInterpreter.cs:22-26 | `Convert.ToInt64(text, base)`: succeeds exactly on non-empty digits of the base whose value is below 2^64, giving the `long` with that pattern |
| Evaluation.ParseBool | HLang/Visitor/AstInterpreter.cs:30 | `Convert.ToBoolean(text)`: succeeds exactly on "true" or "false" in any letter case, giving `true` exactly for "true" |
| Evaluation.LiteralValue | HLang/Visitor/AstInterpreter.cs:15-34 | a literal's value fits its type, integer kinds give `long`s, and string, char and other kinds give `null` |
| Evaluation.IntLiteralAsWritten | HLang/Visitor/AstInterpreter.cs:19-20 | the text goes to `Convert.ToInt64` unchanged, so it succeeds only without `_` |
| Evaluation.NaturalText | HLang/Visitor/AstInterpreter.cs:20 | the decimal digits of a natural number: non-empty, digits only |
| Evaluation.AsFloat | HLang/Visitor/AstInterpreter.cs:64-66 | `Convert.ToDouble(value)` fails exactly on text that does not parse |
| Evaluation.ToBoolean | HLang/Visitor/AstInterpreter.cs:215 | `Convert.ToBoolean(value)`: a `long` is true when non-zero, a `bool` is itself, `null` is false, and only text can fail |
| Evaluation.Lookup | HLang/Visitor/AstInterpreter.cs:36-44 | a bound identifier gives its stored value, an unbound one its own name as text |
| Evaluation.Add | HLang/Visitor/AstInterpreter.cs:55-56 | `lhs + rhs`: wrapping addition on two `long`s, concatenation when either side is text, and an error exactly when neither side is text and one is not a number |
| Evaluation.FloatArithmetic | HLang/Visitor/AstInterpreter.cs:64-109 | the `double` branch fails exactly when an operand does not convert; `div` gives a `long`, every other operator a `double` |
| Evaluation.Division | HLang/Visitor/AstInterpreter.cs:84-104 | `div`, `%`, `mod` on `long`s: `DivideByZero` exactly for a zero divisor, `Overflow` exactly for `MinValue` by -1, otherwise the truncating quotient, truncating remainder and flooring remainder, each a `long` |
| Evaluation.ModAsWritten | HLang/Visitor/AstInterpreter.cs:104 | the written `(a % b + b) % b` with a wrapping inner sum: the same two errors, and a result smaller in magnitude than the divisor |
| Evaluation.LongArithmetic | HLang/Visitor/AstInterpreter.cs:63-111 | the `long` branch: `-`, `*`, `**` and the divisions cast both operands to `long`, a `BinderError` otherwise; `/` casts only the right one; on two `long`s, `-` and `*` wrap, `/` and `**` give a `double`, and `div`, `%`, `mod` give `Division`'s `long` or its exception |
| Evaluation.Arithmetic | HLang/Visitor/AstInterpreter.cs:53-114 | an operator without a case gives `null`; `long` results stay in range; a result is a `long` exactly for `div` and for `-`, `*`, `div`, `%`, `mod` on two `long`s, and a `double` otherwise; on two `long`s each operator gives the `long`-branch value |
| Evaluation.Comparison | HLang/Visitor/AstInterpreter.cs:165-210 | a comparison gives a `bool`; two `long`s compare as integers; every operator but `<=` casts both non-`double` operands to `long` and fails to bind otherwise; `<=` converts a non-number left side with `Convert.ToDouble` and compares it with a `long` right side; any other kind gives `null` |
| Evaluation.ComparisonAsWritten | HLang/Visitor/AstInterpreter.cs:165-210 | the source's comparison, `<=` on two `long`s through `double` included: a `bool` for every comparison, `null` for other kinds, and integer `<=` while both sides are exactly representable |
| Evaluation.LessOrEqualAsWritten | HLang/Visitor/AstInterpreter.cs:193 | `<=` through `double` agrees with integer `<=` while both sides are exactly representable |
| Evaluation.Prefix | HLang/Visitor/AstInterpreter.cs:141-156 | `-` wraps, `~x` is `-x - 1`, `!` negates a `bool`, any other kind returns the operand, and the only failure is the binder's |
| Evaluation.BitwiseOp | HLang/Visitor/AstInterpreter.cs:117-139 | and, or, xor succeed exactly on two `long`s or two `bool`s, with the boolean meaning on `bool`s; the shifts always fail in the binder; any other kind gives `null` |
| Evaluation.Logical | HLang/Visitor/AstInterpreter.cs:229-241 | succeeds exactly when the left side is a `bool` and either decides the result or the right side is a `bool`; the result is the logical and for `And` and the logical or for every other kind |
| Evaluation.Operate | HLang/Visitor/AstInterpreter.cs:46-241 | the operator a node applies keeps `long` results within 64 bits |
| Evaluation.TextOf | HLang/Visitor/AstInterpreter.cs:225 | `ToString()` of a value: text is itself, `null` is empty, a `bool` is `True` or `False`, and a `long` is its decimal digits after a `-` when negative |
| Evaluation.AssignmentKey | HLang/Visitor/AstInterpreter.cs:225 | the key is the left operand's value as text, or the left token's own text when that value is `null` |
| Evaluation.Evaluate | HLang/Visitor/AstInterpreter.cs:15-246 | literals and identifiers leave the table alone and an identifier gives its lookup; a comparison or logical node gives a `bool`; `div` gives a `long`, `/` and `**` a `double`; an assignment returns the right value and binds it under `AssignmentKey` in the table the operands left |
| Evaluation.EvalOperands | HLang/Visitor/AstInterpreter.cs:46-51 | the left operand is evaluated first and an exception there ends the node; otherwise the right operand is evaluated in the table the left one left behind |
| EvaluationProps.OnlyAssignmentWrites | HLang/Visitor/AstInterpreter.cs:220-227 | a tree without an assignment leaves the table exactly as it was, even when it fails |
| EvaluationProps.OperandsOnlyAssignmentWrites | HLang/Visitor/AstInterpreter.cs:49-51 | the same for the evaluation of a node's two operands |
| EvaluationProps.TableOnlyGrows | HLang/Visitor/AstInterpreter.cs:225 | evaluation never removes a binding |
| EvaluationProps.OperandsOnlyGrow | HLang/Visitor/AstInterpreter.cs:49-51 | the same for the evaluation of a node's two operands |
| EvaluationProps.EvaluationKeepsLongsInRange | HLang/Visitor/AstInterpreter.cs:46-241 | every `long` that evaluation returns or stores fits in 64 bits |
| EvaluationProps.OperandsKeepLongsInRange | HLang/Visitor/AstInterpreter.cs:49-51 | the same for a node's two operands |
| EvaluationProps.TernarySelectsOneBranch | HLang/Visitor/AstInterpreter.cs:213-218 | a conditional evaluates its test and then only the branch the test selects, from the table the test left |
| EvaluationProps.SubtractionUndoesAddition | HLang/Visitor/AstInterpreter.cs:56-68 | `(a + b) - b == a` on `long`s, across the wrap-around |
| EvaluationProps.NegationIsAnInvolution | HLang/Visitor/AstInterpreter.cs:150 | `-(-a) == a` on `long`s, `MinValue` included |
| EvaluationProps.DivisionRecomposes | HLang/Visitor/AstInterpreter.cs:89-96 | `(a div b) * b + a % b == a` whenever neither throws |
| EvaluationProps.ComplementIsXorWithAllOnes | HLang/Visitor/AstInterpreter.cs:130-152 | `~a` and `a ^ -1` agree on `long`s |
| EvaluationProps.XorWithAllOnes | HLang/Visitor/AstInterpreter.cs:131 | `a ^ -1` is `-a - 1` on `long`s |
| EvaluationProps.BitwiseWithItself | HLang/Visitor/AstInterpreter.cs:127-131 | on `long`s, and-ing or or-ing `a` with itself gives `a`, and xor-ing it with itself gives 0 |
| EvaluationProps.LongBitwise | HLang/Visitor/AstInterpreter.cs:127-131 | and, or, xor on two `long`s are the 64-bit pattern operations |
| EvaluationProps.LogicalAgreesWithBitwise | HLang/Visitor/AstInterpreter.cs:229-241 | on `bool`s, the logical and/or agree with the non-short-circuit bitwise and/or |
| EvaluationProps.LogicalShortCircuits | HLang/Visitor/AstInterpreter.cs:236-239 | a `false` left side of the logical and, or a `true` left side of the logical or, decides the result whatever the right side is |
| EvaluationProps.ComparisonCorrectionOnlyRounds | HLang/Visitor/AstInterpreter.cs:165-210 | the corrected comparison equals the source's on every operator and operand pair except `<=` between two `long`s, and there too while both are exactly representable as `double` |
| EvaluationProps.BoolLeftOfLessOrEqual | HLang/Visitor/AstInterpreter.cs:188-193 | in `(1 < 2) <= 1` the `bool` left side is converted to 1.0 and compared with the `long`, while `<` on the same operands fails to bind |
| EvaluationProps.NaturalTextRoundTrip | HLang/Visitor/AstInterpreter.cs:20 | reading back the decimal digits of a natural number gives the number |
| EvaluationProps.NoSeparatorsUnchanged | HLang/Lexer/Lexer.cs:168 | removing `_` from a text without one leaves it unchanged |
| EvaluationProps.IntLiteralRoundTrip | HLang/Visitor/AstInterpreter.cs:19-20 | an `IntLiteral` holding the digits of a `long` evaluates to that `long` |
| EvaluationProps.SeparatorsAreIgnored | HLang/Visitor/AstInterpreter.cs:19-20 | removing `_` does not change an `IntLiteral`'s value |
| EvaluationProps.SeparatedLiteralRejectedAsWritten | HLang/Visitor/AstInterpreter.cs:20 | `1_000`, which the lexer accepts, throws as written but is one thousand in the corrected model |
| EvaluationProps.ThousandWithoutSeparator | HLang/Lexer/Lexer.cs:168 | removing the separator from `1_000` gives the digits of one thousand |
| EvaluationProps.ModIdiomOverflows | HLang/Visitor/AstInterpreter.cs:104 | `1 mod long.MaxValue` is -1 as written, while the flooring remainder is 1 |
| EvaluationProps.ModIdiomAgreesWithoutOverflow | HLang/Visitor/AstInterpreter.cs:104 | the written idiom and the flooring remainder agree whenever `a % b + b` does not overflow |
| EvaluationProps.ModIdiomSafeForSmallDivisors | HLang/Visitor/AstInterpreter.cs:104 | in particular they agree for every divisor of magnitude at most 2^62 |
| EvaluationProps.LessOrEqualRoundsFirst | HLang/Visitor/AstInterpreter.cs:193 | as written, `2^53 + 1 <= 2^53` holds, although `2^53 + 1 > 2^53` holds too; the corrected `<=` gives false |
| EvaluationProps.IntLiteralEvaluates | HLang/Visitor/AstInterpreter.cs:19-20 | a literal node holding the digits of a `long` evaluates to it and leaves the table alone |
| EvaluationProps.BinaryOfLongs | HLang/Visitor/AstInterpreter.cs:46-53 | a binary node evaluates left, then right, then applies its operator to the two values |
| EvaluationProps.ProductValue | HLang/Visitor/AstInterpreter.cs:70-75 | the tree of `2*3` evaluates to 6 |
| EvaluationProps.SumOfProductValue | HLang/Visitor/AstInterpreter.cs:55-75 | the tree of `1+(2*3)` evaluates to 7 |
| EvaluationProps.SumOfProductEvaluates | HLang/Visitor/AstInterpreter.cs:243-246 | the tokens of `1+2*3`, parsed and evaluated, give 7 with the table untouched |
| EvaluationProps.ChainedAssignmentEvaluates | HLangTest/UnitTest1.cs:17-23 | the tokens of `a=b=c=1`, parsed and evaluated on an empty table, give 1 and bind `a`, `b` and `c` to 1 |
| EvaluationProps.AssignmentToUnboundName | HLang/Visitor/AstInterpreter.cs:220-227 | assigning to an unbound name binds that name to the right side's value and returns the value |
| EvaluationProps.ChainedAssignmentValue | HLang/Visitor/AstInterpreter.cs:220-227 | the tree of `a=(b=(c=1))` binds `c`, then `b`, then `a` to 1 |
| EvaluationProps.AssignmentKeyIsLeftValue | HLang/Visitor/AstInterpreter.cs:222-225 | the key written is the text of the left side's value: with `a` bound to 1, `a = 2` binds "1" and leaves `a` alone |
| EvaluationProps.UnboundIdentifierConcatenates | HLang/Visitor/AstInterpreter.cs:36-56 | an unbound `x` is the text "x", so `x + 1` is "x1" |
| Interpreting.AstInterpreter.constructor | HLang/Visitor/AstInterpreter.cs:13 | a new interpreter has an empty table |
| Interpreting.AstInterpreter.Visit | HLang/Visitor/AstInterpreter.cs:15-241 | the value and the new table are what `Evaluate` gives on the old table |
| Interpreting.AstInterpreter.Eval | HLang/Visitor/AstInterpreter.cs:243-246 | the same for the root of a tree |
| LexerSpec.RemoveUnderscores | HLang/Lexer/Lexer.cs:168 | `Replace("_", "")` leaves no `_`, adds no character and does not lengthen the text |
| LexerSpec.ScanIdentifier | HLang/Lexer/Lexer.cs:106-125 | the lexeme is a prefix of the input, the rest follows it, the token sits at the column after it, and it is `Mod`/`Div` for the keywords, `Identifier` otherwise |
| LexerSpec.ScanIdentifierMaximal | HLang/Lexer/Lexer.cs:109-119 | the lexeme is the longest run of identifier characters at the head of the input |
| LexerSpec.ScanBaseInt | HLang/Lexer/Lexer.cs:205-226 | the digits are a prefix of the input, the token starts at the `0` of the prefix, and the kind follows the base |
| LexerSpec.ScanBaseIntMaximal | HLang/Lexer/Lexer.cs:209-221 | the digits are the longest run valid in the base |
| LexerSpec.RealSpanMaximal | HLang/Lexer/Lexer.cs:182-195 | every character the real loop takes passes its test, with signs never twice in a row, and the character that stops it fails the test |
| LexerSpec.RealSpanExact | HLang/Lexer/Lexer.cs:182-195 | a run that passes the test and cannot be extended is the one the loop takes |
| LexerSpec.FinishReal | HLang/Lexer/Lexer.cs:198-202 | a real literal is accepted exactly when it does not end in `_` and parses as a double once `_` is removed |
| LexerSpec.FinishInteger | HLang/Lexer/Lexer.cs:168-172 | a decimal literal is accepted exactly when it does not end in `_` and is an integer once `_` is removed; the accepted token is an `IntLiteral` holding the text with its `_`, at the end column less the text's length, where the literal starts; a rejection is `InvalidInteger` at the end column |
| LexerSpec.ScanReal | HLang/Lexer/Lexer.cs:177-203 | an accepted real is a `DoubleLiteral` that extends what was parsed before, starts at its first character and consumes input |
| LexerSpec.ScanRealSpanning | HLang/Lexer/Lexer.cs:179-198 | `ParseReal` takes one character, then the loop's run, and judges the whole text |
| LexerSpec.ScanNumber | HLang/Lexer/Lexer.cs:127-175 | a scanned number consumes input |
| LexerSpec.ScanNumberCases | HLang/Lexer/Lexer.cs:132-147 | `0` before a base letter goes to the base scan, `.` to the real scan, anything else to the decimal scan |
| LexerSpec.ScanDecimal | HLang/Lexer/Lexer.cs:147-172 | the decimal case never lengthens the rest of the input; an accepted `IntLiteral` is the first digit plus the maximal run of digits and `_` (`Span`, maximal by `SpanMaximal`), at the first digit's column, with the input after the run left; the result is some other kind exactly when the run stops at `.`, `e` or `E` and the real scan succeeds |
| LexerSpec.ScanString | HLang/Lexer/Lexer.cs:228-244 | the value is the characters before the next `"` or newline, one further character is skipped unchecked, and the token is a `StringLiteral` two columns past the opening quote, as the source computes it |
| LexerSpec.ScanStringMaximal | HLang/Lexer/Lexer.cs:232-240 | the value runs exactly up to the first `"` or newline |
| LexerSpec.IndentDepth | HLang/Lexer/Lexer.cs:258-275 | the depth is at most the remaining input |
| LexerSpec.IndentDepthMeaning | HLang/Lexer/Lexer.cs:261-271 | the depth counts the blanks of the lexer's style at the head of the line, and an error names the column of a blank of the other kind |
| LexerSpec.StepIdentifier | HLang/Lexer/Lexer.cs:287-289 | a letter or `_` always yields a token and continues |
| LexerSpec.StepNumber | HLang/Lexer/Lexer.cs:291-293 | a digit yields a number token and consumes input, or stops with the lexer's error |
| LexerSpec.StepNewline | HLang/Lexer/Lexer.cs:299-309 | a newline consumes input when it continues |
| LexerSpec.NewlineStep | HLang/Lexer/Lexer.cs:299-309 | a newline appends exactly one `Indent` (deeper than the previous depth) or `Dedent` (otherwise, equal depth included), moves the balance by one, and starts the next line at column 0 |
| LexerSpec.StepString | HLang/Lexer/Lexer.cs:311-314 | a `"` always yields a string token and consumes input |
| LexerSpec.StepOperator | HLang/Lexer/Lexer.cs:322-339 | the step stalls exactly when the character starts no operator; otherwise the longest match wins: a listed two-character operator becomes one token, else the single character does; the token's kind is `OperatorMap` of its lexeme and it sits at the column where the lexeme starts, which the column then passes |
| LexerSpec.LexStep | HLang/Lexer/Lexer.cs:284-344 | a step that continues consumes input and appends at most one token to the ones before |
| LexerSpec.OperatorMapHasNoEofChar | HLang/Lexer/Lexer.cs:326-329 | no two-character operator ends in the end-of-input sentinel, so the lookahead at the end adds nothing |
| LexerSpec.Dedents | HLang/Lexer/Lexer.cs:346 | `n` `Dedent` tokens |
| LexerSpec.Closing | HLang/Lexer/Lexer.cs:345-348 | end of input appends one `Dedent` per open level, then exactly one `EndOfStream` at the position reached |
| LexerSpec.LexFrom | HLang/Lexer/Lexer.cs:277-357 | the run only appends to the tokens it starts with |
| LexerProps.UnscannableStalls | HLang/Lexer/Lexer.cs:336-339 | at a character no branch accepts, the run stops where it is with the tokens it has |
| LexerProps.UnlistedOperatorsStall | HLang/Lexer/Lexer.cs:315-339 | `!`, `^`, `&`, the vertical bar, `~`, `(` and `)` start no token, so `!=` and the bitwise and grouping tokens never appear |
| LexerProps.LongestOperatorWins | HLang/Lexer/Lexer.cs:326-334 | `**` lexes as one `DoubleStar` at the column of its first `*`, and a `*` followed by anything else, or by nothing, lexes as a `Star` |
| LexerProps.LeadingDotStalls | HLang/Lexer/Lexer.cs:291 | a leading `.` is never scanned as a number, because the check peeks at the `.` itself |
| LexerProps.TabAfterNewlineFails | HLang/Lexer/Lexer.cs:258-275 | with the default `Space` style, a tab at the head of a new line is an inconsistent-indentation error at the tab's column |
| LexerProps.StepAddsNoEndOfStream | HLang/Lexer/Lexer.cs:284-344 | no token the loop appends is an `EndOfStream` |
| LexerProps.OneEndOfStream | HLang/Lexer/Lexer.cs:345-356 | a finished run ends with an `EndOfStream` and holds no other; a run that fails or stalls holds none |
| LexerProps.LexedStreamEndsWithEndOfStream | HLang/Lexer/Lexer.cs:348 | a finished text gives the parser a list that ends with its only `EndOfStream`, which is what `ParserProps.ParseStaysInStream` requires |
| Lexing.Lexer.constructor | HLang/Lexer/Lexer.cs:52-58 | a new lexer is at line 0, column 0, with no pushback and a new empty token stream |
| Lexing.Lexer.IsEOF | HLang/Lexer/Lexer.cs:96 | end of input exactly when neither the reader nor the pushback queue holds a character |
| Lexing.Lexer.Peek | HLang/Lexer/Lexer.cs:104 | the next character, pushback first, or the sentinel at the end |
| Lexing.Lexer.Next | HLang/Lexer/Lexer.cs:89-94 | returns the character `Peek` shows, drops it from the input and advances the column by one |
| Lexing.Lexer.Unget | HLang/Lexer/Lexer.cs:98-102 | queues the character and moves the column back by one |
| Lexing.Lexer.ParseIdentifier | HLang/Lexer/Lexer.cs:106-125 | the token, remaining input and column are those of `ScanIdentifier` |
| Lexing.Lexer.ParseInt | HLang/Lexer/Lexer.cs:205-226 | the same against `ScanBaseInt` |
| Lexing.Lexer.ParseReal | HLang/Lexer/Lexer.cs:177-203 | the token or error, remaining input and column are those of `ScanReal` |
| Lexing.Lexer.ReadRealTail | HLang/Lexer/Lexer.cs:182-195 | the loop takes exactly the characters `RealSpan` counts |
| Lexing.Lexer.ParseNumber | HLang/Lexer/Lexer.cs:127-175 | the token or error, remaining input and column are those of `ScanNumber` |
| Lexing.Lexer.ParseBasePrefixed | HLang/Lexer/Lexer.cs:134-144 | reads the prefix letter and scans in its base, as `ScanBaseInt` states |
| Lexing.Lexer.ParseDecimal | HLang/Lexer/Lexer.cs:147-172 | the decimal case, as `ScanDecimal` states |
| Lexing.Lexer.ReadDecimalDigits | HLang/Lexer/Lexer.cs:149-165 | takes the longest run of digits and `_`, and reports whether a `.`, `e` or `E` stopped it |
| Lexing.Lexer.ParseString | HLang/Lexer/Lexer.cs:228-244 | the same against `ScanString` |
| Lexing.Lexer.GetIndentDepth | HLang/Lexer/Lexer.cs:258-275 | the depth or error is `IndentDepth`'s, and on success the blanks are consumed |
| Lexing.Lexer.HandleIndent | HLang/Lexer/Lexer.cs:252-256 | appends one `Indent` when deeper, one `Dedent` otherwise, and moves the balance by one |
| Lexing.Lexer.StartStep | HLang/Lexer/Lexer.cs:286-343 | one iteration of `Start`'s loop moves the state as `LexStep` does |
| Lexing.Lexer.ScanNext | HLang/Lexer/Lexer.cs:286-343 | the body of that iteration follows `LexStep` branch by branch |
| Lexing.Lexer.HandleNewline | HLang/Lexer/Lexer.cs:299-309 | the newline case follows `StepNewline` |
| Lexing.Lexer.EnterLine | HLang/Lexer/Lexer.cs:304-308 | once the depth is known: the structural token, then the next line at column 0, as `StepNewline` states |
| Lexing.Lexer.ScanOperator | HLang/Lexer/Lexer.cs:322-339 | the operator case follows `StepOperator`: the longest operator, or the pushback of a character that starts none |
| Lexing.Lexer.Start | HLang/Lexer/Lexer.cs:277-357 | the stream receives exactly the tokens `LexFrom` yields, and the status says whether it finished, failed or would loop forever |
| Lexing.Lexer.ScanAll | HLang/Lexer/Lexer.cs:284-344 | the loop's tokens and status are those of `LexFrom`, less the closing tokens when it completes |
| Lexing.Lexer.CloseStream | HLang/Lexer/Lexer.cs:345-348 | appends exactly the tokens `Closing` gives |

## Left out

- Reading the input from a file or a `Stream`, `Dispose`, and the
  `Console.Error` line written on a lexer error: the input is a `seq<char>`.
- Floating point: real literals are judged by the parameter `parsesAsDouble`.
  `double` arithmetic, `Math.Pow`, `double` comparison and formatting go
  through `FloatOracle`. The model keeps only which branch is taken and the
  type of the result.
- `Math.Pow` on two `long`s: the model keeps only the fact that it returns a
  `double`.
- The full Unicode categories of `char.IsLetter`, `char.IsDigit` and
  `char.IsWhiteSpace`: ASCII only.
- `Convert.ToInt64` and `BigInteger.TryParse` accept leading signs and
  surrounding blanks. The model reads digits only, which is all the lexer
  hands them.
- `Convert.ToBoolean` on text ignores surrounding blanks in .NET. The model
  compares the text exactly, up to letter case.
- The C# `dynamic` binder is modelled only as far as the operators' cases need
  it. Every failure to bind an operator or a `(long)` conversion is the one
  value `BinderError`, without the binder's message.
- Evaluation.Add, Evaluation.Prefix, Evaluation.BitwiseOp and
  Evaluation.Logical: a `null` operand gives `BinderError`. .NET binds it to the
  lifted nullable operators instead: `null + 5` and `-null` give `null`,
  `null + true` gives "True", and a `null` right side after `true &&` or
  `false ||` gives `null`. `null` only comes from String and Char literal
  nodes, which no prefix rule parses.
- Evaluation.ParseInBase: empty text gives `FormatError`, where
  `Convert.ToInt64("", base)` throws `ArgumentOutOfRangeException`. Hex, octal
  and binary literals reach it only through nodes that no prefix rule parses.
- The DEBUG build's rethrow of `SyntaxError` and `Token.ToString`: the model
  takes the release build, where the error stops `Start` with the tokens so far.
- Error message texts: errors are datatypes carrying the token, line and column.
- The visitor base classes, `Accept`, and the `IPrefix`/`IInfix` interfaces:
  these are a `match` on the node and rule datatypes.
- `Lexing.Lexer.Start`: the source loops forever on a character that starts no
  token. The model returns the status `Diverged` instead.
- `CharLiteral` and `BoolLiteral` tokens, `Not`, `And`, `Or`, the shifts and
  the bitwise operators are never produced by the lexer. They are modelled
  where the parser and interpreter handle them, but no lexer path reaches them.
- The evaluation of a `BoolLiteral` goes through `Evaluation.ParseBool`.
  Nothing reaches it from source text.

## Findings

| source | as written | input that shows it | evidently intended | confidence | as-written member | corrected member |
|---|---|---|---|---|---|---|
| HLang/Visitor/AstInterpreter.cs:104 | `mod` computes `((long)lhs % (long)rhs + (long)rhs) % (long)rhs`, and the inner sum wraps around | `1 mod 9223372036854775807` gives -1 | the flooring remainder, 1 here | not executed | EvaluationProps.ModIdiomOverflows | Evaluation.Division |
| HLang/Visitor/AstInterpreter.cs:193 | `<=` on two `long`s compares `Convert.ToDouble(lhs) <= (long)rhs`, rounding both sides to `double`; the correction changes only this case, and a non-`long` left side still goes through `Convert.ToDouble` | `9007199254740993 <= 9007199254740992` gives true | integer comparison like the other five operators, false here | not executed | EvaluationProps.LessOrEqualRoundsFirst | Evaluation.Comparison |
| HLang/Visitor/AstInterpreter.cs:20 | an `IntLiteral` goes to `Convert.ToInt64` with its `_` separators, which the lexer accepts (HLang/Lexer/Lexer.cs:153, 168); a `DoubleLiteral` goes to `Convert.ToDouble` with them too (line 28) | `1_000` throws `FormatException` | the value without separators, 1000 | not executed | EvaluationProps.SeparatedLiteralRejectedAsWritten | Evaluation.LiteralValue |
