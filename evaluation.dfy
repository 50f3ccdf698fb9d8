/**
 * What the tree-walking interpreter of HLang/Visitor/AstInterpreter.cs computes,
 * stated as functions over the syntax tree and the symbol table.
 *
 * The source's `Visit` methods return `object` and combine operands through
 * `dynamic`, so a value is one of the runtime types that can reach them: a boxed
 * `long`, `double` or `bool`, a `string` (an unbound identifier evaluates to its
 * own name), or `null`.  A thrown exception becomes an `EvalError`; the table
 * keeps every assignment made before it.
 *
 * Doubles are symbolic: a `FloatTerm` records how a double was computed, and a
 * `FloatOracle` answers the questions the interpreter asks of one (whether it is
 * non-zero, how it compares, its truncation to `long`, its text).
 */
module Evaluation {
  import opened Wrappers
  import opened Tokens
  import opened CharHelper
  import opened Int64
  import LexerSpec
  import Ast

  /** A double, as the expression that produced it. */
  datatype FloatTerm =
    | ParsedFloat(text: string)
    | FromLong(n: int)
    | FloatBinary(op: TokenType, lhs: FloatTerm, rhs: FloatTerm)
    | FloatNegate(operand: FloatTerm)

  /**
   * The IEEE-754 operations the interpreter relies on: `double.Parse` succeeding on
   * a text, `d != 0`, the six comparisons, the `(long)` cast, and `ToString()`.
   */
  datatype FloatOracle = FloatOracle(
    parses: string -> bool,
    isNonZero: FloatTerm -> bool,
    compare: (TokenType, FloatTerm, FloatTerm) -> bool,
    truncate: FloatTerm -> int,
    format: FloatTerm -> string)

  /** The runtime value of an expression. */
  datatype Value =
    | Long(n: int)
    | Double(f: FloatTerm)
    | Bool(b: bool)
    | Text(s: string)
    | Null

  /** The exceptions evaluation can throw. */
  datatype EvalError =
    | FormatError       // a conversion from text that does not hold a number or a Boolean
    | Overflow          // a literal out of range, or `long.MinValue` divided by -1
    | DivideByZero
    | BinderError       // a `dynamic` operator, or a `(long)` cast of a `dynamic` value, with no overload for its operands

  type Table = map<string, Value>

  /** The table after an evaluation, and its value or the exception it ended with. */
  datatype Outcome = Outcome(result: Result<Value, EvalError>, table: Table)

  /** The two operands of a binary node, evaluated left to right. */
  datatype Operands = Operands(result: Result<(Value, Value), EvalError>, table: Table)

  /** A `long` that C# could hold. */
  predicate ValueInRange(v: Value) {
    v.Long? ==> InRange(v.n)
  }

  predicate TableInRange(t: Table) {
    forall k :: k in t ==> ValueInRange(t[k])
  }

  // ---------------------------------------------------------------- literals

  /** Whether `c` is a digit of the base (10, 2, 8 or 16; both cases of hex letters). */
  predicate DigitOk(numberBase: int, c: char) {
    if numberBase == 10 then IsDigit(c) else LexerSpec.BaseDigit(numberBase, c)
  }

  function DigitValue(c: char): nat {
    if IsDigit(c) then c as int - '0' as int
    else if 'a' <= ToLower(c) <= 'z' then ToLower(c) as int - 'a' as int + 10
    else 0
  }

  /** The number a run of digits denotes in a base, most significant digit first. */
  function DigitsValue(numberBase: nat, s: string): nat {
    if s == [] then 0 else numberBase * DigitsValue(numberBase, s[..|s| - 1]) + DigitValue(s[|s| - 1])
  }

  predicate AllDigits(numberBase: int, s: string) {
    forall i :: 0 <= i < |s| ==> DigitOk(numberBase, s[i])
  }

  /** `Convert.ToInt64(text)` on a run of decimal digits: a `long`, or the exception it throws. */
  function ParseDecimal(s: string): (r: Result<int, EvalError>)
    ensures r.Ok? <==> s != [] && AllDigits(10, s) && DigitsValue(10, s) <= MaxValue
    ensures r.Ok? ==> r.value == DigitsValue(10, s) && InRange(r.value)
    ensures r == Err(Overflow) <==> s != [] && AllDigits(10, s) && DigitsValue(10, s) > MaxValue
  {
    if s == [] || !AllDigits(10, s) then Err(FormatError)
    else if DigitsValue(10, s) > MaxValue then Err(Overflow)
    else Ok(DigitsValue(10, s))
  }

  /**
   * `Convert.ToInt64(text, base)`: the digits are read as an unsigned 64-bit
   * pattern, so a value of 2^63 or more comes out negative.
   */
  function ParseInBase(numberBase: nat, s: string): (r: Result<int, EvalError>)
    ensures r.Ok? <==> s != [] && AllDigits(numberBase, s) && DigitsValue(numberBase, s) < Modulus
    ensures r.Ok? ==> InRange(r.value) && Unsigned(r.value) == DigitsValue(numberBase, s)
  {
    if s == [] || !AllDigits(numberBase, s) then Err(FormatError)
    else if DigitsValue(numberBase, s) >= Modulus then Err(Overflow)
    else Ok(Wrap(DigitsValue(numberBase, s)))
  }

  function LowerText(s: string): (r: string)
    ensures |r| == |s|
  {
    if s == [] then [] else [ToLower(s[0])] + LowerText(s[1..])
  }

  /** `Convert.ToBoolean(text)`: "true" or "false" in any letter case. */
  function ParseBool(s: string): (r: Result<bool, EvalError>)
    ensures r.Ok? <==> LowerText(s) == "true" || LowerText(s) == "false"
    ensures r.Ok? ==> (r.value <==> LowerText(s) == "true")
  {
    if LowerText(s) == "true" then Ok(true)
    else if LowerText(s) == "false" then Ok(false)
    else Err(FormatError)
  }

  predicate IsIntegerLiteral(k: TokenType) {
    k.IntLiteral? || k.BinLiteral? || k.OctLiteral? || k.HexLiteral?
  }

  function AsLongValue(r: Result<int, EvalError>): Result<Value, EvalError> {
    match r
    case Ok(n) => Ok(Long(n))
    case Err(e) => Err(e)
  }

  /**
   * `Visit(LiteralNode)`: the token's text converted by its kind; `_` digit
   * separators, which the lexer accepts in numbers, are removed first.  Any other
   * kind of literal evaluates to `null`.
   */
  function LiteralValue(token: Token, oracle: FloatOracle): (r: Result<Value, EvalError>)
    ensures r.Ok? ==> ValueInRange(r.value)
    ensures IsIntegerLiteral(token.kind) && r.Ok? ==> r.value.Long?
    ensures !IsIntegerLiteral(token.kind) && !token.kind.DoubleLiteral? && !token.kind.BoolLiteral? ==> r == Ok(Null)
  {
    var kind := token.kind;
    if kind.IntLiteral? then AsLongValue(ParseDecimal(LexerSpec.RemoveUnderscores(token.value)))
    else if kind.BinLiteral? then AsLongValue(ParseInBase(2, token.value))
    else if kind.OctLiteral? then AsLongValue(ParseInBase(8, token.value))
    else if kind.HexLiteral? then AsLongValue(ParseInBase(16, token.value))
    else if kind.DoubleLiteral? then
      var text := LexerSpec.RemoveUnderscores(token.value);
      if oracle.parses(text) then Ok(Double(ParsedFloat(text))) else Err(FormatError)
    else if kind.BoolLiteral? then
      (match ParseBool(token.value)
       case Ok(b) => Ok(Bool(b))
       case Err(e) => Err(e))
    else Ok(Null)
  }

  /** `Visit(LiteralNode)` on an `IntLiteral` as the source writes it: the text goes to `Convert.ToInt64` unchanged. */
  function IntLiteralAsWritten(token: Token): (r: Result<Value, EvalError>)
    requires token.kind.IntLiteral?
    ensures r.Ok? ==> '_' !in token.value
  {
    AsLongValue(ParseDecimal(token.value))
  }

  // ------------------------------------------------------------ conversions

  function DigitChar(d: nat): (c: char)
    requires d < 10
    ensures IsDigit(c) && DigitValue(c) == d
  {
    ('0' as int + d) as char
  }

  /** The decimal digits of a natural number, without leading zeros. */
  function NaturalText(n: nat): (s: string)
    ensures s != [] && AllDigits(10, s)
  {
    if n < 10 then [DigitChar(n)] else NaturalText(n / 10) + [DigitChar(n % 10)]
  }

  /** `long.ToString()`: a minus sign for negatives, then the digits. */
  function LongText(n: int): string {
    if n < 0 then "-" + NaturalText(-n) else NaturalText(n)
  }

  /** `ToString()` of a value; `null` gives the empty text, as string concatenation treats it. */
  function TextOf(v: Value, oracle: FloatOracle): (r: string)
    ensures v.Text? ==> r == v.s
    ensures v.Null? ==> r == []
    ensures v.Bool? ==> r == (if v.b then "True" else "False")
    ensures v.Long? && v.n >= 0 ==> r != [] && AllDigits(10, r)
    ensures v.Long? && v.n < 0 ==> |r| > 1 && r[0] == '-' && AllDigits(10, r[1..])
  {
    match v
    case Long(n) => LongText(n)
    case Double(f) => oracle.format(f)
    case Bool(b) => if b then "True" else "False"
    case Text(s) => s
    case Null => ""
  }

  /** `Convert.ToDouble(value)`: numbers convert, `true`/`false` give 1 and 0, `null` gives 0, text is parsed. */
  function AsFloat(v: Value, oracle: FloatOracle): (r: Result<FloatTerm, EvalError>)
    ensures r.Err? <==> v.Text? && !oracle.parses(v.s)
  {
    match v
    case Long(n) => Ok(FromLong(n))
    case Double(f) => Ok(f)
    case Bool(b) => Ok(FromLong(if b then 1 else 0))
    case Text(s) => if oracle.parses(s) then Ok(ParsedFloat(s)) else Err(FormatError)
    case Null => Ok(FromLong(0))
  }

  /** `Convert.ToBoolean(value)`: a number is true when non-zero, text is parsed, `null` is false. */
  function ToBoolean(v: Value, oracle: FloatOracle): (r: Result<bool, EvalError>)
    ensures v.Long? ==> r == Ok(v.n != 0)
    ensures v.Bool? ==> r == Ok(v.b)
    ensures v.Null? ==> r == Ok(false)
    ensures r.Err? ==> v.Text?
  {
    match v
    case Long(n) => Ok(n != 0)
    case Double(f) => Ok(oracle.isNonZero(f))
    case Bool(b) => Ok(b)
    case Text(s) => ParseBool(s)
    case Null => Ok(false)
  }

  /** `Visit(IdentifierNode)`: the bound value, or the identifier's own name when it is unbound. */
  function Lookup(table: Table, name: string): (v: Value)
    ensures name in table ==> v == table[name]
    ensures name !in table ==> v == Text(name)
  {
    if name in table then table[name] else Text(name)
  }

  // -------------------------------------------------------------- operators

  /** A `long` or a `double`: the operands the numeric overloads of `dynamic` `+` accept. */
  predicate IsNumber(v: Value) {
    v.Long? || v.Double?
  }

  /** `lhs + rhs` through `dynamic`: wrapping `long` addition, `double` addition, or string concatenation. */
  function Add(l: Value, r: Value, oracle: FloatOracle): (v: Result<Value, EvalError>)
    ensures l.Long? && r.Long? ==> v == Ok(Long(Wrap(l.n + r.n)))
    ensures (l.Text? || r.Text?) ==> v == Ok(Text(TextOf(l, oracle) + TextOf(r, oracle)))
    ensures v.Err? <==> !(IsNumber(l) && IsNumber(r)) && !l.Text? && !r.Text?
    ensures v.Ok? ==> ValueInRange(v.value)
  {
    if l.Long? && r.Long? then Ok(Long(Wrap(l.n + r.n)))
    else if IsNumber(l) && IsNumber(r) then
      Ok(Double(FloatBinary(Plus, if l.Long? then FromLong(l.n) else l.f, if r.Long? then FromLong(r.n) else r.f)))
    else if l.Text? || r.Text? then Ok(Text(TextOf(l, oracle) + TextOf(r, oracle)))
    else Err(BinderError)
  }

  /** The operators whose operands `Visit(BinaryOperatorNode)` converts with `Convert.ToDouble` or `(long)`. */
  predicate IsCastArithmetic(op: TokenType) {
    op.Minus? || op.Star? || op.Slash? || IsDivision(op) || op.DoubleStar?
  }

  /** `div`, `%` and `mod`: the operators that divide. */
  predicate IsDivision(op: TokenType) {
    op.Div? || op.Percent? || op.Mod?
  }

  /** The branch taken when either operand is a `double`: both go through `Convert.ToDouble`. */
  function FloatArithmetic(op: TokenType, l: Value, r: Value, oracle: FloatOracle): (v: Result<Value, EvalError>)
    requires IsCastArithmetic(op)
    ensures v.Err? <==> AsFloat(l, oracle).Err? || AsFloat(r, oracle).Err?
    ensures v.Ok? ==> ValueInRange(v.value)
    ensures v.Ok? && op.Div? ==> v.value.Long?
    ensures v.Ok? && !op.Div? ==> v.value.Double?
  {
    match AsFloat(l, oracle)
    case Err(e) => Err(e)
    case Ok(x) =>
      match AsFloat(r, oracle)
      case Err(e) => Err(e)
      case Ok(y) =>
        if op.Div? then Ok(Long(Wrap(oracle.truncate(FloatBinary(Slash, x, y)))))
        else if op.Mod? then Ok(Double(FloatBinary(Plus, FloatBinary(Percent, x, y), FloatBinary(Percent, y, y))))
        else Ok(Double(FloatBinary(op, x, y)))
  }

  /**
   * Division-like operators on two `long`s: a zero divisor throws, and so does
   * `long.MinValue` divided by -1, whose quotient does not fit.
   */
  function Division(op: TokenType, a: int, b: int): (r: Result<int, EvalError>)
    requires IsDivision(op)
    ensures r == Err(DivideByZero) <==> b == 0
    ensures r == Err(Overflow) <==> a == MinValue && b == -1
    ensures r.Ok? && op.Div? ==> r.value == TruncDiv(a, b)
    ensures r.Ok? && op.Percent? ==> r.value == TruncRem(a, b)
    ensures r.Ok? && op.Mod? ==> r.value == FloorMod(a, b)
    ensures r.Ok? && InRange(a) && InRange(b) ==> InRange(r.value)
  {
    if b == 0 then Err(DivideByZero)
    else if a == MinValue && b == -1 then Err(Overflow)
    else if op.Div? then
      (if InRange(a) && InRange(b) then TruncDivInRange(a, b); Ok(TruncDiv(a, b))
       else Ok(TruncDiv(a, b)))
    else if op.Percent? then Ok(TruncRem(a, b))
    else Ok(FloorMod(a, b))
  }

  /** `mod` on two `long`s as the source writes it: `(a % b + b) % b`, where the inner sum wraps. */
  function ModAsWritten(a: int, b: int): (r: Result<int, EvalError>)
    ensures r == Err(DivideByZero) <==> b == 0
    ensures r == Err(Overflow) <==> a == MinValue && b == -1
    ensures r.Ok? ==> Abs(r.value) < Abs(b)
  {
    if b == 0 then Err(DivideByZero)
    else if a == MinValue && b == -1 then Err(Overflow)
    else Ok(TruncRem(Wrap(TruncRem(a, b) + b), b))
  }

  /** The branch taken when neither operand is a `double`. */
  function LongArithmetic(op: TokenType, l: Value, r: Value, oracle: FloatOracle): (v: Result<Value, EvalError>)
    requires IsCastArithmetic(op)
    ensures (op.Minus? || op.Star? || IsDivision(op) || op.DoubleStar?) && !(l.Long? && r.Long?) ==> v == Err(BinderError)
    ensures op.Slash? && AsFloat(l, oracle).Ok? && !r.Long? ==> v == Err(BinderError)
    ensures l.Long? && r.Long? && op.Minus? ==> v == Ok(Long(Wrap(l.n - r.n)))
    ensures l.Long? && r.Long? && op.Star? ==> v == Ok(Long(Wrap(l.n * r.n)))
    ensures l.Long? && r.Long? && (op.Slash? || op.DoubleStar?) ==> v.Ok? && v.value.Double?
    ensures l.Long? && r.Long? && IsDivision(op) ==> v == AsLongValue(Division(op, l.n, r.n))
    ensures v.Ok? && ValueInRange(l) && ValueInRange(r) ==> ValueInRange(v.value)
  {
    if op.Slash? then
      (match AsFloat(l, oracle)
       case Err(e) => Err(e)
       case Ok(x) => if r.Long? then Ok(Double(FloatBinary(Slash, x, FromLong(r.n)))) else Err(BinderError))
    else if !(l.Long? && r.Long?) then Err(BinderError)
    else if op.DoubleStar? then Ok(Double(FloatBinary(DoubleStar, FromLong(l.n), FromLong(r.n))))
    else if op.Minus? then Ok(Long(Wrap(l.n - r.n)))
    else if op.Star? then Ok(Long(Wrap(l.n * r.n)))
    else AsLongValue(Division(op, l.n, r.n))
  }

  /** `Visit(BinaryOperatorNode)` once both operands are known; an operator it has no case for gives `null`. */
  function Arithmetic(op: TokenType, l: Value, r: Value, oracle: FloatOracle): (v: Result<Value, EvalError>)
    ensures !op.Plus? && !IsCastArithmetic(op) ==> v == Ok(Null)
    ensures v.Ok? && ValueInRange(l) && ValueInRange(r) ==> ValueInRange(v.value)
    ensures IsCastArithmetic(op) && v.Ok? ==> (v.value.Long? <==> op.Div? || (l.Long? && r.Long? && !op.Slash? && !op.DoubleStar?))
    ensures IsCastArithmetic(op) && v.Ok? ==> v.value.Long? || v.value.Double?
    ensures l.Long? && r.Long? && (op.Slash? || op.DoubleStar?) ==> v.Ok? && v.value.Double?
    ensures l.Long? && r.Long? && IsDivision(op) ==> v == AsLongValue(Division(op, l.n, r.n))
    ensures l.Long? && r.Long? && op.Minus? ==> v == Ok(Long(Wrap(l.n - r.n)))
    ensures l.Long? && r.Long? && op.Star? ==> v == Ok(Long(Wrap(l.n * r.n)))
  {
    if op.Plus? then Add(l, r, oracle)
    else if !IsCastArithmetic(op) then Ok(Null)
    else if l.Double? || r.Double? then FloatArithmetic(op, l, r, oracle)
    else LongArithmetic(op, l, r, oracle)
  }

  predicate IsComparison(op: TokenType) {
    op.Equal? || op.NotEqual? || op.Less? || op.LessOrEqual? || op.Greater? || op.GreaterOrEqual?
  }

  /** A comparison operator applied to two integers. */
  function CompareLongs(op: TokenType, a: int, b: int): bool
    requires IsComparison(op)
  {
    match op
    case Equal => a == b
    case NotEqual => a != b
    case Less => a < b
    case LessOrEqual => a <= b
    case Greater => a > b
    case GreaterOrEqual => a >= b
  }

  /**
   * `Visit(ComparisonNode)` once both operands are known: through the oracle when
   * either is a `double`, on the `long`s otherwise.  Every operator but `<=` casts
   * both operands with `(long)`; `<=` converts the left one with `Convert.ToDouble`,
   * so a `bool`, `null` or numeric text on the left is compared as a `double` with a
   * `long` on the right.  Two `long`s are compared as integers (the correction of
   * `<=`, whose source rounds both to `double` first).
   */
  function Comparison(op: TokenType, l: Value, r: Value, oracle: FloatOracle): (v: Result<Value, EvalError>)
    ensures !IsComparison(op) ==> v == Ok(Null)
    ensures IsComparison(op) && v.Ok? ==> v.value.Bool?
    ensures IsComparison(op) && l.Long? && r.Long? ==> v == Ok(Bool(CompareLongs(op, l.n, r.n)))
    ensures IsComparison(op) && !op.LessOrEqual? && !l.Double? && !r.Double? && !(l.Long? && r.Long?) ==> v == Err(BinderError)
    ensures op.LessOrEqual? && !IsNumber(l) && r.Long? ==>
      v == (match AsFloat(l, oracle)
            case Err(e) => Err(e)
            case Ok(x) => Ok(Bool(oracle.compare(LessOrEqual, x, FromLong(r.n)))))
    ensures op.LessOrEqual? && !IsNumber(l) && !IsNumber(r) && AsFloat(l, oracle).Ok? ==> v == Err(BinderError)
  {
    if !IsComparison(op) then Ok(Null)
    else if l.Double? || r.Double? then
      match AsFloat(l, oracle)
      case Err(e) => Err(e)
      case Ok(x) =>
        match AsFloat(r, oracle)
        case Err(e) => Err(e)
        case Ok(y) => Ok(Bool(oracle.compare(op, x, y)))
    else if l.Long? && r.Long? then Ok(Bool(CompareLongs(op, l.n, r.n)))
    else if op.LessOrEqual? then
      match AsFloat(l, oracle)
      case Err(e) => Err(e)
      case Ok(x) => if r.Long? then Ok(Bool(oracle.compare(LessOrEqual, x, FromLong(r.n)))) else Err(BinderError)
    else Err(BinderError)
  }

  /**
   * `<=` on two `long`s as the source writes it, `Convert.ToDouble(lhs) <= (long)rhs`:
   * both sides are rounded to `double` before comparing, which agrees with `<=`
   * while both are exactly representable.
   */
  function LessOrEqualAsWritten(a: int, b: int): (r: bool)
    ensures Abs(a) <= TwoTo53 && Abs(b) <= TwoTo53 ==> (r <==> a <= b)
  {
    ToDouble(a) <= ToDouble(b)
  }

  /**
   * `Visit(ComparisonNode)` as the source writes it: the same as `Comparison` except
   * that `<=` on two `long`s compares `Convert.ToDouble(lhs) <= (long)rhs`, so both
   * sides are rounded to `double` first.
   */
  function ComparisonAsWritten(op: TokenType, l: Value, r: Value, oracle: FloatOracle): (v: Result<Value, EvalError>)
    ensures !IsComparison(op) ==> v == Ok(Null)
    ensures IsComparison(op) && v.Ok? ==> v.value.Bool?
    ensures op.LessOrEqual? && l.Long? && r.Long? && Abs(l.n) <= TwoTo53 && Abs(r.n) <= TwoTo53 ==>
      v == Ok(Bool(l.n <= r.n))
  {
    if !IsComparison(op) then Ok(Null)
    else if l.Double? || r.Double? then
      match AsFloat(l, oracle)
      case Err(e) => Err(e)
      case Ok(x) =>
        match AsFloat(r, oracle)
        case Err(e) => Err(e)
        case Ok(y) => Ok(Bool(oracle.compare(op, x, y)))
    else if op.LessOrEqual? then
      match AsFloat(l, oracle)
      case Err(e) => Err(e)
      case Ok(x) =>
        if !r.Long? then Err(BinderError)
        else if l.Long? then Ok(Bool(LessOrEqualAsWritten(l.n, r.n)))
        else Ok(Bool(oracle.compare(LessOrEqual, x, FromLong(r.n))))
    else if l.Long? && r.Long? then Ok(Bool(CompareLongs(op, l.n, r.n)))
    else Err(BinderError)
  }

  /** `Visit(PrefixOperatorNode)` once the operand is known; `+` and other kinds return it unchanged. */
  function Prefix(op: TokenType, v: Value): (r: Result<Value, EvalError>)
    ensures !op.Not? && !op.Minus? && !op.BitwiseNot? ==> r == Ok(v)
    ensures op.Minus? && v.Long? ==> r == Ok(Long(Wrap(-v.n)))
    ensures op.BitwiseNot? && v.Long? ==> r == Ok(Long(-v.n - 1))
    ensures op.Not? && v.Bool? ==> r == Ok(Bool(!v.b))
    ensures r.Err? ==> r.error == BinderError
    ensures r.Ok? && ValueInRange(v) ==> ValueInRange(r.value)
  {
    if op.Not? then (if v.Bool? then Ok(Bool(!v.b)) else Err(BinderError))
    else if op.Minus? then
      (match v
       case Long(n) => Ok(Long(Wrap(-n)))
       case Double(f) => Ok(Double(FloatNegate(f)))
       case _ => Err(BinderError))
    else if op.BitwiseNot? then (if v.Long? then Ok(Long(-v.n - 1)) else Err(BinderError))
    else Ok(v)
  }

  predicate IsShift(op: TokenType) {
    op.LeftShift? || op.RightShift?
  }

  predicate IsBitwiseLogic(op: TokenType) {
    op.BitwiseAnd? || op.BitwiseOr? || op.BitwiseXor?
  }

  /**
   * `Visit(BitwiseOperatorNode)` once both operands are known: `&`, `|`, `^` on two
   * `long`s or two `bool`s; `<<` and `>>` have no `(long, long)` overload, so the
   * binder always fails; other kinds give `null`.
   */
  function BitwiseOp(op: TokenType, l: Value, r: Value): (v: Result<Value, EvalError>)
    ensures IsShift(op) ==> v == Err(BinderError)
    ensures !IsBitwiseLogic(op) && !IsShift(op) ==> v == Ok(Null)
    ensures IsBitwiseLogic(op) ==>
      (v.Ok? <==> (l.Long? && r.Long?) || (l.Bool? && r.Bool?))
    ensures op.BitwiseAnd? && l.Bool? && r.Bool? ==> v == Ok(Bool(l.b && r.b))
    ensures op.BitwiseOr? && l.Bool? && r.Bool? ==> v == Ok(Bool(l.b || r.b))
    ensures op.BitwiseXor? && l.Bool? && r.Bool? ==> v == Ok(Bool(l.b != r.b))
    ensures v.Ok? ==> ValueInRange(v.value)
  {
    if IsShift(op) then Err(BinderError)
    else if op.BitwiseAnd? then BitwiseOnValues(AndBits, l, r)
    else if op.BitwiseOr? then BitwiseOnValues(OrBits, l, r)
    else if op.BitwiseXor? then BitwiseOnValues(XorBits, l, r)
    else Ok(Null)
  }

  /** The `(long, long)` and `(bool, bool)` overloads of one bitwise operator; any other pair fails to bind. */
  function BitwiseOnValues(kind: BitwiseKind, l: Value, r: Value): Result<Value, EvalError> {
    if l.Long? && r.Long? then Ok(Long(Bitwise(kind, l.n, r.n)))
    else if l.Bool? && r.Bool? then Ok(Bool(CombineBit(kind, l.b, r.b)))
    else Err(BinderError)
  }

  /**
   * `Visit(LogicalOperatorNode)` once both operands are known.  `dynamic` `&&`
   * returns a `false` left operand as it is and otherwise combines it with the
   * right one; `||` does the same with `true`.  `And` is `&&`, any other kind `||`.
   */
  function Logical(op: TokenType, l: Value, r: Value): (v: Result<Value, EvalError>)
    ensures v.Ok? <==> l.Bool? && (l.b == (!op.And?) || r.Bool?)
    ensures v.Ok? ==> v.value.Bool?
    ensures v.Ok? && op.And? ==> v.value.b == (l.b && r.b)
    ensures v.Ok? && !op.And? ==> v.value.b == (l.b || r.b)
  {
    if !l.Bool? then Err(BinderError)
    else if l.b == (!op.And?) then Ok(l)
    else if r.Bool? then Ok(r)
    else Err(BinderError)
  }

  // -------------------------------------------------------------- the tree

  /** The nodes whose `Visit` evaluates a left and a right operand. */
  predicate HasOperands(n: Ast.Node) {
    n.BinaryOperatorNode? || n.BitwiseOperatorNode? || n.ComparisonNode? || n.LogicalOperatorNode? || n.AssignmentNode?
  }

  /** The key `Visit(AssignmentNode)` writes: the left operand's value as text, or the left token's text when it is `null`. */
  function AssignmentKey(left: Ast.Node, leftValue: Value, oracle: FloatOracle): (key: string)
    ensures leftValue.Null? ==> key == left.token.value
    ensures leftValue.Text? ==> key == leftValue.s
    ensures !leftValue.Null? ==> key == TextOf(leftValue, oracle)
  {
    if leftValue.Null? then left.token.value else TextOf(leftValue, oracle)
  }

  /** The operator a node with operands applies to their values (`Visit` for every such node but `AssignmentNode`). */
  function Operate(node: Ast.Node, l: Value, r: Value, oracle: FloatOracle): (v: Result<Value, EvalError>)
    requires HasOperands(node) && !node.AssignmentNode?
    ensures v.Ok? && ValueInRange(l) && ValueInRange(r) ==> ValueInRange(v.value)
  {
    match node
    case BinaryOperatorNode(t, _, _) => Arithmetic(t.kind, l, r, oracle)
    case BitwiseOperatorNode(t, _, _) => BitwiseOp(t.kind, l, r)
    case ComparisonNode(t, _, _) => Comparison(t.kind, l, r, oracle)
    case LogicalOperatorNode(t, _, _) => Logical(t.kind, l, r)
  }

  /** `Eval(root)` / `Visit(node)`: the value of a tree, evaluated depth first, left to right. */
  function Evaluate(node: Ast.Node, table: Table, oracle: FloatOracle): (r: Outcome)
    decreases node, 1
    ensures node.LiteralNode? || node.IdentifierNode? ==> r.table == table
    ensures node.IdentifierNode? ==> r.result == Ok(Lookup(table, node.token.value))
    ensures r.result.Ok? && node.ComparisonNode? && IsComparison(node.token.kind) ==> r.result.value.Bool?
    ensures r.result.Ok? && node.LogicalOperatorNode? ==> r.result.value.Bool?
    ensures r.result.Ok? && node.BinaryOperatorNode? && node.token.kind.Div? ==> r.result.value.Long?
    ensures r.result.Ok? && node.BinaryOperatorNode? && (node.token.kind.Slash? || node.token.kind.DoubleStar?) ==>
      r.result.value.Double?
    ensures r.result.Ok? && node.AssignmentNode? ==>
      var operands := EvalOperands(node, table, oracle);
      operands.result.Ok? && r.result.value == operands.result.value.1
      && r.table == operands.table[AssignmentKey(node.left, operands.result.value.0, oracle) := r.result.value]
  {
    match node
    case LiteralNode(t) => Outcome(LiteralValue(t, oracle), table)
    case IdentifierNode(t) => Outcome(Ok(Lookup(table, t.value)), table)
    case PrefixOperatorNode(t, e) =>
      var inner := Evaluate(e, table, oracle);
      (match inner.result
       case Err(_) => inner
       case Ok(v) => Outcome(Prefix(t.kind, v), inner.table))
    case TernaryNode(_, test, thenExpr, elseExpr) =>
      var cond := Evaluate(test, table, oracle);
      (match cond.result
       case Err(_) => cond
       case Ok(v) =>
         match ToBoolean(v, oracle)
         case Err(e) => Outcome(Err(e), cond.table)
         case Ok(c) => if c then Evaluate(thenExpr, cond.table, oracle) else Evaluate(elseExpr, cond.table, oracle))
    case AssignmentNode(_, left, _) =>
      var operands := EvalOperands(node, table, oracle);
      (match operands.result
       case Err(e) => Outcome(Err(e), operands.table)
       case Ok(values) => Outcome(Ok(values.1), operands.table[AssignmentKey(left, values.0, oracle) := values.1]))
    case _ =>
      var operands := EvalOperands(node, table, oracle);
      match operands.result
      case Err(e) => Outcome(Err(e), operands.table)
      case Ok(values) => Outcome(Operate(node, values.0, values.1, oracle), operands.table)
  }

  /** The left operand, then the right one in the table the left one left behind. */
  function EvalOperands(node: Ast.Node, table: Table, oracle: FloatOracle): (r: Operands)
    requires HasOperands(node)
    decreases node, 0
    ensures var left := Evaluate(node.left, table, oracle);
      left.result.Err? ==> r == Operands(Err(left.result.error), left.table)
    ensures var left := Evaluate(node.left, table, oracle);
      r.result.Ok? ==>
        left.result == Ok(r.result.value.0) && Evaluate(node.right, left.table, oracle) == Outcome(Ok(r.result.value.1), r.table)
  {
    var left := Evaluate(node.left, table, oracle);
    match left.result
    case Err(e) => Operands(Err(e), left.table)
    case Ok(l) =>
      var right := Evaluate(node.right, left.table, oracle);
      match right.result
      case Err(e) => Operands(Err(e), right.table)
      case Ok(r) => Operands(Ok((l, r)), right.table)
  }
}
