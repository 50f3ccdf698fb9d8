/**
 * What the lexer of HLang/Lexer/Lexer.cs computes, stated as functions over the
 * characters that remain to be read.
 *
 * The lexer object reads one character at a time; the functions here describe
 * the same scanning with the unread characters as a sequence `s`, the current
 * line and the current column.  `PeekChar` and `Drop1` are the source's
 * `Peek()` and `Next()` on that sequence: at end of input both see `EofChar`,
 * and `Next()` still advances the column.
 */
module LexerSpec {
  import opened Wrappers
  import opened CharHelper
  import opened Tokens

  /** The indentation style the lexer compares leading blanks against (`IndentMarker` in the source). */
  datatype IndentMarker = Space | Tab | Unset

  /** The lexer's `SyntaxError`s, with the line and column the source reports. */
  datatype LexError =
    | InvalidInteger(text: string, line: int, column: int)
    | InvalidDouble(text: string, line: int, column: int)
    | InconsistentIndent(expected: IndentMarker, line: int, column: int)

  const KeywordMap: map<string, TokenType> := map["mod" := Mod, "div" := Div]

  const OperatorMap: map<string, TokenType> :=
    map[
      "+" := Plus, "-" := Minus, "*" := Star, "**" := DoubleStar, "/" := Slash,
      "%" := Percent, "=" := Assign, "<" := Less, "<=" := LessOrEqual,
      ">" := Greater, ">=" := GreaterOrEqual, "==" := Equal, "!=" := NotEqual,
      "?" := Quest, ":" := Colon
    ]

  /** Length of the `0x`/`0b`/`0o` prefix that base-prefixed literals subtract from the column. */
  const BasePrefixLength: int := 2

  function PeekChar(s: seq<char>): char {
    if s == [] then EofChar else s[0]
  }

  function Drop1(s: seq<char>): seq<char> {
    if s == [] then [] else s[1..]
  }

  /** The length of the longest prefix of `s` whose characters all satisfy `p`. */
  function Span(s: seq<char>, p: char -> bool): (n: nat)
    ensures n <= |s|
  {
    if s == [] || !p(s[0]) then 0 else 1 + Span(s[1..], p)
  }

  /** Every character of the `Span` satisfies `p`, and the one after it (if any) does not. */
  lemma {:induction false} SpanMaximal(s: seq<char>, p: char -> bool)
    ensures forall i :: 0 <= i < Span(s, p) ==> p(s[i])
    ensures Span(s, p) < |s| ==> !p(s[Span(s, p)])
  {
    if s != [] && p(s[0]) {
      SpanMaximal(s[1..], p);
      assert forall i :: 1 <= i < Span(s, p) ==> s[i] == s[1..][i - 1];
    }
  }

  /** A prefix whose characters satisfy `p` and that cannot be extended is the `Span`. */
  lemma {:induction false} SpanExact(s: seq<char>, p: char -> bool, k: nat)
    requires k <= |s|
    requires forall i :: 0 <= i < k ==> p(s[i])
    requires k < |s| ==> !p(s[k])
    ensures Span(s, p) == k
  {
    if k > 0 {
      SpanExact(s[1..], p, k - 1);
    }
  }

  predicate EndsWithUnderscore(s: string) {
    |s| > 0 && s[|s| - 1] == '_'
  }

  /** `s.Replace("_", "")` */
  function RemoveUnderscores(s: string): (r: string)
    ensures '_' !in r
    ensures forall c :: c in r ==> c in s
    ensures |r| <= |s|
  {
    if s == [] then []
    else if s[0] == '_' then RemoveUnderscores(s[1..])
    else [s[0]] + RemoveUnderscores(s[1..])
  }

  /** `BigInteger.TryParse` on the texts the lexer hands it: a non-empty run of decimal digits. */
  predicate IsBigIntegerText(s: string) {
    |s| > 0 && forall i :: 0 <= i < |s| ==> IsDigit(s[i])
  }

  /** One scanned token, the characters left after it, and the column the lexer is at. */
  datatype Scan = Scan(token: Token, rest: seq<char>, column: int)

  /** `ParseIdentifier`: the maximal run of identifier characters; `mod` and `div` are keywords. */
  function ScanIdentifier(s: seq<char>, line: int, column: int): (r: Scan)
    ensures var n := |r.token.value|;
      && n <= |s| && r.token.value == s[..n] && r.rest == s[n..]
      && r.column == column + n
      && r.token == Token(r.token.kind, s[..n], line, column + n)
    ensures r.token.kind == (if r.token.value == "mod" then Mod else if r.token.value == "div" then Div else Identifier)
  {
    var n := Span(s, IsIdentifier);
    var value := s[..n];
    var kind := if value in KeywordMap then KeywordMap[value] else Identifier;
    Scan(Token(kind, value, line, column + n), s[n..], column + n)
  }

  /** The identifier is the longest run of identifier characters at the head of `s`. */
  lemma ScanIdentifierMaximal(s: seq<char>, line: int, column: int)
    ensures var n := |ScanIdentifier(s, line, column).token.value|;
      (forall i :: 0 <= i < n ==> IsIdentifier(s[i])) && (n < |s| ==> !IsIdentifier(s[n]))
  {
    SpanMaximal(s, IsIdentifier);
  }

  predicate BaseDigit(numberBase: int, c: char) {
    (numberBase == 2 && IsBin(c)) || (numberBase == 8 && IsOctal(c)) || (numberBase == 16 && IsHex(c))
  }

  function BaseDigitOf(numberBase: int): char -> bool {
    c => BaseDigit(numberBase, c)
  }

  /** `ParseInt(base)`, entered after `0x`/`0b`/`0o`: the maximal run of digits valid in the base. */
  function ScanBaseInt(numberBase: int, s: seq<char>, line: int, column: int): (r: Scan)
    ensures var n := |r.token.value|;
      && n <= |s| && r.token.value == s[..n] && r.rest == s[n..]
      && r.column == column + n
      && r.token.line == line && r.token.column == column - BasePrefixLength
    ensures r.token.kind == (if numberBase == 2 then BinLiteral else if numberBase == 8 then OctLiteral else HexLiteral)
  {
    var n := Span(s, BaseDigitOf(numberBase));
    var value := s[..n];
    var kind := if numberBase == 2 then BinLiteral else if numberBase == 8 then OctLiteral else HexLiteral;
    Scan(Token(kind, value, line, column + n - |value| - BasePrefixLength), s[n..], column + n)
  }

  /** The digits are the longest run at the head of `s` that is valid in the base. */
  lemma ScanBaseIntMaximal(numberBase: int, s: seq<char>, line: int, column: int)
    ensures var n := |ScanBaseInt(numberBase, s, line, column).token.value|;
      (forall i :: 0 <= i < n ==> BaseDigit(numberBase, s[i])) && (n < |s| ==> !BaseDigit(numberBase, s[n]))
  {
    SpanMaximal(s, BaseDigitOf(numberBase));
  }

  predicate IsSign(c: char) { c == '+' || c == '-' }

  /** The test of `ParseReal`'s loop: a sign is taken only when the previous character taken was not one. */
  predicate RealAccepts(c: char, afterSign: bool) {
    IsUniqueRealLiteral(c) || IsNumberLiteral(c) || (IsSign(c) && !afterSign)
  }

  /** The sign flag when position `i` of `s` is checked: whether the character before it was a sign. */
  function SignBefore(s: seq<char>, i: nat, afterSign: bool): bool
    requires i <= |s|
  {
    if i == 0 then afterSign else IsSign(s[i - 1])
  }

  /** How many characters `ParseReal`'s loop takes, starting with the given sign flag. */
  function RealSpan(s: seq<char>, afterSign: bool): (n: nat)
    ensures n <= |s|
  {
    if s == [] || !RealAccepts(s[0], afterSign) then 0 else 1 + RealSpan(s[1..], IsSign(s[0]))
  }

  /** Every character `ParseReal`'s loop takes passes its test, and the one that stops it fails the test. */
  lemma {:induction false} RealSpanMaximal(s: seq<char>, afterSign: bool)
    ensures forall i :: 0 <= i < RealSpan(s, afterSign) ==> RealAccepts(s[i], SignBefore(s, i, afterSign))
    ensures RealSpan(s, afterSign) < |s| ==> !RealAccepts(s[RealSpan(s, afterSign)], SignBefore(s, RealSpan(s, afterSign), afterSign))
  {
    if s != [] && RealAccepts(s[0], afterSign) {
      RealSpanMaximal(s[1..], IsSign(s[0]));
      assert forall i :: 1 <= i <= RealSpan(s, afterSign) && i < |s| ==>
        s[i] == s[1..][i - 1] && SignBefore(s, i, afterSign) == SignBefore(s[1..], i - 1, IsSign(s[0]));
    }
  }

  lemma {:induction false} RealSpanExact(s: seq<char>, afterSign: bool, k: nat)
    requires k <= |s|
    requires forall i :: 0 <= i < k ==> RealAccepts(s[i], SignBefore(s, i, afterSign))
    requires k < |s| ==> !RealAccepts(s[k], SignBefore(s, k, afterSign))
    ensures RealSpan(s, afterSign) == k
  {
    if k > 0 {
      assert RealAccepts(s[0], SignBefore(s, 0, afterSign));
      RealSpanExact(s[1..], IsSign(s[0]), k - 1);
    } else if s != [] {
      assert !RealAccepts(s[0], afterSign);
    }
  }

  /** The check at the end of `ParseReal`: `text` ends at `endColumn` and must parse as a double once `_` is removed. */
  function FinishReal(text: string, rest: seq<char>, line: int, endColumn: int, parsesAsDouble: string -> bool): (r: Result<Scan, LexError>)
    ensures r.Ok? <==> !EndsWithUnderscore(text) && parsesAsDouble(RemoveUnderscores(text))
  {
    if !EndsWithUnderscore(text) && parsesAsDouble(RemoveUnderscores(text)) then
      Ok(Scan(Token(DoubleLiteral, text, line, endColumn - |text|), rest, endColumn))
    else
      Err(InvalidDouble(text, line, endColumn))
  }

  /** The check at the end of `ParseNumber`'s decimal case: `BigInteger.TryParse` once `_` is removed. */
  function FinishInteger(value: string, rest: seq<char>, line: int, endColumn: int): (r: Result<Scan, LexError>)
    ensures r.Ok? <==> !EndsWithUnderscore(value) && IsBigIntegerText(RemoveUnderscores(value))
    ensures r.Ok? ==> r.value == Scan(Token(IntLiteral, value, line, endColumn - |value|), rest, endColumn)
    ensures r.Err? ==> r.error == InvalidInteger(value, line, endColumn)
  {
    if !EndsWithUnderscore(value) && IsBigIntegerText(RemoveUnderscores(value)) then
      Ok(Scan(Token(IntLiteral, value, line, endColumn - |value|), rest, endColumn))
    else
      Err(InvalidInteger(value, line, endColumn))
  }

  /**
   * `ParseReal(parsed)`: takes one character unconditionally (the `.`, `e` or `E`
   * that sent the scanner here), then the `RealSpan`; the whole text is checked by
   * `parsesAsDouble`, the source's `double.TryParse`, after removing `_`.
   */
  function ScanReal(parsed: string, s: seq<char>, line: int, column: int, parsesAsDouble: string -> bool): (r: Result<Scan, LexError>)
    ensures r.Ok? ==> |r.value.rest| <= |Drop1(s)| && r.value.token.kind == DoubleLiteral && r.value.token.line == line
    ensures r.Ok? ==> r.value.token.column == column - |parsed| && parsed <= r.value.token.value
  {
    var s1 := Drop1(s);
    var n := RealSpan(s1, false);
    FinishReal(parsed + [PeekChar(s)] + s1[..n], s1[n..], line, column + 1 + n, parsesAsDouble)
  }

  /** `ScanReal` once its first character and the characters its loop takes are known. */
  lemma ScanRealSpanning(parsed: string, s: seq<char>, first: char, tail: string, line: int, column: int, parsesAsDouble: string -> bool)
    requires first == PeekChar(s) && |tail| == RealSpan(Drop1(s), false) && tail == Drop1(s)[..|tail|]
    ensures ScanReal(parsed, s, line, column, parsesAsDouble)
         == FinishReal(parsed + ([first] + tail), Drop1(s)[|tail|..], line, column + 1 + |tail|, parsesAsDouble)
  {
    assert parsed + [first] + tail == parsed + ([first] + tail);
  }

  /** The base a `0x`, `0b` or `0o` prefix selects, in either case; `ParseNumber` only calls this after `IsBasePrefix`. */
  function PrefixBase(c: char): int {
    var lower := ToLower(c);
    if lower == 'x' then 16 else if lower == 'b' then 2 else 8
  }

  /** `ParseNumber`: a base-prefixed integer, a decimal integer, or (on `.`, `e`, `E`) a real. */
  function ScanNumber(s: seq<char>, line: int, column: int, parsesAsDouble: string -> bool): (r: Result<Scan, LexError>)
    ensures r.Ok? ==> |r.value.rest| < |s|
  {
    var c := PeekChar(s);
    var s1 := Drop1(s);
    if c == '0' && IsBasePrefix(PeekChar(s1)) then
      Ok(ScanBaseInt(PrefixBase(s1[0]), s1[1..], line, column + 2))
    else if c == '.' then
      ScanReal([c], s1, line, column + 1, parsesAsDouble)
    else
      ScanDecimal(c, s1, line, column + 1, parsesAsDouble)
  }

  /** `ScanNumber` by the first character: which of the three scans it hands the rest to. */
  lemma ScanNumberCases(s: seq<char>, line: int, column: int, parsesAsDouble: string -> bool)
    requires s != []
    ensures var r := ScanNumber(s, line, column, parsesAsDouble);
      if s[0] == '0' && IsBasePrefix(PeekChar(s[1..])) then
        r == Ok(ScanBaseInt(PrefixBase(s[1]), s[2..], line, column + 2))
      else if s[0] == '.' then
        r == ScanReal(['.'], s[1..], line, column + 1, parsesAsDouble)
      else
        r == ScanDecimal(s[0], s[1..], line, column + 1, parsesAsDouble)
  {
    if s[0] == '0' && IsBasePrefix(PeekChar(s[1..])) {
      assert s[1..][1..] == s[2..];
    }
  }

  /** The decimal case of `ParseNumber`, after its first character `first`. */
  function ScanDecimal(first: char, s: seq<char>, line: int, column: int, parsesAsDouble: string -> bool): (r: Result<Scan, LexError>)
    ensures r.Ok? ==> |r.value.rest| <= |s|
    ensures r.Ok? && r.value.token.kind == IntLiteral ==>
      var n := Span(s, IsNumberLiteral);
      && r.value.token == Token(IntLiteral, [first] + s[..n], line, column - 1)
      && r.value.rest == s[n..] && r.value.column == column + n
    ensures var n := Span(s, IsNumberLiteral);
      r.Ok? && r.value.token.kind != IntLiteral <==> n < |s| && IsUniqueRealLiteral(s[n]) && r.Ok?
  {
    var n := Span(s, IsNumberLiteral);
    var value := [first] + s[..n];
    if n < |s| && IsUniqueRealLiteral(s[n]) then
      ScanReal(value, s[n..], line, column + n, parsesAsDouble)
    else
      FinishInteger(value, s[n..], line, column + n)
  }

  predicate InString(c: char) { c != '"' && c != '\n' }

  /**
   * `ParseString`, entered after the opening quote: the characters up to the next
   * `"` or newline, then one more `Next()` that is not checked.
   */
  function ScanString(s: seq<char>, line: int, column: int): (r: Scan)
    ensures var n := |r.token.value|;
      && n <= |s| && r.token.value == s[..n] && r.rest == Drop1(s[n..])
      && r.column == column + n + 1
      && r.token == Token(StringLiteral, s[..n], line, column + 1)
  {
    var n := Span(s, InString);
    var value := s[..n];
    var endColumn := column + n + 1;
    Scan(Token(StringLiteral, value, line, endColumn - |value|), Drop1(s[n..]), endColumn)
  }

  /** The literal's text runs up to the first `"` or newline, which the scan then skips. */
  lemma ScanStringMaximal(s: seq<char>, line: int, column: int)
    ensures var n := |ScanString(s, line, column).token.value|;
      (forall i :: 0 <= i < n ==> InString(s[i])) && (n < |s| ==> !InString(s[n]))
  {
    SpanMaximal(s, InString);
  }

  predicate IsIndentChar(c: char) { c == '\t' || c == ' ' }

  predicate Mismatch(c: char, style: IndentMarker) {
    (c == '\t' && style == Space) || (c == ' ' && style == Tab)
  }

  function IndentAcceptor(style: IndentMarker): char -> bool {
    c => IsIndentChar(c) && !Mismatch(c, style)
  }

  /** `GetIndentDepth`, entered after a newline: the number of blanks, or an error at a blank of the wrong kind. */
  function IndentDepth(s: seq<char>, style: IndentMarker, line: int, column: int): (r: Result<nat, LexError>)
    ensures r.Ok? ==> r.value <= |s|
  {
    var n := Span(s, IndentAcceptor(style));
    if n < |s| && IsIndentChar(s[n]) then Err(InconsistentIndent(style, line, column + n)) else Ok(n)
  }

  /**
   * The depth counts the blanks at the head of `s`, all of the lexer's indent style;
   * a blank of the other kind inside that run is an error at its column.
   */
  lemma IndentDepthMeaning(s: seq<char>, style: IndentMarker, line: int, column: int)
    ensures var r := IndentDepth(s, style, line, column);
      r.Ok? ==>
        (forall i :: 0 <= i < r.value ==> IsIndentChar(s[i]) && !Mismatch(s[i], style))
        && (r.value == |s| || !IsIndentChar(s[r.value]))
    ensures var r := IndentDepth(s, style, line, column);
      r.Err? ==> exists k :: 0 <= k < |s| && Mismatch(s[k], style) && r.error == InconsistentIndent(style, line, column + k)
  {
    SpanMaximal(s, IndentAcceptor(style));
  }

  /** The lexer between two iterations of `Start`'s loop. */
  datatype LexState = LexState(rest: seq<char>, line: int, column: int, prevDepth: int, totalIndent: int, tokens: seq<Token>)

  datatype Step = Continue(next: LexState) | Halt(error: LexError) | Stuck

  /** A letter or `_`: an identifier or keyword. */
  function StepIdentifier(st: LexState): (r: Step)
    ensures r.Continue? && |r.next.rest| <= |st.rest|
  {
    var sc := ScanIdentifier(st.rest, st.line, st.column);
    Continue(st.(rest := sc.rest, column := sc.column, tokens := st.tokens + [sc.token]))
  }

  /** A digit: a number literal, or the lexer's `SyntaxError`. */
  function StepNumber(st: LexState, parsesAsDouble: string -> bool): (r: Step)
    requires st.rest != []
    ensures r.Continue? ==> |r.next.rest| < |st.rest|
  {
    match ScanNumber(st.rest, st.line, st.column, parsesAsDouble)
    case Ok(sc) => Continue(st.(rest := sc.rest, column := sc.column, tokens := st.tokens + [sc.token]))
    case Err(e) => Halt(e)
  }

  /** A newline: the indentation of the next line decides one `Indent` or `Dedent`. */
  function StepNewline(st: LexState, style: IndentMarker): (r: Step)
    requires st.rest != []
    ensures r.Continue? ==> |r.next.rest| < |st.rest|
  {
    match IndentDepth(st.rest[1..], style, st.line, st.column + 1)
    case Err(e) => Halt(e)
    case Ok(depth) =>
      var deeper := depth > st.prevDepth;
      Continue(LexState(st.rest[1 + depth..], st.line + 1, 0, depth,
                        st.totalIndent + (if deeper then 1 else -1),
                        st.tokens + [StructuralToken(if deeper then Indent else Dedent)]))
  }

  /** `StepNewline` once the depth of the new line is known. */
  lemma NewlineStep(st: LexState, style: IndentMarker, depth: nat)
    requires st.rest != [] && IndentDepth(st.rest[1..], style, st.line, st.column + 1) == Ok(depth)
    ensures var deeper := depth > st.prevDepth;
      StepNewline(st, style)
        == Continue(LexState(st.rest[1 + depth..], st.line + 1, 0, depth, st.totalIndent + (if deeper then 1 else -1),
                             st.tokens + [StructuralToken(if deeper then Indent else Dedent)]))
  {
  }

  /** A `"`: a string literal. */
  function StepString(st: LexState): (r: Step)
    requires st.rest != []
    ensures r.Continue? && |r.next.rest| < |st.rest|
  {
    var sc := ScanString(st.rest[1..], st.line, st.column + 1);
    Continue(st.(rest := sc.rest, column := sc.column, tokens := st.tokens + [sc.token]))
  }

  /**
   * Anything else: the longest operator of one or two characters.  A character that
   * starts no operator is pushed back and the column restored, so the loop never ends.
   */
  function StepOperator(st: LexState): (r: Step)
    requires st.rest != []
    ensures r.Continue? ==> |r.next.rest| < |st.rest|
    ensures r.Stuck? <==> [st.rest[0]] !in OperatorMap
    ensures r.Continue? && |st.rest| >= 2 && [st.rest[0], st.rest[1]] in OperatorMap ==>
      r.next == st.(rest := st.rest[2..], column := st.column + 2,
                    tokens := st.tokens + [Token(OperatorMap[[st.rest[0], st.rest[1]]], [st.rest[0], st.rest[1]], st.line, st.column)])
    ensures r.Continue? && !(|st.rest| >= 2 && [st.rest[0], st.rest[1]] in OperatorMap) ==>
      r.next == st.(rest := st.rest[1..], column := st.column + 1,
                    tokens := st.tokens + [Token(OperatorMap[[st.rest[0]]], [st.rest[0]], st.line, st.column)])
  {
    var c := st.rest[0];
    if [c] in OperatorMap then
      var two := [c, PeekChar(st.rest[1..])];
      var lexeme := if two in OperatorMap then two else [c];
      var endColumn := st.column + |lexeme|;
      assert |lexeme| == 2 ==> |st.rest| >= 2 by { OperatorMapHasNoEofChar(c); }
      Continue(st.(rest := st.rest[|lexeme|..], column := endColumn,
                   tokens := st.tokens + [Token(OperatorMap[lexeme], lexeme, st.line, endColumn - |lexeme|)]))
    else
      Stuck
  }

  /** One iteration of `Start`'s loop, which looks at the next character. */
  function LexStep(st: LexState, parsesAsDouble: string -> bool, style: IndentMarker): (r: Step)
    requires st.rest != []
    ensures r.Continue? ==> |r.next.rest| < |st.rest|
    ensures r.Continue? ==> st.tokens <= r.next.tokens && |r.next.tokens| <= |st.tokens| + 1
  {
    var c := st.rest[0];
    if IsLetter(c) || c == '_' then StepIdentifier(st)
    // `Peek()` here sees the same character again, so the second disjunct never holds.
    else if IsDigit(c) || (c == '.' && IsDigit(PeekChar(st.rest))) then StepNumber(st, parsesAsDouble)
    else if c == '\n' then StepNewline(st, style)
    else if c == '"' then StepString(st)
    else if IsWhiteSpace(c) then Continue(st.(rest := st.rest[1..], column := st.column + 1))
    else StepOperator(st)
  }

  lemma OperatorMapHasNoEofChar(c: char)
    ensures [c, EofChar] !in OperatorMap
  {
  }

  /** `n` `Dedent` tokens. */
  function Dedents(n: nat): (r: seq<Token>)
    ensures |r| == n && forall i :: 0 <= i < n ==> r[i] == StructuralToken(Dedent)
  {
    if n == 0 then [] else Dedents(n - 1) + [StructuralToken(Dedent)]
  }

  /** The indentation levels still open: a negative balance closes nothing. */
  function OpenIndents(totalIndent: int): nat {
    if totalIndent > 0 then totalIndent else 0
  }

  /** How `Start` ends: the token list it leaves behind, and why it stopped. */
  datatype LexOutcome =
    | Finished(tokens: seq<Token>)
    | Failed(tokens: seq<Token>, error: LexError)
    | Stalled(tokens: seq<Token>, line: int, column: int)

  /** What end of input appends: a `Dedent` per indentation level still open, then `EndOfStream` at the position reached. */
  function Closing(totalIndent: int, line: int, column: int): (r: seq<Token>)
    ensures |r| == OpenIndents(totalIndent) + 1
    ensures r[|r| - 1] == Token(EndOfStream, "", line, column)
    ensures forall i :: 0 <= i < |r| - 1 ==> r[i] == StructuralToken(Dedent)
  {
    Dedents(OpenIndents(totalIndent)) + [Token(EndOfStream, "", line, column)]
  }

  /**
   * `Start`'s loop from a given state.  At end of input it drains the positive
   * indentation balance as `Dedent`s and appends one `EndOfStream`; a
   * `SyntaxError` (caught in a non-DEBUG build) leaves the tokens as they are.
   */
  function LexFrom(st: LexState, parsesAsDouble: string -> bool, style: IndentMarker): (r: LexOutcome)
    decreases |st.rest|
    ensures st.tokens <= r.tokens
  {
    if st.rest == [] then
      Finished(st.tokens + Closing(st.totalIndent, st.line, st.column))
    else
      match LexStep(st, parsesAsDouble, style)
      case Continue(next) => LexFrom(next, parsesAsDouble, style)
      case Halt(e) => Failed(st.tokens, e)
      case Stuck => Stalled(st.tokens, st.line, st.column)
  }

  /** A fresh lexer on `text`: line 0, column 0, and `_indentStyle` at its default, `Space`. */
  function Lex(text: seq<char>, parsesAsDouble: string -> bool): LexOutcome {
    LexFrom(LexState(text, 0, 0, 0, 0, []), parsesAsDouble, Space)
  }
}
