/**
 * Properties of the lexer's scanning functions: how a finished run ends, which
 * characters stop it, and what a newline does with the indentation.
 */
module LexerProps {
  import opened Wrappers
  import opened Tokens
  import opened CharHelper
  import opened LexerSpec
  import ParserProps

  /** A character `Start` has no branch for: not a letter, `_`, digit, newline, quote or blank, and no operator. */
  predicate Unscannable(c: char) {
    !IsLetter(c) && c != '_' && !IsDigit(c) && c != '\n' && c != '"' && !IsWhiteSpace(c) && [c] !in OperatorMap
  }

  /** At a character no branch accepts, the lexer stops where it is, with the tokens it has. */
  lemma UnscannableStalls(st: LexState, p: string -> bool, style: IndentMarker)
    requires st.rest != [] && Unscannable(st.rest[0])
    ensures LexFrom(st, p, style) == Stalled(st.tokens, st.line, st.column)
  {
    assert LexStep(st, p, style) == Stuck;
  }

  /** `!`, `^`, `&`, `|`, `~`, `(` and `)` start no token, so `!=` and the bitwise and grouping tokens never appear. */
  lemma UnlistedOperatorsStall()
    ensures Unscannable('!') && Unscannable('^') && Unscannable('&') && Unscannable('|')
    ensures Unscannable('~') && Unscannable('(') && Unscannable(')')
  {
  }

  /** The longer operator wins: `**` is one `DoubleStar` at the column of its first `*`, and a `*` before anything else is a `Star`. */
  lemma LongestOperatorWins(st: LexState)
    requires st.rest != [] && st.rest[0] == '*'
    ensures var r := StepOperator(st);
      && r.Continue?
      && (|st.rest| >= 2 && st.rest[1] == '*' ==>
            r.next.tokens == st.tokens + [Token(DoubleStar, "**", st.line, st.column)] && r.next.rest == st.rest[2..])
      && (|st.rest| == 1 || st.rest[1] != '*' ==>
            r.next.tokens == st.tokens + [Token(Star, "*", st.line, st.column)] && r.next.rest == st.rest[1..])
  {
    assert "*" in OperatorMap && "**" in OperatorMap;
  }

  /** A `.` is scanned as a number only when the character under it is a digit, which it never is. */
  lemma LeadingDotStalls(st: LexState, p: string -> bool, style: IndentMarker)
    requires st.rest != [] && st.rest[0] == '.'
    ensures LexFrom(st, p, style) == Stalled(st.tokens, st.line, st.column)
  {
    UnscannableStalls(st, p, style);
  }

  /**
   * With the default `Space` style, a tab at the head of a new line is an
   * inconsistent indentation, reported at the tab's column.
   */
  lemma TabAfterNewlineFails(st: LexState, p: string -> bool)
    requires |st.rest| > 1 && st.rest[0] == '\n' && st.rest[1] == '\t'
    ensures LexFrom(st, p, Space) == Failed(st.tokens, InconsistentIndent(Space, st.line, st.column + 1))
  {
    assert Span(st.rest[1..], IndentAcceptor(Space)) == 0;
  }

  /** No token a step appends is an `EndOfStream`. */
  lemma StepAddsNoEndOfStream(st: LexState, p: string -> bool, style: IndentMarker)
    requires st.rest != []
    requires forall i :: 0 <= i < |st.tokens| ==> st.tokens[i].kind != EndOfStream
    ensures var r := LexStep(st, p, style);
      r.Continue? ==> forall i :: 0 <= i < |r.next.tokens| ==> r.next.tokens[i].kind != EndOfStream
  {
    var c := st.rest[0];
    if IsLetter(c) || c == '_' {
    } else if IsDigit(c) {
      NumberIsNoEndOfStream(st.rest, st.line, st.column, p);
    } else if c == '\n' {
    } else if c == '"' {
    } else if IsWhiteSpace(c) {
    } else {
      OperatorsAreNoEndOfStream();
    }
  }

  /** No operator text maps to `EndOfStream`. */
  lemma OperatorsAreNoEndOfStream()
    ensures forall s :: s in OperatorMap ==> OperatorMap[s] != EndOfStream
  {
  }

  /** A scanned number is never an `EndOfStream`. */
  lemma NumberIsNoEndOfStream(s: seq<char>, line: int, column: int, p: string -> bool)
    ensures var r := ScanNumber(s, line, column, p); r.Ok? ==> r.value.token.kind != EndOfStream
  {
  }

  /**
   * From a state holding no `EndOfStream`, a finished run ends with exactly one,
   * as its last token; a run that fails or stalls appends none.
   */
  lemma {:induction false} OneEndOfStream(st: LexState, p: string -> bool, style: IndentMarker)
    requires forall i :: 0 <= i < |st.tokens| ==> st.tokens[i].kind != EndOfStream
    ensures var r := LexFrom(st, p, style);
      && (r.Finished? ==> |r.tokens| > 0 && r.tokens[|r.tokens| - 1].kind == EndOfStream)
      && (forall i :: 0 <= i < |r.tokens| && (i < |r.tokens| - 1 || !r.Finished?) ==> r.tokens[i].kind != EndOfStream)
    decreases |st.rest|
  {
    if st.rest == [] {
      var closing := Closing(st.totalIndent, st.line, st.column);
      assert LexFrom(st, p, style).tokens == st.tokens + closing;
    } else {
      match LexStep(st, p, style)
      case Continue(next) =>
        StepAddsNoEndOfStream(st, p, style);
        OneEndOfStream(next, p, style);
        assert LexFrom(st, p, style) == LexFrom(next, p, style);
      case Halt(_) =>
      case Stuck =>
    }
  }

  /**
   * A text the lexer finishes gives the parser a stream that ends with its
   * only `EndOfStream`, which is what the parser's reads rely on.
   */
  lemma LexedStreamEndsWithEndOfStream(text: seq<char>, p: string -> bool)
    requires Lex(text, p).Finished?
    ensures ParserProps.EndsWithEndOfStream(Lex(text, p).tokens)
    ensures var toks := Lex(text, p).tokens;
      forall i :: 0 <= i < |toks| - 1 ==> toks[i].kind != EndOfStream
  {
    OneEndOfStream(LexState(text, 0, 0, 0, 0, []), p, Space);
  }
}
