/**
 * The lexer object of HLang/Lexer/Lexer.cs: it reads characters through a
 * pushback queue, keeps `Line` and `Column`, and appends tokens to its token
 * stream.  Each scanning method is proved to do what the matching function of
 * `LexerSpec` describes, and `Start` to leave exactly the tokens `LexFrom` lists.
 *
 * The `StreamReader` is modelled by `reader`, the characters not yet read from it.
 */
module Lexing {
  import opened Wrappers
  import opened CharHelper
  import opened Tokens
  import opened TokenStreams
  import opened LexerSpec

  /** How `Start` returned: normally, after a caught `SyntaxError`, or (where the source loops forever) stuck. */
  datatype LexStatus = Completed | Stopped(error: LexError) | Diverged(line: int, column: int)

  function StatusOf(outcome: LexOutcome): LexStatus {
    match outcome
    case Finished(_) => Completed
    case Failed(_, e) => Stopped(e)
    case Stalled(_, line, column) => Diverged(line, column)
  }

  /** How `Start`'s loop goes on after one iteration. */
  datatype LoopControl = Proceed | Raise(error: LexError) | Spin

  /** Whether one iteration from `prior` that ended in `control` at `after` did what `step` describes. */
  ghost predicate Follows(prior: LexState, step: Step, control: LoopControl, after: LexState) {
    match step
    case Continue(next) => control == Proceed && next == after
    case Halt(e) => control == Raise(e)
    case Stuck => control == Spin && after.rest == prior.rest && after.line == prior.line && after.column == prior.column
  }

  /** How `LexFrom` sees one iteration of `Start` from `prior` that ended in `control` at `after`. */
  ghost predicate Moves(prior: LexState, control: LoopControl, after: LexState, parsesAsDouble: string -> bool, style: IndentMarker) {
    match control
    case Proceed => LexFrom(after, parsesAsDouble, style) == LexFrom(prior, parsesAsDouble, style) && |after.rest| < |prior.rest|
    case Raise(e) => LexFrom(prior, parsesAsDouble, style) == Failed(prior.tokens, e)
    case Spin => LexFrom(prior, parsesAsDouble, style) == Stalled(prior.tokens, after.line, after.column)
  }

  lemma LexFromFollows(st: LexState, control: LoopControl, after: LexState, parsesAsDouble: string -> bool, style: IndentMarker)
    requires st.rest != [] && Follows(st, LexStep(st, parsesAsDouble, style), control, after)
    ensures Moves(st, control, after, parsesAsDouble, style)
  {
  }

  lemma StreamExtended(initial: seq<Token>, produced: seq<Token>, before: seq<Token>, closing: seq<Token>, final: seq<Token>)
    requires before == initial + produced && final == before + closing
    ensures final == initial + (produced + closing)
  {
  }

  /** A scanner method's result with the characters left and the column reached: the shape of `LexerSpec`'s scans. */
  function Attach(r: Result<Token, LexError>, rest: seq<char>, column: int): Result<Scan, LexError> {
    match r
    case Ok(t) => Ok(Scan(t, rest, column))
    case Err(e) => Err(e)
  }

  class Lexer {
    var reader: seq<char>
    var ungetStream: seq<char>
    var Line: int
    var Column: int
    const TokStream: TokenStream
    /** `double.TryParse`, which the model does not define. */
    const parsesAsDouble: string -> bool
    /** `_indentStyle`: nothing assigns it, so it keeps its default, `Space`. */
    const indentStyle: IndentMarker

    constructor(source: seq<char>, parsesAsDouble: string -> bool)
      ensures reader == source && ungetStream == [] && Line == 0 && Column == 0
      ensures fresh(TokStream) && TokStream.stream == [] && TokStream.currentId == -1
      ensures this.parsesAsDouble == parsesAsDouble && indentStyle == Space
    {
      reader := source;
      ungetStream := [];
      Line := 0;
      Column := 0;
      TokStream := new TokenStream();
      this.parsesAsDouble := parsesAsDouble;
      indentStyle := Space;
    }

    /** The characters still to be read: the pushed-back ones first. */
    function Rest(): seq<char>
      reads this`reader, this`ungetStream
    {
      ungetStream + reader
    }

    predicate IsEOF()
      reads this`reader, this`ungetStream
      ensures IsEOF() <==> Rest() == []
    {
      reader == [] && ungetStream == []
    }

    function Peek(): (c: char)
      reads this`reader, this`ungetStream
      ensures c == PeekChar(Rest())
    {
      if ungetStream != [] then ungetStream[0] else if reader != [] then reader[0] else EofChar
    }

    method Next() returns (c: char)
      modifies this`reader, this`ungetStream, this`Column
      ensures c == PeekChar(old(Rest())) && Rest() == Drop1(old(Rest()))
      ensures Column == old(Column) + 1 && |ungetStream| <= |old(ungetStream)|
    {
      if ungetStream != [] {
        c := ungetStream[0];
        ungetStream := ungetStream[1..];
      } else if reader != [] {
        c := reader[0];
        reader := reader[1..];
      } else {
        c := EofChar;
      }
      Column := Column + 1;
    }

    method Unget(c: char)
      modifies this`ungetStream, this`Column
      ensures ungetStream == old(ungetStream) + [c] && Column == old(Column) - 1
    {
      ungetStream := ungetStream + [c];
      Column := Column - 1;
    }

    method ParseIdentifier() returns (t: Token)
      modifies this`reader, this`ungetStream, this`Column
      ensures |ungetStream| <= |old(ungetStream)|
      ensures var sc := ScanIdentifier(old(Rest()), Line, old(Column));
        t == sc.token && Rest() == sc.rest && Column == sc.column
    {
      ghost var s := Rest();
      var value := "";
      while !IsEOF()
        invariant |value| <= |s| && Rest() == s[|value|..] && value == s[..|value|]
        invariant Column == old(Column) + |value|
        invariant forall i :: 0 <= i < |value| ==> IsIdentifier(s[i])
        invariant |ungetStream| <= |old(ungetStream)|
        decreases |Rest()|
      {
        var currentChar := Peek();
        if IsIdentifier(currentChar) {
          assert currentChar == s[|value|];
          var c := Next();
          assert s[..|value| + 1] == value + [c];
          value := value + [c];
        } else {
          break;
        }
      }
      SpanExact(s, IsIdentifier, |value|);
      t := if value in KeywordMap then Token(KeywordMap[value], value, Line, Column)
           else Token(Identifier, value, Line, Column);
    }

    method ParseInt(numberBase: int) returns (t: Token)
      modifies this`reader, this`ungetStream, this`Column
      ensures |ungetStream| <= |old(ungetStream)|
      ensures var sc := ScanBaseInt(numberBase, old(Rest()), Line, old(Column));
        t == sc.token && Rest() == sc.rest && Column == sc.column
    {
      ghost var s := Rest();
      var value := "";
      while !IsEOF()
        invariant |value| <= |s| && Rest() == s[|value|..] && value == s[..|value|]
        invariant Column == old(Column) + |value|
        invariant forall i :: 0 <= i < |value| ==> BaseDigit(numberBase, s[i])
        invariant |ungetStream| <= |old(ungetStream)|
        decreases |Rest()|
      {
        var p := Peek();
        if BaseDigit(numberBase, p) {
          assert p == s[|value|];
          var c := Next();
          assert s[..|value| + 1] == value + [c];
          value := value + [c];
        } else {
          break;
        }
      }
      SpanExact(s, BaseDigitOf(numberBase), |value|);
      var kind := if numberBase == 2 then BinLiteral else if numberBase == 8 then OctLiteral else HexLiteral;
      t := Token(kind, value, Line, Column - |value| - BasePrefixLength);
    }

    method ParseReal(parsedValue: string) returns (r: Result<Token, LexError>)
      modifies this`reader, this`ungetStream, this`Column
      ensures |ungetStream| <= |old(ungetStream)|
      ensures Attach(r, Rest(), Column) == ScanReal(parsedValue, old(Rest()), Line, old(Column), parsesAsDouble)
    {
      ghost var s0, c0 := Rest(), Column;
      var first := Next();
      var tail := ReadRealTail();
      var tempVal := [first] + tail;
      var text := parsedValue + tempVal;
      ScanRealSpanning(parsedValue, s0, first, tail, Line, c0, parsesAsDouble);
      assert Column - |parsedValue| - |tempVal| == c0 + 1 + |tail| - |text|;
      if !EndsWithUnderscore(text) && parsesAsDouble(RemoveUnderscores(text)) {
        r := Ok(Token(DoubleLiteral, text, Line, Column - |parsedValue| - |tempVal|));
      } else {
        r := Err(InvalidDouble(text, Line, Column));
      }
    }

    /** The loop of `ParseReal`: exponent signs are taken, but never two in a row. */
    method ReadRealTail() returns (tail: string)
      modifies this`reader, this`ungetStream, this`Column
      ensures |ungetStream| <= |old(ungetStream)|
      ensures var s := old(Rest());
        |tail| == RealSpan(s, false) && tail == s[..|tail|] && Rest() == s[|tail|..]
      ensures Column == old(Column) + |tail|
    {
      ghost var s := Rest();
      tail := [];
      var hasPlusOrMinus := false;
      while !IsEOF()
        invariant |tail| <= |s| && Rest() == s[|tail|..] && tail == s[..|tail|]
        invariant Column == old(Column) + |tail|
        invariant RealSpan(s, false) == |tail| + RealSpan(s[|tail|..], hasPlusOrMinus)
        invariant |ungetStream| <= |old(ungetStream)|
        decreases |Rest()|
      {
        var p := Peek();
        if IsUniqueRealLiteral(p) || IsNumberLiteral(p) || (IsSign(p) && !hasPlusOrMinus) {
          assert p == s[|tail|] && s[|tail|..][1..] == s[|tail| + 1..];
          hasPlusOrMinus := IsSign(p);
          var c := Next();
          assert s[..|tail| + 1] == tail + [c];
          tail := tail + [c];
        } else {
          break;
        }
      }
    }

    method ParseNumber() returns (r: Result<Token, LexError>)
      requires Rest() != []
      modifies this`reader, this`ungetStream, this`Column
      ensures |ungetStream| <= |old(ungetStream)|
      ensures Attach(r, Rest(), Column) == ScanNumber(old(Rest()), Line, old(Column), parsesAsDouble)
    {
      ghost var s0, c0 := Rest(), Column;
      var currentChar := Next();
      ghost var s1 := Rest();
      if currentChar == '0' && IsBasePrefix(Peek()) {
        var t := ParseBasePrefixed();
        r := Ok(t);
      } else if currentChar == '.' {
        r := ParseReal([currentChar]);
      } else {
        r := ParseDecimal(currentChar);
      }
      ScanNumberCases(s0, Line, c0, parsesAsDouble);
    }

    /** The base-prefix case of `ParseNumber`, after the `0`: reads the prefix letter and calls `ParseInt` with its base. */
    method ParseBasePrefixed() returns (t: Token)
      requires Rest() != []
      modifies this`reader, this`ungetStream, this`Column
      ensures |ungetStream| <= |old(ungetStream)|
      ensures Scan(t, Rest(), Column) == ScanBaseInt(PrefixBase(old(Rest())[0]), old(Rest())[1..], Line, old(Column) + 1)
    {
      ghost var s0 := Rest();
      var currentChar := Next();
      var lower := ToLower(currentChar);
      if lower == 'x' {
        t := ParseInt(16);
      } else if lower == 'b' {
        t := ParseInt(2);
      } else {
        t := ParseInt(8);
      }
    }

    /** The `default` case of `ParseNumber`, after its first digit `first` has been read. */
    method ParseDecimal(first: char) returns (r: Result<Token, LexError>)
      modifies this`reader, this`ungetStream, this`Column
      ensures |ungetStream| <= |old(ungetStream)|
      ensures Attach(r, Rest(), Column) == ScanDecimal(first, old(Rest()), Line, old(Column), parsesAsDouble)
    {
      ghost var s1, c1 := Rest(), Column;
      var value, isReal := ReadDecimalDigits(first);
      ghost var n := |value| - 1;
      ghost var rest, column := Rest(), Column;
      assert rest == s1[n..] && column == c1 + n;
      SpanExact(s1, IsNumberLiteral, n);
      ghost var spec := ScanDecimal(first, s1, Line, c1, parsesAsDouble);
      if isReal {
        assert spec == ScanReal(value, rest, Line, column, parsesAsDouble);
        r := ParseReal(value);
      } else {
        assert spec == FinishInteger(value, rest, Line, column);
        if !EndsWithUnderscore(value) && IsBigIntegerText(RemoveUnderscores(value)) {
          r := Ok(Token(IntLiteral, value, Line, Column - |value|));
        } else {
          r := Err(InvalidInteger(value, Line, Column));
        }
      }
      assert Attach(r, Rest(), Column) == spec;
    }

    /**
     * The loop of `ParseNumber`'s decimal case: digits and `_` are taken; it stops
     * at `.`, `e` or `E` (`isReal`, where the source calls `ParseReal`) or at any other character.
     */
    method ReadDecimalDigits(first: char) returns (value: string, isReal: bool)
      modifies this`reader, this`ungetStream, this`Column
      ensures |ungetStream| <= |old(ungetStream)|
      ensures var s := old(Rest()); var n := |value| - 1;
        0 <= n <= |s| && value == [first] + s[..n] && Rest() == s[n..] && Column == old(Column) + n
        && (forall i :: 0 <= i < n ==> IsNumberLiteral(s[i]))
        && (n < |s| ==> !IsNumberLiteral(s[n]))
        && isReal == (n < |s| && IsUniqueRealLiteral(s[n]))
    {
      ghost var s := Rest();
      value := [first];
      ghost var n: nat := 0;
      isReal := false;
      while !IsEOF()
        invariant n <= |s| && Rest() == s[n..] && value == [first] + s[..n]
        invariant Column == old(Column) + n
        invariant forall i :: 0 <= i < n ==> IsNumberLiteral(s[i])
        invariant |ungetStream| <= |old(ungetStream)|
        decreases |Rest()|
      {
        var p := Peek();
        if IsNumberLiteral(p) {
          assert p == s[n];
          var c := Next();
          assert s[..n + 1] == s[..n] + [c];
          value := value + [c];
          n := n + 1;
        } else if IsUniqueRealLiteral(p) {
          CharClassesNest(p);
          isReal := true;
          break;
        } else {
          break;
        }
      }
    }

    method ParseString() returns (t: Token)
      modifies this`reader, this`ungetStream, this`Column
      ensures |ungetStream| <= |old(ungetStream)|
      ensures var sc := ScanString(old(Rest()), Line, old(Column));
        t == sc.token && Rest() == sc.rest && Column == sc.column
    {
      ghost var s := Rest();
      var value := "";
      while !IsEOF()
        invariant |value| <= |s| && Rest() == s[|value|..] && value == s[..|value|]
        invariant Column == old(Column) + |value|
        invariant forall i :: 0 <= i < |value| ==> InString(s[i])
        invariant |ungetStream| <= |old(ungetStream)|
        decreases |Rest()|
      {
        if Peek() == '"' || Peek() == '\n' {
          break;
        }
        assert InString(s[|value|]);
        var c := Next();
        assert s[..|value| + 1] == value + [c];
        value := value + [c];
      }
      SpanExact(s, InString, |value|);
      var _ := Next(); // the closing quote, or whatever comes next
      t := Token(StringLiteral, value, Line, Column - |value|);
    }

    method GetIndentDepth() returns (r: Result<nat, LexError>)
      modifies this`reader, this`ungetStream, this`Column
      ensures |ungetStream| <= |old(ungetStream)|
      ensures r == IndentDepth(old(Rest()), indentStyle, Line, old(Column))
      ensures r.Ok? ==> Rest() == old(Rest())[r.value..]
    {
      ghost var s := Rest();
      var depth: nat := 0;
      while !IsEOF() && (Peek() == '\t' || Peek() == ' ')
        invariant depth <= |s| && Rest() == s[depth..]
        invariant Column == old(Column) + depth
        invariant forall i :: 0 <= i < depth ==> IndentAcceptor(indentStyle)(s[i])
        invariant |ungetStream| <= |old(ungetStream)|
        decreases |Rest()|
      {
        if (Peek() == '\t' && indentStyle == Space) || (Peek() == ' ' && indentStyle == Tab) {
          SpanExact(s, IndentAcceptor(indentStyle), depth);
          return Err(InconsistentIndent(indentStyle, Line, Column));
        }
        var _ := Next();
        depth := depth + 1;
      }
      SpanExact(s, IndentAcceptor(indentStyle), depth);
      r := Ok(depth);
    }

    /** Appends one `Indent` (deeper than before) or `Dedent` (otherwise) and moves the balance by one. */
    method HandleIndent(prevDepth: int, currentDepth: int, totalIndent: int) returns (newTotal: int)
      modifies TokStream`stream
      ensures newTotal == totalIndent + (if currentDepth > prevDepth then 1 else -1)
      ensures TokStream.stream == old(TokStream.stream) + [StructuralToken(if currentDepth > prevDepth then Indent else Dedent)]
    {
      newTotal := totalIndent + (if currentDepth > prevDepth then 1 else -1);
      TokStream.Append(StructuralToken(if currentDepth > prevDepth then Indent else Dedent));
    }

    /** The lexer's position, indentation and tokens as a `LexerSpec` state. */
    ghost function State(prevDepth: int, totalIndent: int, tokens: seq<Token>): LexState
      reads this`reader, this`ungetStream, this`Line, this`Column
    {
      LexState(Rest(), Line, Column, prevDepth, totalIndent, tokens)
    }

    /**
     * One iteration of `Start`'s loop: scans one token, skips one blank, or handles one
     * newline and the indentation after it; returns how the loop goes on.
     */
    method StartStep(prevDepth: int, totalIndent: int, ghost produced: seq<Token>)
      returns (control: LoopControl, newPrevDepth: int, newTotalIndent: int, ghost emitted: seq<Token>)
      requires !IsEOF() && ungetStream == []
      modifies this`reader, this`ungetStream, this`Line, this`Column, TokStream`stream
      ensures control == Proceed ==> ungetStream == []
      ensures control != Proceed ==> emitted == []
      ensures TokStream.stream == old(TokStream.stream) + emitted
      ensures var prior := old(State(prevDepth, totalIndent, produced));
        Moves(prior, control, State(newPrevDepth, newTotalIndent, produced + emitted), parsesAsDouble, indentStyle)
    {
      ghost var st := State(prevDepth, totalIndent, produced);
      control, newPrevDepth, newTotalIndent, emitted := ScanNext(prevDepth, totalIndent, produced);
      LexFromFollows(st, control, State(newPrevDepth, newTotalIndent, produced + emitted), parsesAsDouble, indentStyle);
    }

    /** The body of `StartStep`, following `LexStep`. */
    method ScanNext(prevDepth: int, totalIndent: int, ghost produced: seq<Token>)
      returns (control: LoopControl, newPrevDepth: int, newTotalIndent: int, ghost emitted: seq<Token>)
      requires !IsEOF() && ungetStream == []
      modifies this`reader, this`ungetStream, this`Line, this`Column, TokStream`stream
      ensures control == Proceed ==> ungetStream == []
      ensures control != Proceed ==> emitted == []
      ensures TokStream.stream == old(TokStream.stream) + emitted
      ensures var prior := old(State(prevDepth, totalIndent, produced));
        Follows(prior, LexStep(prior, parsesAsDouble, indentStyle), control, State(newPrevDepth, newTotalIndent, produced + emitted))
    {
      ghost var st := State(prevDepth, totalIndent, produced);
      newPrevDepth, newTotalIndent, emitted := prevDepth, totalIndent, [];
      var currentChar := Peek();
      if IsLetter(currentChar) || currentChar == '_' {
        var t := ParseIdentifier();
        TokStream.Append(t);
        emitted := [t];
        control := Proceed;
        ghost var after := State(prevDepth, totalIndent, produced + emitted);
        assert LexStep(st, parsesAsDouble, indentStyle) == StepIdentifier(st) == Continue(after);
      } else if IsDigit(currentChar) || (currentChar == '.' && IsDigit(Peek())) {
        var r := ParseNumber();
        ghost var spec := StepNumber(st, parsesAsDouble);
        assert LexStep(st, parsesAsDouble, indentStyle) == spec;
        if r.Err? {
          return Raise(r.error), prevDepth, totalIndent, [];
        }
        TokStream.Append(r.value);
        emitted := [r.value];
        control := Proceed;
        ghost var after := State(prevDepth, totalIndent, produced + emitted);
        assert spec == Continue(after);
      } else if currentChar == '\n' {
        assert LexStep(st, parsesAsDouble, indentStyle) == StepNewline(st, indentStyle);
        control, newPrevDepth, newTotalIndent, emitted := HandleNewline(prevDepth, totalIndent, produced, st);
      } else if currentChar == '"' {
        var _ := Next();
        var t := ParseString();
        TokStream.Append(t);
        emitted := [t];
        control := Proceed;
        ghost var after := State(prevDepth, totalIndent, produced + emitted);
        assert LexStep(st, parsesAsDouble, indentStyle) == StepString(st) == Continue(after);
      } else if IsWhiteSpace(currentChar) {
        var _ := Next();
        control := Proceed;
        ghost var after := State(prevDepth, totalIndent, produced);
        assert LexStep(st, parsesAsDouble, indentStyle) == Continue(after);
      } else {
        assert LexStep(st, parsesAsDouble, indentStyle) == StepOperator(st);
        control, emitted := ScanOperator(prevDepth, totalIndent, produced);
      }
    }

    /** The `'\n'` case of `Start`: measures the next line's indentation and appends `Indent` or `Dedent`. */
    method HandleNewline(prevDepth: int, totalIndent: int, ghost produced: seq<Token>, ghost st: LexState)
      returns (control: LoopControl, newPrevDepth: int, newTotalIndent: int, ghost emitted: seq<Token>)
      requires st == State(prevDepth, totalIndent, produced)
      requires st.rest != [] && st.rest[0] == '\n' && ungetStream == []
      modifies this`reader, this`ungetStream, this`Line, this`Column, TokStream`stream
      ensures control == Proceed ==> ungetStream == []
      ensures control != Proceed ==> emitted == []
      ensures TokStream.stream == old(TokStream.stream) + emitted
      ensures Follows(st, StepNewline(st, indentStyle), control, State(newPrevDepth, newTotalIndent, produced + emitted))
    {
      var _ := Next();
      var currentDepth := GetIndentDepth();
      if currentDepth.Err? {
        assert StepNewline(st, indentStyle) == Halt(currentDepth.error);
        return Raise(currentDepth.error), prevDepth, totalIndent, [];
      }
      newPrevDepth := currentDepth.value;
      newTotalIndent, emitted := EnterLine(prevDepth, newPrevDepth, totalIndent, produced, st);
      control := Proceed;
    }

    /** The rest of `Start`'s newline case once the depth is known: the structural token, then the next line at column 0. */
    method EnterLine(prevDepth: int, currentDepth: nat, totalIndent: int, ghost produced: seq<Token>, ghost st: LexState)
      returns (newTotalIndent: int, ghost emitted: seq<Token>)
      requires st.prevDepth == prevDepth && st.totalIndent == totalIndent && st.tokens == produced
      requires st.rest != [] && IndentDepth(st.rest[1..], indentStyle, st.line, st.column + 1) == Ok(currentDepth)
      requires Rest() == st.rest[1..][currentDepth..] && Line == st.line
      modifies this`Line, this`Column, TokStream`stream
      ensures TokStream.stream == old(TokStream.stream) + emitted
      ensures StepNewline(st, indentStyle) == Continue(State(currentDepth, newTotalIndent, produced + emitted))
    {
      NewlineStep(st, indentStyle, currentDepth);
      newTotalIndent := HandleIndent(prevDepth, currentDepth, totalIndent);
      emitted := [StructuralToken(if currentDepth > prevDepth then Indent else Dedent)];
      Line := Line + 1;
      Column := 0;
    }

    /**
     * The `default` case of `Start` for a character that is not blank: the longest
     * operator of one or two characters, or the pushback of a character that starts none.
     */
    method ScanOperator(prevDepth: int, totalIndent: int, ghost produced: seq<Token>)
      returns (control: LoopControl, ghost emitted: seq<Token>)
      requires !IsEOF() && ungetStream == []
      modifies this`reader, this`ungetStream, this`Column, TokStream`stream
      ensures control == Proceed ==> ungetStream == []
      ensures control != Proceed ==> emitted == []
      ensures TokStream.stream == old(TokStream.stream) + emitted
      ensures var prior := old(State(prevDepth, totalIndent, produced));
        Follows(prior, StepOperator(prior), control, State(prevDepth, totalIndent, produced + emitted))
    {
      ghost var st := State(prevDepth, totalIndent, produced);
      var currentChar := Peek();
      var c := Next();
      var actualOperator := [c];
      if [currentChar] in OperatorMap {
        if [currentChar, Peek()] in OperatorMap {
          ghost var lookahead := Peek();
          var c2 := Next();
          actualOperator := actualOperator + [c2];
          assert actualOperator == [currentChar, lookahead];
        }
        var t := Token(OperatorMap[actualOperator], actualOperator, Line, Column - |actualOperator|);
        TokStream.Append(t);
        emitted := [t];
        control := Proceed;
        ghost var after := State(prevDepth, totalIndent, produced + emitted);
        assert StepOperator(st) == Continue(after);
      } else {
        // The character goes back to the head of the input and the column is restored,
        // so every later iteration repeats this one: the source's loop never ends.
        Unget(currentChar);
        emitted := [];
        control := Spin;
      }
    }

    /**
     * `Start`: the main loop, then the closing `Dedent`s and `EndOfStream`.
     * The stream receives exactly the tokens `LexFrom` yields; a `SyntaxError`
     * stops the loop and a character no branch accepts leaves it spinning.
     */
    method Start() returns (status: LexStatus)
      requires ungetStream == []
      modifies this, TokStream
      ensures var outcome := LexFrom(LexState(old(Rest()), old(Line), old(Column), 0, 0, []), parsesAsDouble, indentStyle);
        TokStream.stream == old(TokStream.stream) + outcome.tokens && status == StatusOf(outcome)
    {
      ghost var outcome := LexFrom(State(0, 0, []), parsesAsDouble, indentStyle);
      var totalIndent;
      ghost var produced;
      status, totalIndent, produced := ScanAll();
      if status == Completed {
        ghost var before := TokStream.stream;
        ghost var closing := Closing(totalIndent, Line, Column);
        ghost var appended := CloseStream(totalIndent);
        assert appended == closing;
        StreamExtended(old(TokStream.stream), produced, before, closing, TokStream.stream);
      }
    }

    /** The loop of `Start`: one `LexStep` per iteration until the input is exhausted or the step does not continue. */
    method ScanAll() returns (status: LexStatus, totalIndent: int, ghost produced: seq<Token>)
      requires ungetStream == []
      modifies this`reader, this`ungetStream, this`Line, this`Column, TokStream`stream
      ensures TokStream.stream == old(TokStream.stream) + produced
      ensures var outcome := old(LexFrom(State(0, 0, []), parsesAsDouble, indentStyle));
        if status == Completed then outcome == Finished(produced + Closing(totalIndent, Line, Column))
        else outcome.tokens == produced && status == StatusOf(outcome)
    {
      ghost var outcome := LexFrom(State(0, 0, []), parsesAsDouble, indentStyle);
      produced := [];
      var prevDepth := 0;
      totalIndent := 0;
      while !IsEOF()
        invariant ungetStream == []
        invariant TokStream.stream == old(TokStream.stream) + produced
        invariant LexFrom(State(prevDepth, totalIndent, produced), parsesAsDouble, indentStyle) == outcome
        decreases |Rest()|
      {
        ghost var before := TokStream.stream;
        var control;
        ghost var emitted;
        control, prevDepth, totalIndent, emitted := StartStep(prevDepth, totalIndent, produced);
        StreamExtended(old(TokStream.stream), produced, before, emitted, TokStream.stream);
        match control
        case Raise(e) =>
          assert outcome == Failed(produced, e);
          return Stopped(e), totalIndent, produced;
        case Spin =>
          assert outcome == Stalled(produced, Line, Column);
          return Diverged(Line, Column), totalIndent, produced;
        case Proceed =>
          produced := produced + emitted;
      }
      ghost var last := State(prevDepth, totalIndent, produced);
      assert last.rest == [];
      assert outcome == Finished(produced + Closing(totalIndent, Line, Column));
      status := Completed;
    }

    /** The `Dedent`s that close the indentation still open at end of input, then `EndOfStream` where the input ended. */
    method CloseStream(totalIndent: int) returns (ghost closing: seq<Token>)
      modifies TokStream`stream
      ensures closing == Closing(totalIndent, Line, Column)
      ensures TokStream.stream == old(TokStream.stream) + closing
    {
      closing := Closing(totalIndent, Line, Column);
      var remaining := totalIndent;
      while remaining > 0
        invariant OpenIndents(remaining) <= OpenIndents(totalIndent)
        invariant TokStream.stream == old(TokStream.stream) + Dedents(OpenIndents(totalIndent) - OpenIndents(remaining))
        decreases remaining
      {
        TokStream.Append(StructuralToken(Dedent));
        remaining := remaining - 1;
      }
      TokStream.Append(Token(EndOfStream, "", Line, Column));
    }
  }
}
