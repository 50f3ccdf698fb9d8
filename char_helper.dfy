/**
 * Character classes used by the lexer (HLang/Helper/CharHelper.cs).
 *
 * The source calls the Unicode-aware `char.IsDigit`, `char.IsLetter`,
 * `char.IsLetterOrDigit`, `char.IsWhiteSpace` and the culture-aware
 * `char.ToLower`; the model uses their ASCII restrictions.
 */
module CharHelper {

  /** What the source reads at end of input: `(char)-1` from `StreamReader.Read`/`Peek`. */
  const EofChar: char := '\U{FFFF}'

  predicate IsDigit(c: char) { '0' <= c <= '9' }

  predicate IsLetter(c: char) { 'a' <= c <= 'z' || 'A' <= c <= 'Z' }

  predicate IsLetterOrDigit(c: char) { IsLetter(c) || IsDigit(c) }

  predicate IsWhiteSpace(c: char) {
    c == ' ' || c == '\t' || c == '\n' || c == '\r' || c == '\U{000B}' || c == '\U{000C}'
  }

  function ToLower(c: char): (r: char)
    ensures 'A' <= c <= 'Z' ==> 'a' <= r <= 'z' && r as int == c as int + 32
    ensures !('A' <= c <= 'Z') ==> r == c
  {
    if 'A' <= c <= 'Z' then (c as int + 32) as char else c
  }

  predicate IsHex(c: char) { IsDigit(c) || 'a' <= ToLower(c) <= 'f' }

  predicate IsOctal(c: char) { '0' <= c <= '7' }

  predicate IsBin(c: char) { c == '0' || c == '1' }

  predicate IsBasePrefix(c: char) { ToLower(c) in ['x', 'o', 'b'] }

  predicate IsIdentifier(c: char) { IsLetterOrDigit(c) || c == '_' }

  predicate IsNumberLiteral(c: char) { IsDigit(c) || c == '_' }

  /** The source lower-cases first and then looks in ['e', 'E', '.'], so 'E' matches through 'e'. */
  predicate IsUniqueRealLiteral(c: char) { ToLower(c) in ['e', 'E', '.'] }

  /** Each class accepts exactly the characters the source lists. */
  lemma CharClassesExact(c: char)
    ensures IsBin(c) <==> c in "01"
    ensures IsOctal(c) <==> c in "01234567"
    ensures IsHex(c) <==> c in "0123456789abcdefABCDEF"
    ensures IsBasePrefix(c) <==> c in "xXoObB"
    ensures IsNumberLiteral(c) <==> c in "0123456789_"
    ensures IsUniqueRealLiteral(c) <==> c in ".eE"
  {
  }

  /** The digit classes nest, a number character is an identifier character,
      and the real-literal markers are never number characters. */
  lemma CharClassesNest(c: char)
    ensures IsBin(c) ==> IsOctal(c)
    ensures IsOctal(c) ==> IsHex(c)
    ensures IsNumberLiteral(c) ==> IsIdentifier(c)
    ensures !(IsUniqueRealLiteral(c) && IsNumberLiteral(c))
  {
  }

  /** The end-of-input sentinel belongs to no class, so every scanning loop stops at it. */
  lemma EofCharInNoClass()
    ensures !IsHex(EofChar) && !IsOctal(EofChar) && !IsBin(EofChar) && !IsBasePrefix(EofChar)
    ensures !IsIdentifier(EofChar) && !IsNumberLiteral(EofChar) && !IsUniqueRealLiteral(EofChar)
    ensures !IsLetter(EofChar) && !IsDigit(EofChar) && !IsWhiteSpace(EofChar)
  {
  }
}
