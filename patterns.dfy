/** The regular expressions of src/tokenizer.rs, written out as recognisers.
    Each returns the length of the match at the start of its argument and 0
    when there is none; every token pattern matches at least one character.
    The character classes are read as ASCII. */
module Patterns {

  // ---------------------------------------------------------------------
  // Character classes
  // ---------------------------------------------------------------------

  /** `\s`, read as ASCII: space, tab, line feed, vertical tab, form feed, carriage return. */
  predicate IsWhitespace(c: char)
  {
    c == ' ' || c == '\t' || c == '\n' || c == '\U{000B}' || c == '\U{000C}' || c == '\r'
  }

  /** `\d`, read as ASCII. */
  predicate IsDigit(c: char)
  {
    '0' <= c <= '9'
  }

  /** `[A-Fa-f\d]` */
  predicate IsHexDigit(c: char)
  {
    IsDigit(c) || 'a' <= c <= 'f' || 'A' <= c <= 'F'
  }

  /** `[_a-zA-Z]` */
  predicate IsIdentifierStart(c: char)
  {
    c == '_' || 'a' <= c <= 'z' || 'A' <= c <= 'Z'
  }

  /** `[_a-zA-Z0-9]` */
  predicate IsIdentifierChar(c: char)
  {
    IsIdentifierStart(c) || IsDigit(c)
  }

  /** The seven one-character operators `=`, `+`, `,`, `{`, `}`, `[`, `]`. */
  predicate IsOperatorChar(c: char)
  {
    c == '=' || c == '+' || c == ',' || c == '{' || c == '}' || c == '[' || c == ']'
  }

  predicate AllWhitespace(s: string)
  {
    forall i :: 0 <= i < |s| ==> IsWhitespace(s[i])
  }

  predicate NoWhitespace(s: string)
  {
    forall i :: 0 <= i < |s| ==> !IsWhitespace(s[i])
  }

  /** A character the number pattern can match: a hexadecimal digit (which
      covers `e` and `E`), the sign `-`, the point `.` or the `x` of `0x`. */
  predicate IsNumberChar(c: char)
  {
    IsHexDigit(c) || c == '-' || c == '.' || c == 'x'
  }

  /** The character classes that are repeated with `*` or `+`. */
  datatype CharClass = WhitespaceClass | DigitClass | HexDigitClass | IdentifierCharClass

  predicate InClass(c: char, charClass: CharClass)
  {
    match charClass
    case WhitespaceClass => IsWhitespace(c)
    case DigitClass => IsDigit(c)
    case HexDigitClass => IsHexDigit(c)
    case IdentifierCharClass => IsIdentifierChar(c)
  }

  /** Greedy repetition `[charClass]*` at index `start`: the length of the
      longest run of characters from there that all belong to `charClass`. */
  function Span(s: string, start: nat, charClass: CharClass): (n: nat)
    requires start <= |s|
    ensures start + n <= |s|
    ensures start + n < |s| ==> !InClass(s[start + n], charClass)
    decreases |s| - start
  {
    if start < |s| && InClass(s[start], charClass) then 1 + Span(s, start + 1, charClass) else 0
  }

  /** Every character of the run belongs to the class. */
  lemma {:induction false} SpanAll(s: string, start: nat, charClass: CharClass)
    requires start <= |s|
    ensures forall i :: start <= i < start + Span(s, start, charClass) ==> InClass(s[i], charClass)
    decreases |s| - start
  {
    if start < |s| && InClass(s[start], charClass) {
      SpanAll(s, start + 1, charClass);
    }
  }

  // ---------------------------------------------------------------------
  // The patterns
  // ---------------------------------------------------------------------

  /** PATTERN_IDENTIFIER, `^([_a-zA-Z][_a-zA-Z0-9]*)`: the match is the
      longest run of identifier characters that starts with a non-digit. */
  function IdentifierLength(s: string): (n: nat)
    ensures n <= |s|
    ensures n > 0 <==> |s| > 0 && IsIdentifierStart(s[0])
    ensures 0 < n < |s| ==> !IsIdentifierChar(s[n])
  {
    if |s| > 0 && IsIdentifierStart(s[0]) then 1 + Span(s, 1, IdentifierCharClass) else 0
  }

  lemma IdentifierChars(s: string)
    ensures forall i :: 0 < i < IdentifierLength(s) ==> IsIdentifierChar(s[i])
  {
    if |s| > 0 && IsIdentifierStart(s[0]) {
      SpanAll(s, 1, IdentifierCharClass);
    }
  }

  /** The optional sign `-?` in front of a number literal. */
  function SignLength(s: string): (k: nat)
    ensures k <= 1 && k <= |s|
    ensures k == 1 <==> |s| > 0 && s[0] == '-'
  {
    if |s| > 0 && s[0] == '-' then 1 else 0
  }

  /** First alternative of PATTERN_NUMBER_LITERAL, `-?0x[A-Fa-f\d]+`. */
  function HexLength(s: string): (n: nat)
    ensures n <= |s|
    ensures n > 0 <==>
      var k := SignLength(s);
      k + 2 < |s| && s[k] == '0' && s[k + 1] == 'x' && IsHexDigit(s[k + 2])
    ensures n > 0 ==>
      && SignLength(s) + 3 <= n
      && (n < |s| ==> !IsHexDigit(s[n]))
  {
    var k := SignLength(s);
    if k + 2 <= |s| && s[k] == '0' && s[k + 1] == 'x' then
      var h := Span(s, k + 2, HexDigitClass);
      if h > 0 then k + 2 + h else 0
    else
      0
  }

  lemma HexDigits(s: string)
    ensures forall i :: SignLength(s) + 2 <= i < HexLength(s) ==> IsHexDigit(s[i])
  {
    var k := SignLength(s);
    if k + 2 <= |s| {
      SpanAll(s, k + 2, HexDigitClass);
    }
  }

  /** Second alternative of PATTERN_NUMBER_LITERAL without its exponent,
      `-?(?:(?:\d*\.\d+)|(\d+))`. The fractional form is tried first, so a
      `.` followed by a digit is taken whenever it follows the integer digits. */
  function MantissaLength(s: string): (n: nat)
    ensures n <= |s|
    ensures n > 0 <==>
      var k := SignLength(s);
      (k < |s| && IsDigit(s[k])) || (k + 1 < |s| && s[k] == '.' && IsDigit(s[k + 1]))
    ensures n > 0 ==>
      && SignLength(s) < n
      && IsDigit(s[n - 1])
      && (n < |s| ==> !IsDigit(s[n]))
  {
    var k := SignLength(s);
    var d := Span(s, k, DigitClass);
    SpanAll(s, k, DigitClass);
    if k + d + 1 < |s| && s[k + d] == '.' && IsDigit(s[k + d + 1]) then
      SpanAll(s, k + d + 1, DigitClass);
      k + d + 1 + Span(s, k + d + 1, DigitClass)
    else if d > 0 then
      k + d
    else
      0
  }

  lemma MantissaChars(s: string)
    ensures forall i :: SignLength(s) <= i < MantissaLength(s) ==> IsDigit(s[i]) || s[i] == '.'
  {
    var k := SignLength(s);
    var d := Span(s, k, DigitClass);
    SpanAll(s, k, DigitClass);
    if k + d + 1 < |s| {
      SpanAll(s, k + d + 1, DigitClass);
    }
  }

  /** The mantissa holds at most one `.`. */
  lemma MantissaOneDot(s: string)
    ensures var n := MantissaLength(s);
      forall i, j :: 0 <= i < j < n && s[i] == '.' ==> s[j] != '.'
  {
    var k := SignLength(s);
    var d := Span(s, k, DigitClass);
    var n := MantissaLength(s);
    SpanAll(s, k, DigitClass);
    if k + d + 1 < |s| {
      SpanAll(s, k + d + 1, DigitClass);
    }
    forall i, j | 0 <= i < j < n && s[i] == '.'
      ensures s[j] != '.'
    {
      assert i == k + d;
    }
  }

  /** The fractional alternative is tried first: when the match stops in
      front of a `.` and a digit, it already holds a `.` of its own. */
  lemma MantissaPrefersFraction(s: string)
    ensures var n := MantissaLength(s);
      0 < n && n + 1 < |s| && s[n] == '.' && IsDigit(s[n + 1]) ==>
        exists i :: SignLength(s) <= i < n && s[i] == '.'
  {
    var n := MantissaLength(s);
    var k := SignLength(s);
    var d := Span(s, k, DigitClass);
    if 0 < n && n + 1 < |s| && s[n] == '.' && IsDigit(s[n + 1]) {
      assert s[k + d] == '.';
    }
  }

  /** The optional exponent `(?:[eE]-?\d+)?` of a decimal number literal,
      at index `start`; 0 when there is none. */
  function ExponentLength(s: string, start: nat): (n: nat)
    requires start <= |s|
    ensures start + n <= |s|
    ensures n > 0 <==>
      && start + 1 < |s|
      && (s[start] == 'e' || s[start] == 'E')
      && (IsDigit(s[start + 1]) || (s[start + 1] == '-' && start + 2 < |s| && IsDigit(s[start + 2])))
    ensures n > 0 ==>
      && 2 <= n
      && (IsDigit(s[start + 1]) || s[start + 1] == '-')
      && (start + n < |s| ==> !IsDigit(s[start + n]))
  {
    if start < |s| && (s[start] == 'e' || s[start] == 'E') then
      var k := if start + 1 < |s| && s[start + 1] == '-' then 2 else 1;
      var d := Span(s, start + k, DigitClass);
      if d > 0 then k + d else 0
    else
      0
  }

  lemma ExponentDigits(s: string, start: nat)
    requires start <= |s|
    ensures forall i :: start + 2 <= i < start + ExponentLength(s, start) ==> IsDigit(s[i])
  {
    if start < |s| && (s[start] == 'e' || s[start] == 'E') {
      var k := if start + 1 < |s| && s[start + 1] == '-' then 2 else 1;
      SpanAll(s, start + k, DigitClass);
    }
  }

  /** PATTERN_NUMBER_LITERAL with leftmost-first alternation: the hexadecimal
      form when it applies, otherwise a decimal mantissa and an optional
      exponent. */
  function NumberLiteralLength(s: string): (n: nat)
    ensures n <= |s|
    ensures n > 0 <==>
      var k := SignLength(s);
      (k < |s| && IsDigit(s[k])) || (k + 1 < |s| && s[k] == '.' && IsDigit(s[k + 1]))
    ensures HexLength(s) > 0 ==> n == HexLength(s)
    ensures HexLength(s) == 0 && MantissaLength(s) > 0 ==> n == MantissaLength(s) + ExponentLength(s, MantissaLength(s))
  {
    var h := HexLength(s);
    if h > 0 then
      h
    else
      var m := MantissaLength(s);
      if m > 0 then
        m + ExponentLength(s, m)
      else
        0
  }

  /** The number pattern matches only number characters. */
  lemma NumberLiteralChars(s: string)
    ensures forall i :: 0 <= i < NumberLiteralLength(s) ==> IsNumberChar(s[i])
  {
    HexDigits(s);
    MantissaChars(s);
    var m := MantissaLength(s);
    if HexLength(s) == 0 && m > 0 {
      ExponentDigits(s, m);
    }
  }

  /** The regular expressions of the tokenizer that are anchored at the start
      of the remaining text. */
  datatype Pattern =
    | PatternIdentifier
    | PatternNumberLiteral
    | PatternOperator
    | PatternOpenParen
    | PatternCloseParen
    | PatternWhitespace

  /** Length of the match of `pattern` at the start of `s`, 0 when there is none. */
  function MatchLength(pattern: Pattern, s: string): (n: nat)
    ensures n <= |s|
    ensures pattern == PatternWhitespace && n < |s| ==> !IsWhitespace(s[n])
    ensures pattern != PatternWhitespace && n > 0 ==> !IsWhitespace(s[0])
    ensures pattern == PatternOperator ==> n <= 1 && (n == 1 <==> 0 < |s| && IsOperatorChar(s[0]))
    ensures pattern == PatternOpenParen ==> n <= 1 && (n == 1 <==> 0 < |s| && s[0] == '(')
    ensures pattern == PatternCloseParen ==> n <= 1 && (n == 1 <==> 0 < |s| && s[0] == ')')
  {
    match pattern
    case PatternIdentifier => IdentifierLength(s)
    case PatternNumberLiteral => NumberLiteralLength(s)
    case PatternOperator => if 0 < |s| && IsOperatorChar(s[0]) then 1 else 0
    case PatternOpenParen => if 0 < |s| && s[0] == '(' then 1 else 0
    case PatternCloseParen => if 0 < |s| && s[0] == ')' then 1 else 0
    case PatternWhitespace => Span(s, 0, WhitespaceClass)
  }

  /** The whitespace pattern matches only whitespace, the token patterns
      none. */
  lemma MatchLengthClasses(pattern: Pattern, s: string)
    ensures var n := MatchLength(pattern, s);
      && (pattern == PatternWhitespace ==> AllWhitespace(s[..n]))
      && (pattern != PatternWhitespace ==> NoWhitespace(s[..n]))
  {
    var n := MatchLength(pattern, s);
    match pattern
    case PatternIdentifier =>
      IdentifierChars(s);
      assert forall i :: 0 <= i < n ==> s[..n][i] == s[i];
    case PatternNumberLiteral =>
      NumberLiteralChars(s);
      assert forall i :: 0 <= i < n ==> s[..n][i] == s[i];
    case PatternWhitespace =>
      SpanAll(s, 0, WhitespaceClass);
      assert forall i :: 0 <= i < n ==> s[..n][i] == s[i];
    case _ =>
  }
}
