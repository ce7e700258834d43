/** The cases of the unit tests at the end of src/tokenizer.rs, worked out
    on the model. */
module TokenizerExamples {
  import opened Wrappers
  import opened Patterns
  import opened Positions
  import opened Tokenizer

  // ---------------------------------------------------------------------
  // Words
  // ---------------------------------------------------------------------

  /** `nil` is the nil literal, not an identifier. */
  lemma NilIsLiteral()
    ensures NextToken("nil") == Some(TryAdvanceResult("", "nil", NilLiteral))
  {
    assert IdentifierLength("nil") == 3;
    assert "nil"[..3] == "nil" && "nil"[3..] == "";
    NextTokenIdentifier("nil");
  }

  /** A keyword alone is a keyword; with one more identifier character it
      is an identifier, since the identifier match is maximal. */
  lemma KeywordVersusIdentifier()
    ensures NextToken("local") == Some(TryAdvanceResult("", "local", Keyword("local")))
    ensures NextToken("local_") == Some(TryAdvanceResult("", "local_", Identifier("local_")))
  {
    assert IdentifierLength("local") == 5;
    assert "local"[..5] == "local" && "local"[5..] == "";
    assert "local" in Keywords;
    NextTokenIdentifier("local");
    assert IdentifierLength("local_") == 6;
    assert "local_"[..6] == "local_" && "local_"[6..] == "";
    NextTokenIdentifier("local_");
  }

  // ---------------------------------------------------------------------
  // Errors
  // ---------------------------------------------------------------------

  lemma StuckOnAt()
    ensures ScanStep("@", 1, 1) == Stuck(UnknownSequence("@", 1, 1))
  {
    var s := "@";
    assert MatchLength(PatternWhitespace, s) == 0;
    forall p: Pattern | p != PatternWhitespace
      ensures MatchLength(p, s) == 0
    {
      assert IdentifierLength(s) == 0;
      assert NumberLiteralLength(s) == 0;
    }
    assert NoPatternAccepts(s);
    assert NextToken(s) == None;
    assert Eat(s, PatternWhitespace) == (s, None);
    assert GetNewPosition("", 1, 1) == (1, 1);
  }

  /** No pattern accepts `@`: the error names it, at line 1, column 1. */
  lemma UnknownCharacter()
    ensures TokenizeFrom("@", 1, 1) == Err(UnknownSequence("@", 1, 1))
  {
    StuckOnAt();
    hide ScanStep;
  }

  // ---------------------------------------------------------------------
  // Numbers
  // ---------------------------------------------------------------------

  /** A number that fills its whole text is one literal token. */
  lemma WholeNumber(s: string)
    requires IdentifierLength(s) == 0 && 0 < |s| && !IsOperatorChar(s[0])
    requires NumberLiteralLength(s) == |s|
    ensures NextToken(s) == Some(TryAdvanceResult("", s, NumberLiteral(s)))
  {
    NextTokenNumber(s);
    assert s[..|s|] == s;
  }

  lemma SixIsNumber()
    ensures NextToken("6") == Some(TryAdvanceResult("", "6", NumberLiteral("6")))
  {
    assert NumberLiteralLength("6") == 1;
    WholeNumber("6");
  }

  /** The fractional form with an exponent, read in two parts. */
  lemma ExponentMantissa()
    ensures MantissaLength("0.231e-6") == 5
  {
    var s := "0.231e-6";
    assert SignLength(s) == 0;
    assert Span(s, 1, DigitClass) == 0;
    assert Span(s, 0, DigitClass) == 1;
    assert Span(s, 5, DigitClass) == 0;
    assert Span(s, 2, DigitClass) == 3;
    hide Span;
  }

  lemma ExponentPart()
    ensures ExponentLength("0.231e-6", 5) == 3
  {
    assert Span("0.231e-6", 7, DigitClass) == 1;
  }

  lemma ExponentLiteralLength()
    ensures NumberLiteralLength("0.231e-6") == 8
  {
    assert HexLength("0.231e-6") == 0;
    ExponentMantissa();
    ExponentPart();
  }

  lemma ExponentIsPartOfNumber()
    ensures NextToken("0.231e-6") == Some(TryAdvanceResult("", "0.231e-6", NumberLiteral("0.231e-6")))
  {
    ExponentLiteralLength();
    WholeNumber("0.231e-6");
  }

  lemma NegativeLiteralLength()
    ensures NumberLiteralLength("-123.7") == 6
  {
    var s := "-123.7";
    assert HexLength(s) == 0;
    assert SignLength(s) == 1;
    assert Span(s, 1, DigitClass) == 3;
    assert Span(s, 5, DigitClass) == 1;
    assert MantissaLength(s) == 6;
    assert ExponentLength(s, 6) == 0;
  }

  /** The minus sign is not an operator: it stays part of the number. */
  lemma MinusIsPartOfNumber()
    ensures NextToken("-123.7") == Some(TryAdvanceResult("", "-123.7", NumberLiteral("-123.7")))
  {
    NegativeLiteralLength();
    WholeNumber("-123.7");
  }

  /** A negative hexadecimal number. */
  lemma HexLiteralLength()
    ensures NumberLiteralLength("-0x123FFe") == 9
  {
    var s := "-0x123FFe";
    assert SignLength(s) == 1;
    assert Span(s, 3, HexDigitClass) == 6;
    assert HexLength(s) == 9;
  }

  lemma HexIsNumber()
    ensures NextToken("-0x123FFe") == Some(TryAdvanceResult("", "-0x123FFe", NumberLiteral("-0x123FFe")))
  {
    HexLiteralLength();
    WholeNumber("-0x123FFe");
  }

  // ---------------------------------------------------------------------
  // Whole scans
  // ---------------------------------------------------------------------

  lemma NoWhitespaceEaten(s: string)
    requires s == [] || !IsWhitespace(s[0])
    ensures Eat(s, PatternWhitespace) == (s, None)
  {
  }

  lemma NoNewlinePosition(s: string, line: nat, column: nat)
    requires forall i :: 0 <= i < |s| ==> s[i] != '\n'
    ensures GetNewPosition(s, line, column) == (line, column + |s|)
  {
  }

  lemma PositionAfterLocal(line: nat, column: nat)
    ensures GetNewPosition("local", line, column) == (line, column + 5)
  {
    NoNewlinePosition("local", line, column);
  }

  lemma LocalIsKeyword()
    ensures NextToken("local _") == Some(TryAdvanceResult(" _", "local", Keyword("local")))
  {
    var s := "local _";
    assert IdentifierLength(s) == 5;
    assert s[..5] == "local" && s[5..] == " _";
    assert "local" in Keywords;
    NextTokenIdentifier(s);
  }

  lemma ScanLocal()
    ensures ScanStep("local _", 1, 1) == Scanned(Token(Keyword("local"), "", 1, 1), " _", 1, 6)
  {
    LocalIsKeyword();
    NoWhitespaceEaten("local _");
    NoNewlinePosition("", 1, 1);
    PositionAfterLocal(1, 1);
    hide Eat, NextToken, GetNewPosition;
  }

  lemma OneSpaceEaten()
    ensures Eat(" _", PatternWhitespace) == ("_", Some(" "))
  {
    var t := " _";
    assert MatchLength(PatternWhitespace, t) == 1;
    assert t[..1] == " " && t[1..] == "_";
  }

  lemma UnderscoreIsIdentifier()
    ensures NextToken("_") == Some(TryAdvanceResult("", "_", Identifier("_")))
  {
    assert IdentifierLength("_") == 1;
    assert "_"[..1] == "_" && "_"[1..] == "";
    NextTokenIdentifier("_");
  }

  lemma ScanUnderscore()
    ensures ScanStep(" _", 1, 6) == Scanned(Token(Identifier("_"), " ", 1, 7), "", 1, 8)
  {
    OneSpaceEaten();
    UnderscoreIsIdentifier();
    NoNewlinePosition(" ", 1, 6);
    NoNewlinePosition("_", 1, 7);
    hide Eat, NextToken, GetNewPosition;
  }

  lemma ScanEnd(line: nat, column: nat)
    ensures ScanStep("", line, column) == Finished
  {
    NoWhitespaceEaten("");
  }

  /** `local _` is the keyword, then an identifier with one space of
      whitespace before it, at column 7. */
  lemma LocalThenIdentifier()
    ensures TokenizeFrom("local _", 1, 1) == Ok([Token(Keyword("local"), "", 1, 1), Token(Identifier("_"), " ", 1, 7)])
  {
    hide ScanStep;
    var local := Token(Keyword("local"), "", 1, 1);
    var underscore := Token(Identifier("_"), " ", 1, 7);
    ScanEnd(1, 8);
    assert TokenizeFrom("", 1, 8) == Ok([]);
    ScanUnderscore();
    assert TokenizeFrom(" _", 1, 6) == Prepend([underscore], TokenizeFrom("", 1, 8));
    assert [underscore] + [] == [underscore];
    ScanLocal();
    assert TokenizeFrom("local _", 1, 1) == Prepend([local], TokenizeFrom(" _", 1, 6));
    assert [local] + [underscore] == [local, underscore];
  }

  lemma PositionAfterTwoSpaces()
    ensures GetNewPosition("  ", 1, 1) == (1, 3)
  {
    NoNewlinePosition("  ", 1, 1);
  }

  lemma TwoSpacesEaten()
    ensures Eat("  local", PatternWhitespace) == ("local", Some("  "))
  {
    var s := "  local";
    assert MatchLength(PatternWhitespace, s) == 2;
    assert s[..2] == "  " && s[2..] == "local";
  }

  /** Whitespace in front of the first token is kept with it, and the
      token's column is the one after the whitespace. */
  lemma LeadingWhitespace()
    ensures ScanStep("  local", 1, 1) == Scanned(Token(Keyword("local"), "  ", 1, 3), "", 1, 8)
  {
    TwoSpacesEaten();
    KeywordVersusIdentifier();
    PositionAfterTwoSpaces();
    PositionAfterLocal(1, 3);
    hide Eat, NextToken, GetNewPosition;
  }
}
