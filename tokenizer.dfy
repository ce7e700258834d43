/** The tokenizer of src/tokenizer.rs: source text to a list of tokens, each
    carrying the whitespace before it and the 1-based line and column where
    its text starts, or an error naming the first text no pattern accepts. */
module Tokenizer {
  import opened Wrappers
  import opened Patterns
  import opened Positions

  // ---------------------------------------------------------------------
  // Tokens
  // ---------------------------------------------------------------------

  datatype TokenKind =
    | Keyword(text: string)
    | Operator(text: string)
    | Identifier(text: string)
    /** The number exactly as it appears in the source. */
    | NumberLiteral(text: string)
    | BoolLiteral(b: bool)
    | NilLiteral
    | OpenParen
    | CloseParen

  /** A token, the whitespace before it and the 1-based line and column of
      its first character. */
  datatype Token = Token(kind: TokenKind, whitespace: string, line: nat, column: nat)

  datatype TokenizeError =
    /** The remaining source, starting at a character no pattern accepts,
        and the line and column where it starts. */
    | UnknownSequence(remainder: string, line: nat, column: nat)

  datatype TryAdvanceResult = TryAdvanceResult(newSource: string, eatenStr: string, matchedKind: TokenKind)

  const Keywords: set<string> := {"local", "function", "while", "repeat", "until", "for", "do", "end"}

  /** The source text of a token of this kind. The Rust token does not keep
      its text; every kind determines it, which is what makes the
      tokenizer invertible. */
  function TokenText(kind: TokenKind): string
  {
    match kind
    case Keyword(s) => s
    case Operator(s) => s
    case Identifier(s) => s
    case NumberLiteral(s) => s
    case BoolLiteral(b) => if b then "true" else "false"
    case NilLiteral => "nil"
    case OpenParen => "("
    case CloseParen => ")"
  }

  /** The closure that classifies an identifier-pattern match. */
  function ClassifyWord(s: string): (kind: TokenKind)
    ensures TokenText(kind) == s
    ensures kind.Keyword? <==> s in Keywords
    ensures kind == BoolLiteral(true) <==> s == "true"
    ensures kind == BoolLiteral(false) <==> s == "false"
    ensures kind == NilLiteral <==> s == "nil"
    ensures kind.Identifier? <==> s !in Keywords && s != "true" && s != "false" && s != "nil"
  {
    if s in Keywords then Keyword(s)
    else if s == "true" then BoolLiteral(true)
    else if s == "false" then BoolLiteral(false)
    else if s == "nil" then NilLiteral
    else Identifier(s)
  }

  /** The closures `tokenize` passes to `try_advance`, which turn the
      matched text into a token kind. */
  datatype Classifier = ClassifyIdentifierMatch | MakeOperator | MakeNumberLiteral | MakeOpenParen | MakeCloseParen

  function Classify(classifier: Classifier, s: string): TokenKind
  {
    match classifier
    case ClassifyIdentifierMatch => ClassifyWord(s)
    case MakeOperator => Operator(s)
    case MakeNumberLiteral => NumberLiteral(s)
    case MakeOpenParen => OpenParen
    case MakeCloseParen => CloseParen
  }

  /** `try_advance`: match `pattern` at the start of `source` and classify the
      matched text with `tokenizer`. */
  function TryAdvance(source: string, pattern: Pattern, tokenizer: Classifier): (r: Option<TryAdvanceResult>)
    ensures r.Some? <==> MatchLength(pattern, source) > 0
    ensures r.Some? ==>
      && r.value.eatenStr + r.value.newSource == source
      && |r.value.eatenStr| == MatchLength(pattern, source)
      && r.value.matchedKind == Classify(tokenizer, r.value.eatenStr)
  {
    var n := MatchLength(pattern, source);
    if n > 0 then
      assert source[..n] + source[n..] == source;
      Some(TryAdvanceResult(source[n..], source[..n], Classify(tokenizer, source[..n])))
    else
      None
  }

  /** `eat`: strip the match of `pattern` from the start of `source`,
      returning the rest and the match when there is one. */
  function Eat(source: string, pattern: Pattern): (r: (string, Option<string>))
    ensures r.1.Some? <==> MatchLength(pattern, source) > 0
    ensures r.1.GetOr("") + r.0 == source
    ensures |r.1.GetOr("")| == MatchLength(pattern, source)
  {
    var n := MatchLength(pattern, source);
    if n > 0 then
      assert source[..n] + source[n..] == source;
      (source[n..], Some(source[..n]))
    else
      (source, None)
  }

  /** No token pattern matches at the start of `s`. */
  predicate NoPatternAccepts(s: string)
  {
    forall p: Pattern :: p != PatternWhitespace ==> MatchLength(p, s) == 0
  }

  predicate WellFormed(token: Token)
  {
    AllWhitespace(token.whitespace) && 0 < |TokenText(token.kind)| && NoWhitespace(TokenText(token.kind))
  }

  /** The token patterns in the order `tokenize` tries them, each with the
      closure it passes to `try_advance`. */
  const TokenRules: seq<(Pattern, Classifier)> := [
    (PatternIdentifier, ClassifyIdentifierMatch),
    (PatternOperator, MakeOperator),
    (PatternNumberLiteral, MakeNumberLiteral),
    (PatternOpenParen, MakeOpenParen),
    (PatternCloseParen, MakeCloseParen)
  ]

  /** A rule whose closure gives back a token of the text its pattern matched. */
  predicate Compatible(rule: (Pattern, Classifier))
  {
    && rule.0 != PatternWhitespace
    && (rule.1 == MakeOpenParen ==> rule.0 == PatternOpenParen)
    && (rule.1 == MakeCloseParen ==> rule.0 == PatternCloseParen)
  }

  /** Under a compatible rule the token kind gives back the matched text. */
  lemma ClassifyMatchText(rule: (Pattern, Classifier), s: string)
    requires Compatible(rule)
    ensures var n := MatchLength(rule.0, s);
      n > 0 ==> TokenText(Classify(rule.1, s[..n])) == s[..n]
  {
    var n := MatchLength(rule.0, s);
    if n > 0 && (rule.1 == MakeOpenParen || rule.1 == MakeCloseParen) {
      assert n == 1;
      assert s[..n] == [s[0]];
    }
  }

  /** A chain of `or_else`: the result of the first rule whose pattern matches. */
  function FirstMatch(current: string, rules: seq<(Pattern, Classifier)>): (r: Option<TryAdvanceResult>)
    requires forall j :: 0 <= j < |rules| ==> Compatible(rules[j])
    ensures r.None? <==> forall j :: 0 <= j < |rules| ==> MatchLength(rules[j].0, current) == 0
    ensures r.Some? ==>
      && 0 < |r.value.eatenStr|
      && r.value.eatenStr + r.value.newSource == current
      && TokenText(r.value.matchedKind) == r.value.eatenStr
  {
    if rules == [] then
      None
    else
      var r := TryAdvance(current, rules[0].0, rules[0].1);
      if r.Some? then
        ClassifyMatchText(rules[0], current);
        r
      else
        FirstMatch(current, rules[1..])
  }

  /** A token's text holds no whitespace. */
  lemma {:induction false} FirstMatchNoWhitespace(current: string, rules: seq<(Pattern, Classifier)>)
    requires forall j :: 0 <= j < |rules| ==> Compatible(rules[j])
    ensures FirstMatch(current, rules).Some? ==> NoWhitespace(FirstMatch(current, rules).value.eatenStr)
  {
    if rules != [] {
      var r := TryAdvance(current, rules[0].0, rules[0].1);
      MatchLengthClasses(rules[0].0, current);
      if r.Some? {
        assert r.value.eatenStr == current[..MatchLength(rules[0].0, current)];
      } else {
        FirstMatchNoWhitespace(current, rules[1..]);
      }
    }
  }

  /** The chain of `or_else` in `tokenize`: the five token patterns in their
      fixed priority order; the first that matches wins. */
  function NextToken(current: string): (r: Option<TryAdvanceResult>)
    ensures r.None? <==> NoPatternAccepts(current)
    ensures r.Some? ==>
      && 0 < |r.value.eatenStr|
      && r.value.eatenStr + r.value.newSource == current
      && TokenText(r.value.matchedKind) == r.value.eatenStr
      && NoWhitespace(r.value.eatenStr)
  {
    FirstMatchNoWhitespace(current, TokenRules);
    assert TokenRules[0].0 == PatternIdentifier && TokenRules[1].0 == PatternOperator;
    assert TokenRules[2].0 == PatternNumberLiteral && TokenRules[3].0 == PatternOpenParen;
    assert TokenRules[4].0 == PatternCloseParen;
    FirstMatch(current, TokenRules)
  }

  /** First in the priority order: an identifier-pattern match, which is
      maximal, wins over everything and is classified by ClassifyWord. */
  lemma NextTokenIdentifier(current: string)
    requires IdentifierLength(current) > 0
    ensures var n := IdentifierLength(current);
      NextToken(current) == Some(TryAdvanceResult(current[n..], current[..n], ClassifyWord(current[..n])))
  {
    assert TokenRules[0] == (PatternIdentifier, ClassifyIdentifierMatch);
  }

  /** Second: a single operator character, when no identifier starts here. */
  lemma NextTokenOperator(current: string)
    requires IdentifierLength(current) == 0
    requires 0 < |current| && IsOperatorChar(current[0])
    ensures NextToken(current) == Some(TryAdvanceResult(current[1..], current[..1], Operator(current[..1])))
  {
    FirstMatchSkip(current, TokenRules);
    assert TokenRules[1..][0] == (PatternOperator, MakeOperator);
  }

  /** Third: the number pattern, whose whole match becomes the literal's
      text, a leading `-` included. */
  lemma NextTokenNumber(current: string)
    requires IdentifierLength(current) == 0
    requires !(0 < |current| && IsOperatorChar(current[0]))
    requires NumberLiteralLength(current) > 0
    ensures var n := NumberLiteralLength(current);
      NextToken(current) == Some(TryAdvanceResult(current[n..], current[..n], NumberLiteral(current[..n])))
  {
    assert TokenRules[0].0 == PatternIdentifier && TokenRules[1].0 == PatternOperator;
    SkipTokenRules(current, 2);
    assert TokenRules[2..][0] == (PatternNumberLiteral, MakeNumberLiteral);
  }

  /** When none of the first `k` token rules matches, the chain goes on
      from rule `k`. */
  lemma {:induction false} SkipTokenRules(current: string, k: nat)
    requires k <= |TokenRules|
    requires forall j :: 0 <= j < k ==> MatchLength(TokenRules[j].0, current) == 0
    ensures FirstMatch(current, TokenRules) == FirstMatch(current, TokenRules[k..])
  {
    hide FirstMatch, MatchLength;
    if k == 0 {
      assert TokenRules[0..] == TokenRules;
    } else {
      SkipTokenRules(current, k - 1);
      FirstMatchSkip(current, TokenRules[k - 1..]);
      assert TokenRules[k - 1..][1..] == TokenRules[k..];
    }
  }

  /** Fourth: an open parenthesis, which starts no identifier, operator or
      number. */
  lemma NextTokenOpenParen(current: string)
    requires 0 < |current| && current[0] == '('
    ensures NextToken(current) == Some(TryAdvanceResult(current[1..], "(", OpenParen))
  {
    assert TokenRules[0].0 == PatternIdentifier && TokenRules[1].0 == PatternOperator;
    assert TokenRules[2].0 == PatternNumberLiteral;
    SkipTokenRules(current, 3);
    assert TokenRules[3..][0] == (PatternOpenParen, MakeOpenParen);
    assert current[..1] == "(";
  }

  /** Fifth and last: a close parenthesis. */
  lemma NextTokenCloseParen(current: string)
    requires 0 < |current| && current[0] == ')'
    ensures NextToken(current) == Some(TryAdvanceResult(current[1..], ")", CloseParen))
  {
    assert TokenRules[0].0 == PatternIdentifier && TokenRules[1].0 == PatternOperator;
    assert TokenRules[2].0 == PatternNumberLiteral && TokenRules[3].0 == PatternOpenParen;
    SkipTokenRules(current, 4);
    assert TokenRules[4..][0] == (PatternCloseParen, MakeCloseParen);
    assert current[..1] == ")";
  }

  /** A rule whose pattern does not match passes the text on to the next. */
  lemma FirstMatchSkip(current: string, rules: seq<(Pattern, Classifier)>)
    requires forall j :: 0 <= j < |rules| ==> Compatible(rules[j])
    requires rules != [] && MatchLength(rules[0].0, current) == 0
    ensures FirstMatch(current, rules) == FirstMatch(current, rules[1..])
  {
  }

  // ---------------------------------------------------------------------
  // The scan
  // ---------------------------------------------------------------------

  /** The outcome of one iteration of the loop in `tokenize`. */
  datatype Step =
    | Finished
    | Stuck(error: TokenizeError)
    | Scanned(token: Token, newSource: string, line: nat, column: nat)

  /** One iteration of the loop in `tokenize`: eat whitespace, move the
      position past it, try the token patterns; on a match, record the token
      at that position and move the position past its text. */
  function ScanStep(current: string, line: nat, column: nat): (r: Step)
    ensures r.Scanned? ==> |r.newSource| < |current|
  {
    var eaten := Eat(current, PatternWhitespace);
    var whitespace := eaten.1.GetOr("");
    var position := GetNewPosition(whitespace, line, column);
    var next := NextToken(eaten.0);
    if next.None? then
      if eaten.0 == "" then Finished
      else Stuck(UnknownSequence(eaten.0, position.0, position.1))
    else
      var result := next.value;
      var after := GetNewPosition(result.eatenStr, position.0, position.1);
      Scanned(Token(result.matchedKind, whitespace, position.0, position.1), result.newSource, after.0, after.1)
  }

  /** An iteration that finds nothing after the whitespace ends the scan
      when the whitespace was all that was left. */
  lemma ScanStepFinished(current: string, line: nat, column: nat)
    ensures ScanStep(current, line, column).Finished? ==> AllWhitespace(current)
  {
    hide Eat, NextToken, GetNewPosition, MatchLength;
    var eaten := Eat(current, PatternWhitespace);
    if ScanStep(current, line, column).Finished? {
      var n := MatchLength(PatternWhitespace, current);
      MatchLengthClasses(PatternWhitespace, current);
      assert current == current[..n];
    }
  }

  /** An iteration fails at a non-empty suffix that starts with neither
      whitespace nor anything a token pattern accepts, at the position
      reached by reading the whitespace in front of it. */
  lemma ScanStepStuck(current: string, line: nat, column: nat)
    ensures var r := ScanStep(current, line, column);
      r.Stuck? ==>
        var rem := r.error.remainder;
        && 0 < |rem| <= |current|
        && current[|current| - |rem|..] == rem
        && !IsWhitespace(rem[0])
        && NoPatternAccepts(rem)
        && (r.error.line, r.error.column) == Walk(current[..|current| - |rem|], line, column)
  {
    hide Eat, NextToken, GetNewPosition, MatchLength;
    var eaten := Eat(current, PatternWhitespace);
    var whitespace := eaten.1.GetOr("");
    var r := ScanStep(current, line, column);
    if r.Stuck? {
      assert current == whitespace + r.error.remainder;
      assert current[..|current| - |r.error.remainder|] == whitespace;
      MatchLengthClasses(PatternWhitespace, current);
      GetNewPositionIsWalk(whitespace, line, column);
    }
  }

  /** An iteration that finds a token splits off the whitespace and the
      token's text; the token's position is reached by reading the
      whitespace, the next one by reading the token's text as well. */
  lemma ScanStepScanned(current: string, line: nat, column: nat)
    ensures var r := ScanStep(current, line, column);
      r.Scanned? ==>
        && current == r.token.whitespace + TokenText(r.token.kind) + r.newSource
        && WellFormed(r.token)
        && (r.token.line, r.token.column) == Walk(r.token.whitespace, line, column)
        && (r.line, r.column) == Walk(TokenText(r.token.kind), r.token.line, r.token.column)
  {
    hide Eat, NextToken, GetNewPosition, MatchLength;
    var eaten := Eat(current, PatternWhitespace);
    var whitespace := eaten.1.GetOr("");
    var r := ScanStep(current, line, column);
    if r.Scanned? {
      var n := MatchLength(PatternWhitespace, current);
      MatchLengthClasses(PatternWhitespace, current);
      assert whitespace == current[..n];
      var next := NextToken(eaten.0).value;
      assert current == whitespace + (next.eatenStr + next.newSource);
      GetNewPositionIsWalk(whitespace, line, column);
      GetNewPositionIsWalk(next.eatenStr, r.token.line, r.token.column);
    }
  }

  /** Puts `tokens` in front of the token list of a successful result. */
  function Prepend(tokens: seq<Token>, r: Result<seq<Token>, TokenizeError>): Result<seq<Token>, TokenizeError>
  {
    match r
    case Ok(rest) => Ok(tokens + rest)
    case Err(e) => Err(e)
  }

  /** What `tokenize` computes from the remaining text `current` at
      `line`, `column`: one loop iteration per recursive call, ending with
      success when only whitespace is left and with UnknownSequence when no
      token pattern matches after the whitespace. */
  function TokenizeFrom(current: string, line: nat, column: nat): (r: Result<seq<Token>, TokenizeError>)
    ensures r.Err? ==> 0 < |r.error.remainder| <= |current|
    decreases |current|
  {
    ScanStepStuck(current, line, column);
    match ScanStep(current, line, column)
    case Finished => Ok([])
    case Stuck(error) => Err(error)
    case Scanned(token, newSource, line2, column2) => Prepend([token], TokenizeFrom(newSource, line2, column2))
  }

  lemma PrependNothing(r: Result<seq<Token>, TokenizeError>)
    ensures Prepend([], r) == r
  {
    if r.Ok? {
      assert [] + r.value == r.value;
    }
  }

  lemma PrependPrepend(a: seq<Token>, b: seq<Token>, r: Result<seq<Token>, TokenizeError>)
    ensures Prepend(a, Prepend(b, r)) == Prepend(a + b, r)
  {
    if r.Ok? {
      assert a + (b + r.value) == (a + b) + r.value;
    }
  }


  // ---------------------------------------------------------------------
  // What a scan produces
  // ---------------------------------------------------------------------

  /** The text a token list was read from, leaving out trailing whitespace. */
  function Flatten(tokens: seq<Token>): string
  {
    if tokens == [] then "" else tokens[0].whitespace + TokenText(tokens[0].kind) + Flatten(tokens[1..])
  }

  /** Offset in the source of the first character of token `i`'s text. */
  function TokenStart(tokens: seq<Token>, i: nat): nat
    requires i < |tokens|
  {
    |Flatten(tokens[..i])| + |tokens[i].whitespace|
  }

  /** Round trip: on success the whitespace and text of the tokens, in order,
      spell the source up to its trailing whitespace; every token's
      whitespace is whitespace and its text is non-empty and has none. */
  lemma {:induction false} TokenizeRoundTrip(current: string, line: nat, column: nat)
    requires TokenizeFrom(current, line, column).Ok?
    ensures var tokens := TokenizeFrom(current, line, column).value;
      var text := Flatten(tokens);
      && |text| <= |current|
      && current[..|text|] == text
      && AllWhitespace(current[|text|..])
      && (text == [] || !IsWhitespace(text[|text| - 1]))
      && (forall i :: 0 <= i < |tokens| ==> WellFormed(tokens[i]))
    decreases |current|
  {
    hide ScanStep;
    var tokens := TokenizeFrom(current, line, column).value;
    ScanStepFinished(current, line, column);
    ScanStepScanned(current, line, column);
    match ScanStep(current, line, column)
    case Finished =>
      assert tokens == [];
      assert current[|Flatten(tokens)|..] == current;
    case Scanned(token, newSource, line2, column2) =>
      var restResult := TokenizeFrom(newSource, line2, column2);
      TokenizeRoundTrip(newSource, line2, column2);
      var rest := restResult.value;
      assert tokens == [token] + rest;
      assert tokens[1..] == rest;
      PrefixUpToTrailingWhitespace(token.whitespace, TokenText(token.kind), newSource, Flatten(rest));
      forall i | 0 <= i < |tokens|
        ensures WellFormed(tokens[i])
      {
        if i > 0 {
          assert tokens[i] == rest[i - 1];
        }
      }
  }

  /** The string step of the round trip: a token and its whitespace in front
      of a text that spells `rest` up to its trailing whitespace. */
  lemma PrefixUpToTrailingWhitespace(whitespace: string, text: string, rest: string, restText: string)
    requires 0 < |text| && NoWhitespace(text)
    requires |restText| <= |rest| && rest[..|restText|] == restText && AllWhitespace(rest[|restText|..])
    requires restText == [] || !IsWhitespace(restText[|restText| - 1])
    ensures var current := whitespace + text + rest;
      var spelled := whitespace + text + restText;
      && |spelled| <= |current|
      && current[..|spelled|] == spelled
      && AllWhitespace(current[|spelled|..])
      && !IsWhitespace(spelled[|spelled| - 1])
  {
    var current := whitespace + text + rest;
    var spelled := whitespace + text + restText;
    assert current[|spelled|..] == rest[|restText|..];
    if restText == [] {
      assert spelled[|spelled| - 1] == text[|text| - 1];
    } else {
      assert spelled[|spelled| - 1] == restText[|restText| - 1];
    }
  }

  /** Every token of `tokens` starts inside `text`, at the line and column
      reached by reading `text` up to the token's first character. */
  predicate PositionsFollow(tokens: seq<Token>, text: string, line: nat, column: nat)
  {
    forall i :: 0 <= i < |tokens| ==>
      && TokenStart(tokens, i) <= |text|
      && (tokens[i].line, tokens[i].column) == Walk(text[..TokenStart(tokens, i)], line, column)
  }

  /** Each token's line and column are those reached by reading the source
      up to the first character of the token's text, that is past the
      tokens before it and its own whitespace. */
  lemma {:induction false} TokenPositions(current: string, line: nat, column: nat)
    requires TokenizeFrom(current, line, column).Ok?
    ensures PositionsFollow(TokenizeFrom(current, line, column).value, current, line, column)
    decreases |current|
  {
    hide ScanStep;
    var tokens := TokenizeFrom(current, line, column).value;
    ScanStepScanned(current, line, column);
    match ScanStep(current, line, column)
    case Finished =>
      assert tokens == [];
    case Scanned(token, newSource, line2, column2) =>
      TokenPositions(newSource, line2, column2);
      var rest := TokenizeFrom(newSource, line2, column2).value;
      assert tokens == [token] + rest;
      PositionsFollowCons(token, rest, newSource, line, column);
  }

  /** Positions that follow the text after `token` follow the whole text
      once `token`'s whitespace and text are put in front. */
  lemma PositionsFollowCons(token: Token, rest: seq<Token>, newSource: string, line: nat, column: nat)
    requires (token.line, token.column) == Walk(token.whitespace, line, column)
    requires var middle := Walk(TokenText(token.kind), token.line, token.column);
      PositionsFollow(rest, newSource, middle.0, middle.1)
    ensures PositionsFollow([token] + rest, token.whitespace + TokenText(token.kind) + newSource, line, column)
  {
    var tokens := [token] + rest;
    var prefix := token.whitespace + TokenText(token.kind);
    var current := prefix + newSource;
    WalkAppend(token.whitespace, TokenText(token.kind), line, column);
    forall i | 0 <= i < |tokens|
      ensures TokenStart(tokens, i) <= |current|
      ensures (tokens[i].line, tokens[i].column) == Walk(current[..TokenStart(tokens, i)], line, column)
    {
      if i == 0 {
        assert tokens[..0] == [];
        assert current[..TokenStart(tokens, 0)] == token.whitespace;
      } else {
        TokenStartShift(token, rest, i);
        ReadPast(prefix, newSource, TokenStart(rest, i - 1), line, column);
      }
    }
  }

  /** Token `i` of a list with `token` in front is token `i - 1` of the
      rest, moved along by the whitespace and text of `token`. */
  lemma TokenStartShift(token: Token, rest: seq<Token>, i: nat)
    requires 0 < i <= |rest|
    ensures ([token] + rest)[i] == rest[i - 1]
    ensures TokenStart([token] + rest, i)
      == |token.whitespace + TokenText(token.kind)| + TokenStart(rest, i - 1)
  {
    var tokens := [token] + rest;
    assert tokens[..i][1..] == rest[..i - 1];
    assert Flatten(tokens[..i]) == token.whitespace + TokenText(token.kind) + Flatten(rest[..i - 1]);
  }

  /** Reading `prefix` and then the first `k` characters of `rest`. */
  lemma ReadPast(prefix: string, rest: string, k: nat, line: nat, column: nat)
    requires k <= |rest|
    ensures (prefix + rest)[..|prefix| + k] == prefix + rest[..k]
    ensures (prefix + rest)[|prefix| + k..] == rest[k..]
    ensures var middle := Walk(prefix, line, column);
      Walk((prefix + rest)[..|prefix| + k], line, column) == Walk(rest[..k], middle.0, middle.1)
  {
    assert (prefix + rest)[..|prefix| + k] == prefix + rest[..k];
    WalkAppend(prefix, rest[..k], line, column);
  }

  /** On failure the error carries the unconsumed rest of the source: a
      non-empty suffix that starts with a character which is not whitespace
      and which no token pattern accepts, together with the line and column
      reached by reading the source up to it. */
  lemma {:induction false} UnknownSequenceAt(current: string, line: nat, column: nat)
    requires TokenizeFrom(current, line, column).Err?
    ensures StuckAt(TokenizeFrom(current, line, column).error, current, line, column)
    decreases |current|
  {
    hide ScanStep;
    ScanStepStuck(current, line, column);
    ScanStepScanned(current, line, column);
    match ScanStep(current, line, column)
    case Stuck(error) =>
      assert TokenizeFrom(current, line, column).error == error;
    case Scanned(token, newSource, line2, column2) =>
      UnknownSequenceAt(newSource, line2, column2);
      assert TokenizeFrom(current, line, column).error == TokenizeFrom(newSource, line2, column2).error;
      StuckAtCons(token, newSource, TokenizeFrom(newSource, line2, column2).error, line, column);
  }

  /** `e` names a non-empty suffix of `text` that starts with a character
      which is not whitespace and which no token pattern accepts, and the
      line and column reached by reading `text` up to it. */
  predicate StuckAt(e: TokenizeError, text: string, line: nat, column: nat)
  {
    var consumed := |text| - |e.remainder|;
    && 0 < |e.remainder| <= |text|
    && text[consumed..] == e.remainder
    && !IsWhitespace(e.remainder[0])
    && NoPatternAccepts(e.remainder)
    && (e.line, e.column) == Walk(text[..consumed], line, column)
  }

  /** An error that is stuck in the text after `token` is stuck in the whole
      text once `token`'s whitespace and text are put in front. */
  lemma StuckAtCons(token: Token, newSource: string, e: TokenizeError, line: nat, column: nat)
    requires (token.line, token.column) == Walk(token.whitespace, line, column)
    requires var middle := Walk(TokenText(token.kind), token.line, token.column);
      StuckAt(e, newSource, middle.0, middle.1)
    ensures StuckAt(e, token.whitespace + TokenText(token.kind) + newSource, line, column)
  {
    var prefix := token.whitespace + TokenText(token.kind);
    var k := |newSource| - |e.remainder|;
    WalkAppend(token.whitespace, TokenText(token.kind), line, column);
    ReadPast(prefix, newSource, k, line, column);
    assert |prefix + newSource| - |e.remainder| == |prefix| + k;
  }

  /** `tokenize`: the loop of the source, proved to compute TokenizeFrom from
      line 1, column 1. */
  method Tokenize(source: string) returns (r: Result<seq<Token>, TokenizeError>)
    ensures r == TokenizeFrom(source, 1, 1)
  {
    hide Eat, NextToken, GetNewPosition, MatchLength;
    var tokens: seq<Token> := [];
    var current := source;
    var currentLine: nat := 1;
    var currentColumn: nat := 1;
    PrependNothing(TokenizeFrom(source, 1, 1));

    while true
      invariant TokenizeFrom(source, 1, 1) == Prepend(tokens, TokenizeFrom(current, currentLine, currentColumn))
      decreases |current|
    {
      ghost var before, lineBefore, columnBefore := current, currentLine, currentColumn;
      var (nextCurrent, matchedWhitespace) := Eat(current, PatternWhitespace);
      var whitespace := matchedWhitespace.GetOr("");
      current := nextCurrent;

      var position := GetNewPosition(whitespace, currentLine, currentColumn);
      currentLine, currentColumn := position.0, position.1;

      var result := NextToken(current);
      if result.None? {
        assert TokenizeFrom(before, lineBefore, columnBefore) ==
          if current == "" then Ok([]) else Err(UnknownSequence(current, currentLine, currentColumn));
        assert tokens + [] == tokens;
        break;
      }
      var token := Token(result.value.matchedKind, whitespace, currentLine, currentColumn);
      current := result.value.newSource;
      position := GetNewPosition(result.value.eatenStr, currentLine, currentColumn);
      currentLine, currentColumn := position.0, position.1;
      assert TokenizeFrom(before, lineBefore, columnBefore) == Prepend([token], TokenizeFrom(current, currentLine, currentColumn));
      PrependPrepend(tokens, [token], TokenizeFrom(current, currentLine, currentColumn));
      tokens := tokens + [token];
    }

    if current == "" {
      r := Ok(tokens);
    } else {
      r := Err(UnknownSequence(current, currentLine, currentColumn));
    }
  }
}
