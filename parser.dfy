/** The recursive-descent parser of src/parser.rs. A parse state is an
    immutable cursor over the token list; every rule takes a state and gives
    back either the state after what it read together with a syntax node,
    or, on failure, the state at which it failed. */
module Parser {
  import opened Wrappers
  import Lexer = Tokenizer

  // ---------------------------------------------------------------------
  // The cursor
  // ---------------------------------------------------------------------

  /** A position in a token list; it may lie past the end. */
  datatype ParseState = ParseState(tokens: seq<Lexer.Token>, position: nat)

  /** Success carries the state after the rule and its node; failure
      carries the state at which the rule gave up. */
  type ParseResult<T> = Result<(ParseState, T), ParseState>

  /** The state at the first token. */
  function New(tokens: seq<Lexer.Token>): (s: ParseState)
    ensures s.tokens == tokens
    ensures s.position == 0
    ensures Peek(s) == if tokens == [] then None else Some(tokens[0])
  {
    ParseState(tokens, 0)
  }

  /** The token under the cursor, if the cursor is inside the list. */
  function Peek(s: ParseState): (r: Option<Lexer.Token>)
    ensures r.Some? <==> s.position < |s.tokens|
    ensures r.Some? ==> r.value == s.tokens[s.position]
  {
    if s.position < |s.tokens| then Some(s.tokens[s.position]) else None
  }

  /** The same token list with the cursor moved on by `amount`. */
  function Advance(s: ParseState, amount: nat): (r: ParseState)
    ensures r.tokens == s.tokens
    ensures r.position == s.position + amount
  {
    ParseState(s.tokens, s.position + amount)
  }

  /** The token `offset` places after the cursor has kind `kind`. */
  predicate KindAt(s: ParseState, offset: nat, kind: Lexer.TokenKind)
  {
    s.position + offset < |s.tokens| && s.tokens[s.position + offset].kind == kind
  }

  /** `eat_simple`: take the next token when its kind is `kind`, otherwise
      fail without moving. */
  function EatSimple(s: ParseState, kind: Lexer.TokenKind): (r: ParseResult<Lexer.Token>)
    ensures r.Ok? <==> KindAt(s, 0, kind)
    ensures r.Ok? ==> r.value.0 == Advance(s, 1) && r.value.1 == s.tokens[s.position]
    ensures r.Err? ==> r.error == s
    ensures s.position <= |s.tokens| && r.Ok? ==> r.value.0.position <= |s.tokens|
  {
    match Peek(s)
    case Some(token) =>
      if token.kind == kind then Ok((Advance(s, 1), token)) else Err(s)
    case None => Err(s)
  }

  // ---------------------------------------------------------------------
  // Syntax tree
  // ---------------------------------------------------------------------

  /** A number, as the text of its token. */
  datatype NumberLiteral = NumberLiteral(value: string)

  /** Declared with the expressions; no rule builds one. */
  datatype BinaryOperator = BinaryOperator(left: Expression, right: Expression, operator: string)

  datatype Expression =
    | NumberExpression(literal: NumberLiteral)
    | BinaryOperatorExpression(binary: BinaryOperator)

  datatype LocalAssignment = LocalAssignment(name: string, value: Expression)

  datatype FunctionCall = FunctionCall(name: string, arguments: seq<Expression>)

  datatype Statement = LocalAssignmentStatement(assignment: LocalAssignment)

  datatype Chunk = Chunk(statements: seq<Statement>)

  // ---------------------------------------------------------------------
  // Single tokens
  // ---------------------------------------------------------------------

  /** The token `offset` places after the cursor is a number literal. */
  predicate NumberAt(s: ParseState, offset: nat)
  {
    s.position + offset < |s.tokens| && s.tokens[s.position + offset].kind.NumberLiteral?
  }

  /** The token `offset` places after the cursor is an identifier. */
  predicate IdentifierAt(s: ParseState, offset: nat)
  {
    s.position + offset < |s.tokens| && s.tokens[s.position + offset].kind.Identifier?
  }

  /** The expression a number token stands for. */
  function NumberExpressionOf(token: Lexer.Token): Expression
    requires token.kind.NumberLiteral?
  {
    NumberExpression(NumberLiteral(token.kind.text))
  }

  /** `parse_number_literal`: a number token, kept as its text. */
  function ParseNumberLiteral(s: ParseState): (r: ParseResult<NumberLiteral>)
    ensures r.Ok? <==> NumberAt(s, 0)
    ensures r.Ok? ==> r.value == (Advance(s, 1), NumberLiteral(s.tokens[s.position].kind.text))
    ensures r.Err? ==> r.error == s
  {
    match Peek(s)
    case Some(token) =>
      if token.kind.NumberLiteral? then Ok((Advance(s, 1), NumberLiteral(token.kind.text))) else Err(s)
    case None => Err(s)
  }

  /** `parse_identifier`: an identifier token, kept as its name. */
  function ParseIdentifier(s: ParseState): (r: ParseResult<string>)
    ensures r.Ok? <==> IdentifierAt(s, 0)
    ensures r.Ok? ==> r.value == (Advance(s, 1), s.tokens[s.position].kind.text)
    ensures r.Err? ==> r.error == s
  {
    match Peek(s)
    case Some(token) =>
      if token.kind.Identifier? then Ok((Advance(s, 1), token.kind.text)) else Err(s)
    case None => Err(s)
  }

  /** `parse_expression`: only number literals are expressions. */
  function ParseExpression(s: ParseState): (r: ParseResult<Expression>)
    ensures r.Ok? <==> NumberAt(s, 0)
    ensures r.Ok? ==> r.value == (Advance(s, 1), NumberExpressionOf(s.tokens[s.position]))
    ensures r.Err? ==> r.error == s
  {
    var literal :- ParseNumberLiteral(s);
    Ok((literal.0, NumberExpression(literal.1)))
  }

  // ---------------------------------------------------------------------
  // Statements
  // ---------------------------------------------------------------------

  /** Slot `slot` of `local Name = Number` is filled by the token `slot`
      places after the cursor. */
  predicate LocalAssignmentSlot(s: ParseState, slot: nat)
  {
    match slot
    case 0 => KindAt(s, 0, Lexer.Keyword("local"))
    case 1 => IdentifierAt(s, 1)
    case 2 => KindAt(s, 2, Lexer.Operator("="))
    case 3 => NumberAt(s, 3)
    case _ => false
  }

  /** The four tokens at the cursor spell `local Name = Number`. */
  predicate LocalAssignmentAt(s: ParseState)
  {
    LocalAssignmentSlot(s, 0) && LocalAssignmentSlot(s, 1) && LocalAssignmentSlot(s, 2) && LocalAssignmentSlot(s, 3)
  }

  /** The first `count` slots of `local Name = Number` are filled. */
  predicate SlotsFilled(s: ParseState, count: nat)
  {
    && (count > 0 ==> LocalAssignmentSlot(s, 0))
    && (count > 1 ==> LocalAssignmentSlot(s, 1))
    && (count > 2 ==> LocalAssignmentSlot(s, 2))
    && (count > 3 ==> LocalAssignmentSlot(s, 3))
  }

  /** The assignment the four tokens at the cursor spell. */
  function LocalAssignmentOf(s: ParseState): LocalAssignment
    requires LocalAssignmentAt(s)
  {
    LocalAssignment(s.tokens[s.position + 1].kind.text, NumberExpressionOf(s.tokens[s.position + 3]))
  }

  /** `parse_local_assignment`: `local Name = Number`. Each step that fails
      hands back the state it was given, so a failure is reported at the
      first token that does not fit, past the ones that did. */
  function ParseLocalAssignment(s: ParseState): (r: ParseResult<LocalAssignment>)
    ensures r.Ok? <==> LocalAssignmentAt(s)
    ensures r.Ok? ==> r.value == (Advance(s, 4), LocalAssignmentOf(s))
    ensures r.Err? ==>
      var failedAt := r.error.position - s.position;
      && r.error.tokens == s.tokens
      && s.position <= r.error.position
      && failedAt < 4
      && SlotsFilled(s, failedAt)
      && !LocalAssignmentSlot(s, failedAt)
      && (s.position <= |s.tokens| ==> r.error.position <= |s.tokens|)
  {
    var keyword :- EatSimple(s, Lexer.Keyword("local"));
    var name :- ParseIdentifier(keyword.0);
    var equals :- EatSimple(name.0, Lexer.Operator("="));
    var expression :- ParseExpression(equals.0);
    Ok((expression.0, LocalAssignment(name.1, expression.1)))
  }

  /** `parse_statement`: a local assignment is the only statement; its
      failure state is passed on unchanged. */
  function ParseStatement(s: ParseState): (r: ParseResult<Statement>)
    ensures r.Ok? <==> LocalAssignmentAt(s)
    ensures r.Ok? ==> r.value == (Advance(s, 4), LocalAssignmentStatement(LocalAssignmentOf(s)))
    ensures r.Err? ==> r.error == ParseLocalAssignment(s).error
  {
    var assignment :- ParseLocalAssignment(s);
    Ok((assignment.0, LocalAssignmentStatement(assignment.1)))
  }

  /** The cursor's distance to the end of the list, zero once past it. */
  function Remaining(s: ParseState): nat
  {
    if s.position <= |s.tokens| then |s.tokens| - s.position else 0
  }

  // ---------------------------------------------------------------------
  // Expression lists and function calls
  // ---------------------------------------------------------------------

  /** `expressions` are the number tokens at the cursor, one for one. */
  predicate NumbersAt(s: ParseState, expressions: seq<Expression>)
    decreases |expressions|
  {
    expressions != [] ==>
      && NumberAt(s, 0)
      && expressions[0] == NumberExpressionOf(s.tokens[s.position])
      && NumbersAt(Advance(s, 1), expressions[1..])
  }

  /** What the loop of `parse_expression_list` computes: expressions are
      read one after the other until one fails; that failure's state is the
      final state. */
  function ExpressionListFrom(s: ParseState): (r: (ParseState, seq<Expression>))
    ensures r.0.tokens == s.tokens
    ensures r.0.position == s.position + |r.1|
    ensures NumbersAt(s, r.1)
    ensures !NumberAt(r.0, 0)
    decreases Remaining(s)
  {
    match ParseExpression(s)
    case Ok((next, expression)) =>
      var rest := ExpressionListFrom(next);
      var expressions := [expression] + rest.1;
      assert expressions[1..] == rest.1;
      (rest.0, expressions)
    case Err(next) => (next, [])
  }

  /** Expression `i` of a run of numbers is the number token `i` places
      after the cursor. */
  lemma {:induction false} NumbersAtIndex(s: ParseState, expressions: seq<Expression>)
    requires NumbersAt(s, expressions)
    ensures forall i :: 0 <= i < |expressions| ==>
      NumberAt(s, i) && expressions[i] == NumberExpressionOf(s.tokens[s.position + i])
    decreases |expressions|
  {
    if expressions != [] {
      var next := Advance(s, 1);
      var rest := expressions[1..];
      NumbersAtIndex(next, rest);
      forall i | 0 <= i < |expressions|
        ensures NumberAt(s, i) && expressions[i] == NumberExpressionOf(s.tokens[s.position + i])
      {
        if i > 0 {
          var j := i - 1;
          assert expressions[i] == rest[j];
          assert NumberAt(next, j);
          assert next.tokens[next.position + j] == s.tokens[s.position + i];
        }
      }
    }
  }

  /** The run of numbers read is the longest one at the cursor: every
      token of it is a number and the token after it is not. */
  lemma {:induction false} ExpressionListMaximal(s: ParseState, n: nat)
    requires forall i :: 0 <= i < n ==> NumberAt(s, i)
    requires !NumberAt(s, n)
    ensures |ExpressionListFrom(s).1| == n
    decreases n
  {
    if n > 0 {
      var next := Advance(s, 1);
      forall i | 0 <= i < n - 1
        ensures NumberAt(next, i)
      {
        assert NumberAt(s, i + 1);
      }
      assert !NumberAt(next, n - 1);
      ExpressionListMaximal(next, n - 1);
    }
  }

  /** `parse_expression_list`: the loop of the source, proved to compute
      ExpressionListFrom. It never fails. */
  method ParseExpressionList(s: ParseState) returns (state: ParseState, expressions: seq<Expression>)
    ensures (state, expressions) == ExpressionListFrom(s)
  {
    hide ParseExpression, ParseNumberLiteral, NumbersAt;
    expressions := [];
    state := s;
    assert expressions + ExpressionListFrom(s).1 == ExpressionListFrom(s).1;
    while true
      invariant ExpressionListFrom(s) == (ExpressionListFrom(state).0, expressions + ExpressionListFrom(state).1)
      decreases Remaining(state)
    {
      var result := ParseExpression(state);
      if result.Err? {
        state := result.error;
        assert expressions + [] == expressions;
        break;
      }
      var expression := result.value.1;
      ghost var rest := ExpressionListFrom(result.value.0);
      assert ExpressionListFrom(state) == (rest.0, [expression] + rest.1);
      assert expressions + ([expression] + rest.1) == (expressions + [expression]) + rest.1;
      expressions := expressions + [expression];
      state := result.value.0;
    }
  }

  /** `parse_function_call`: `Name ( Number* )`, the arguments being the
      run of numbers after the parenthesis; a failure is reported at the
      name, at the open parenthesis or after the arguments. */
  function ParseFunctionCall(s: ParseState): (r: ParseResult<FunctionCall>)
    ensures var arguments := ExpressionListFrom(Advance(s, 2)).1;
      var closeAt := 2 + |arguments|;
      && (r.Ok? <==> IdentifierAt(s, 0) && KindAt(s, 1, Lexer.OpenParen) && KindAt(s, closeAt, Lexer.CloseParen))
      && (r.Ok? ==> r.value == (Advance(s, closeAt + 1), FunctionCall(s.tokens[s.position].kind.text, arguments)))
      && (!IdentifierAt(s, 0) ==> r == Err(s))
      && (IdentifierAt(s, 0) && !KindAt(s, 1, Lexer.OpenParen) ==> r == Err(Advance(s, 1)))
      && (IdentifierAt(s, 0) && KindAt(s, 1, Lexer.OpenParen) && !KindAt(s, closeAt, Lexer.CloseParen) ==>
            r == Err(Advance(s, closeAt)))
  {
    var name :- ParseIdentifier(s);
    var open :- EatSimple(name.0, Lexer.OpenParen);
    var list := ExpressionListFrom(open.0);
    var close :- EatSimple(list.0, Lexer.CloseParen);
    Ok((close.0, FunctionCall(name.1, list.1)))
  }

  // ---------------------------------------------------------------------
  // Chunks
  // ---------------------------------------------------------------------

  /** What the loop of `parse_chunk` computes: statements are read one after
      the other until one fails; that failure's state is the final state. */
  function ChunkFrom(s: ParseState): (r: (ParseState, seq<Statement>))
    ensures r.0.tokens == s.tokens
    ensures s.position + 4 * |r.1| <= r.0.position < s.position + 4 * |r.1| + 4
    ensures s.position <= |s.tokens| ==> r.0.position <= |s.tokens|
    ensures ParseStatement(Advance(s, 4 * |r.1|)).Err?
    ensures r.0 == ParseStatement(Advance(s, 4 * |r.1|)).error
    decreases Remaining(s)
  {
    match ParseStatement(s)
    case Ok((next, statement)) =>
      var rest := ChunkFrom(next);
      var statements := [statement] + rest.1;
      assert 4 * |statements| == 4 * |rest.1| + 4;
      assert Advance(next, 4 * |rest.1|) == Advance(s, 4 * |statements|);
      (rest.0, statements)
    case Err(next) => (next, [])
  }

  /** The statements come out in source order: statement `i` is the local
      assignment spelled by the four tokens starting `4 * i` places after
      the cursor. */
  lemma {:induction false} ChunkStatementsInOrder(s: ParseState)
    ensures var statements := ChunkFrom(s).1;
      forall i :: 0 <= i < |statements| ==>
        && LocalAssignmentAt(Advance(s, 4 * i))
        && statements[i] == LocalAssignmentStatement(LocalAssignmentOf(Advance(s, 4 * i)))
    decreases Remaining(s)
  {
    hide ParseStatement;
    var r := ParseStatement(s);
    if r.Ok? {
      var next := r.value.0;
      ChunkStatementsInOrder(next);
      var statements := ChunkFrom(s).1;
      forall i | 0 <= i < |statements|
        ensures LocalAssignmentAt(Advance(s, 4 * i))
        ensures statements[i] == LocalAssignmentStatement(LocalAssignmentOf(Advance(s, 4 * i)))
      {
        if i > 0 {
          assert Advance(next, 4 * (i - 1)) == Advance(s, 4 * i);
        }
      }
    }
  }

  /** `parse_chunk`: the loop of the source, proved to compute ChunkFrom.
      It never fails. */
  method ParseChunk(s: ParseState) returns (r: ParseResult<Chunk>)
    ensures r == Ok((ChunkFrom(s).0, Chunk(ChunkFrom(s).1)))
  {
    hide ParseStatement, ParseLocalAssignment;
    var statements: seq<Statement> := [];
    var state := s;
    assert statements + ChunkFrom(s).1 == ChunkFrom(s).1;
    while true
      invariant ChunkFrom(s) == (ChunkFrom(state).0, statements + ChunkFrom(state).1)
      decreases Remaining(state)
    {
      var result := ParseStatement(state);
      if result.Err? {
        state := result.error;
        assert statements + [] == statements;
        break;
      }
      var statement := result.value.1;
      ghost var rest := ChunkFrom(result.value.0);
      assert ChunkFrom(state) == (rest.0, [statement] + rest.1);
      assert statements + ([statement] + rest.1) == (statements + [statement]) + rest.1;
      statements := statements + [statement];
      state := result.value.0;
    }
    r := Ok((state, Chunk(statements)));
  }

  /** `parse`: the chunk read from the first token. It always gives a
      chunk: the `None` branch is never taken, and the tokens after the
      statements read are not looked at. */
  method Parse(tokens: seq<Lexer.Token>) returns (r: Option<Chunk>)
    ensures r == Some(Chunk(ChunkFrom(New(tokens)).1))
    ensures var statements := r.value.statements;
      && 4 * |statements| <= |tokens|
      && !LocalAssignmentAt(Advance(New(tokens), 4 * |statements|))
      && forall i :: 0 <= i < |statements| ==>
        && LocalAssignmentAt(Advance(New(tokens), 4 * i))
        && statements[i] == LocalAssignmentStatement(LocalAssignmentOf(Advance(New(tokens), 4 * i)))
  {
    hide ChunkFrom, ParseStatement;
    var state := New(tokens);
    var result := ParseChunk(state);
    ChunkStatementsInOrder(state);
    match result
    case Ok((_, chunk)) =>
      r := Some(chunk);
    case Err(_) =>
      r := None;
  }

  /** `parse` does not look at what follows the statements it read: when
      the statements read use up the tokens, appending tokens that do not
      start with `local` leaves the statements as they are. */
  lemma ParseIgnoresLeftovers(tokens: seq<Lexer.Token>, rest: seq<Lexer.Token>)
    requires 4 * |ChunkFrom(New(tokens)).1| == |tokens|
    requires rest == [] || rest[0].kind != Lexer.Keyword("local")
    ensures ChunkFrom(New(tokens + rest)).1 == ChunkFrom(New(tokens)).1
  {
    ChunkPrefix(New(tokens), rest);
  }

  /** Reading statements from a list that ends right after its last complete
      statement gives the same statements once more tokens that do not
      start a statement are appended. */
  lemma {:induction false} ChunkPrefix(s: ParseState, rest: seq<Lexer.Token>)
    requires s.position <= |s.tokens|
    requires s.position + 4 * |ChunkFrom(s).1| == |s.tokens|
    requires rest == [] || rest[0].kind != Lexer.Keyword("local")
    ensures ChunkFrom(ParseState(s.tokens + rest, s.position)).1 == ChunkFrom(s).1
    decreases Remaining(s)
  {
    hide ParseStatement;
    var t := ParseState(s.tokens + rest, s.position);
    if ParseStatement(s).Ok? {
      var next := Advance(s, 4);
      assert LocalAssignmentAt(t);
      assert LocalAssignmentOf(t) == LocalAssignmentOf(s);
      ChunkPrefix(next, rest);
      assert Advance(t, 4) == ParseState(next.tokens + rest, next.position);
    } else {
      assert s.position == |s.tokens|;
      assert !LocalAssignmentSlot(t, 0);
    }
  }

  /** `local x = (` fails at the parenthesis: the failure state is three
      tokens on, not the state the statement started from, and it is the
      final state of the chunk. */
  lemma FailureIsNotRewound()
    ensures var tokens := [
        Lexer.Token(Lexer.Keyword("local"), "", 1, 1),
        Lexer.Token(Lexer.Identifier("x"), " ", 1, 7),
        Lexer.Token(Lexer.Operator("="), " ", 1, 9),
        Lexer.Token(Lexer.OpenParen, " ", 1, 11)];
      && ParseLocalAssignment(New(tokens)) == Err(ParseState(tokens, 3))
      && ChunkFrom(New(tokens)) == (ParseState(tokens, 3), [])
  {
    var tokens := [
      Lexer.Token(Lexer.Keyword("local"), "", 1, 1),
      Lexer.Token(Lexer.Identifier("x"), " ", 1, 7),
      Lexer.Token(Lexer.Operator("="), " ", 1, 9),
      Lexer.Token(Lexer.OpenParen, " ", 1, 11)];
    var s := New(tokens);
    assert SlotsFilled(s, 3) && !LocalAssignmentSlot(s, 3);
  }
}
