# lua-parser: tokenizer and parser, modelled in Dafny

This project models the two stages of the `lua-parser` crate.

The **tokenizer** (`src/tokenizer.rs`) scans a Lua source string from left to right. Each step:
- eats a run of whitespace;
- tries five anchored patterns in a fixed order: identifier or keyword, operator, number literal, `(`, `)`;
- records a `Token` with its kind, the whitespace before it, and its 1-based line and column;
- moves the line/column counters on with `get_new_position`.

It succeeds when the input is used up. It fails with `UnknownSequence` at the first non-whitespace text that no pattern accepts.

The **parser** (`src/parser.rs`) is a recursive-descent parser over an immutable cursor, `ParseState` (a token sequence plus a position). Every statement and expression rule maps a state to `Ok((state, value))` or `Err(state)`. Two functions differ: `parse_expression_list` always returns a plain `(state, expressions)` pair, and `parse` returns an `Option` of the chunk. The grammar the code implements is small:
- a chunk is a run of `local Name = Number` statements;
- function calls take a run of numbers with no separators.

Modules:

| file | module | contents |
|---|---|---|
| `wrappers.dfy` | `Wrappers` | `Option` and `Result`; `Result` supports `:-`, which plays the part of Rust's `?` |
| `patterns.dfy` | `Patterns` | the character classes, and the regular expressions of `tokenizer.rs` as hand-written recognisers that return the match length |
| `positions.dfy` | `Positions` | `get_new_position`, plus a character-by-character reference (`Walk`) it is proved equal to |
| `tokenizer.dfy` | `Tokenizer` | token types; the classification closure as a `Classifier` datatype; `try_advance`; `eat`; one scan step; the recursive specification `TokenizeFrom`; the loop method `Tokenize`; round-trip, position and error lemmas |
| `tokenizer_examples.dfy` | `TokenizerExamples` | the crate's unit-test expectations, as lemmas |
| `parser.dfy` | `Parser` | `ParseState` and its operations; the AST types of `parser.rs`; every rule; the loop methods `ParseExpressionList`, `ParseChunk` and `Parse`, proved equal to the recursive specifications `ExpressionListFrom` and `ChunkFrom` |

The three loops of the source are written as `while` loops: `tokenize`, `parse_expression_list` and `parse_chunk`. Each is proved to compute its recursive specification function. The properties are then proved about those functions.

## Model

| member | source | states |
|---|---|---|
| Patterns.Span | src/tokenizer.rs:79-85 | a greedy character-class run (the regex `*`/`+` quantifier) stays inside the string and stops in front of a character outside the class |
| Patterns.SpanAll | src/tokenizer.rs:79-85 | every character inside a run belongs to the class |
| Patterns.IdentifierLength | src/tokenizer.rs:79 | `^[_a-zA-Z][_a-zA-Z0-9]*`: non-empty exactly when the text starts with `_` or a letter; the match is maximal |
| Patterns.IdentifierChars | src/tokenizer.rs:79 | every character after the first in an identifier match is `_`, a letter or a digit |
| Patterns.SignLength | src/tokenizer.rs:80 | the optional `-` is taken exactly when the text starts with `-` |
| Patterns.HexLength | src/tokenizer.rs:80 | `-?0x[A-Fa-f\d]+` matches exactly when `0x` and at least one hex digit follow the optional sign; the match is at least 3 characters past the sign and maximal |
| Patterns.HexDigits | src/tokenizer.rs:80 | everything after `0x` in a hex match is a hex digit |
| Patterns.MantissaLength | src/tokenizer.rs:80 | `-?(?:\d*\.\d+\|\d+)` matches exactly when a digit, or `.` then a digit, follows the sign; the match ends in a digit and is followed by no digit |
| Patterns.MantissaChars | src/tokenizer.rs:80 | a mantissa match holds only digits and `.` after the sign |
| Patterns.MantissaOneDot | src/tokenizer.rs:80 | a mantissa match holds at most one `.` |
| Patterns.MantissaPrefersFraction | src/tokenizer.rs:80 | leftmost-first alternation: the match stops in front of `.digit` only when it already holds a `.` |
| Patterns.ExponentLength | src/tokenizer.rs:80 | `(?:[eE]-?\d+)?` is taken exactly when `e`/`E` is followed by a digit or by `-` and a digit; it is at least 2 characters and maximal |
| Patterns.ExponentDigits | src/tokenizer.rs:80 | everything after `e`/`E` and the sign is a digit |
| Patterns.NumberLiteralLength | src/tokenizer.rs:80 | the number pattern matches exactly when a digit, or `.` then a digit, follows the optional `-`; the hex alternative wins whenever it applies; otherwise the match is the decimal mantissa followed by its optional exponent |
| Patterns.NumberLiteralChars | src/tokenizer.rs:80 | a number match holds only digits, hex digits, `-`, `.`, `x`, `e` and `E` |
| Patterns.MatchLength | src/tokenizer.rs:79-85 | the match of each anchored pattern: whitespace runs are maximal, and token patterns never start on whitespace; the operator, `(` and `)` patterns match exactly one character when the text starts with one of `=+,{}[]`, with `(` or with `)` respectively, and nothing otherwise |
| Patterns.MatchLengthClasses | src/tokenizer.rs:79-85 | the whitespace pattern eats only whitespace; token patterns eat none |
| Positions.CountNewlines | src/tokenizer.rs:122 | the count of `\n` is zero exactly when the text holds no `\n` |
| Positions.LastNewline | src/tokenizer.rs:86 | the index found is a `\n`, and no `\n` follows it; there is none when the text has no `\n` |
| Positions.CharsAfterNewline | src/tokenizer.rs:127-131 | the capture of `\n([^\n]+)$` is the non-empty, newline-free suffix after a `\n` |
| Positions.CharsAfterNewlineExists | src/tokenizer.rs:127-135 | the capture exists exactly when some `\n` is followed, up to the end, by at least one character and by no other `\n` |
| Positions.GetNewPosition | src/tokenizer.rs:121-144 | the line grows by the number of `\n`; with no `\n` the column grows by the length; otherwise the column is 1 plus the characters after the last `\n` |
| Positions.GetNewPositionStep | src/tokenizer.rs:121-144 | reading one more character moves to column 1 of the next line on `\n`, and one column right otherwise |
| Positions.GetNewPositionIsWalk | src/tokenizer.rs:121-144 | `get_new_position` equals the character-by-character walk |
| Positions.WalkAppend | src/tokenizer.rs:121-144 | walking `a + b` is walking `a` and then `b` |
| Positions.GetNewPositionAppend | src/tokenizer.rs:164-199 | advancing over the whitespace and then the token equals advancing over both at once |
| Positions.CountNewlinesAppend | src/tokenizer.rs:122 | newline counts add up over concatenation |
| Positions.GetNewPositionExamples | src/tokenizer.rs:270-279 | `("test",1,1)` gives `(1,5)`; `("testy\ntest",1,1)` gives `(2,5)` |
| Tokenizer.ClassifyWord | src/tokenizer.rs:168-180 | Keyword exactly for the eight keywords; BoolLiteral for `true`/`false`; NilLiteral for `nil`; Identifier for every other word; the kind spells the word back |
| Tokenizer.TryAdvance | src/tokenizer.rs:91-109 | a result exists exactly when the pattern matches; the eaten text is the match, followed by the new source; the kind is the classifier applied to the eaten text |
| Tokenizer.Eat | src/tokenizer.rs:111-119 | the contents exist exactly when the pattern matches; the contents followed by the rest give back the source |
| Tokenizer.ClassifyMatchText | src/tokenizer.rs:168-184 | each rule's classifier spells back the text its pattern matched |
| Tokenizer.FirstMatch | src/tokenizer.rs:168-184 | the `or_else` chain fails exactly when no pattern matches; otherwise it eats a non-empty prefix spelled by the token kind |
| Tokenizer.FirstMatchNoWhitespace | src/tokenizer.rs:168-184 | token text never contains whitespace |
| Tokenizer.FirstMatchSkip | src/tokenizer.rs:181-184 | a rule whose pattern does not match passes on to the next rule |
| Tokenizer.NextToken | src/tokenizer.rs:168-184 | no token exactly when no pattern accepts the text; otherwise a non-empty, whitespace-free prefix spelled by the token kind |
| Tokenizer.NextTokenIdentifier | src/tokenizer.rs:168-180 | when an identifier starts the text, the maximal identifier is taken and classified, before operators and numbers |
| Tokenizer.NextTokenOperator | src/tokenizer.rs:181 | failing an identifier, one operator character is taken |
| Tokenizer.SkipTokenRules | src/tokenizer.rs:181-184 | when none of the first `k` rules matches, the `or_else` chain continues from rule `k` |
| Tokenizer.NextTokenNumber | src/tokenizer.rs:182 | failing identifier and operator, the whole number match is taken and its text kept |
| Tokenizer.NextTokenOpenParen | src/tokenizer.rs:183 | text starting with `(` gives one OpenParen token, eating just the `(` |
| Tokenizer.NextTokenCloseParen | src/tokenizer.rs:184 | text starting with `)` gives one CloseParen token, eating just the `)` |
| Tokenizer.ScanStep | src/tokenizer.rs:158-203 | a step that produces a token consumes at least one character |
| Tokenizer.ScanStepFinished | src/tokenizer.rs:158-206 | the scan finishes only when the rest is all whitespace |
| Tokenizer.ScanStepStuck | src/tokenizer.rs:158-213 | a stuck step reports a non-empty suffix starting with non-whitespace that no pattern accepts, at the position reached by reading the text before it |
| Tokenizer.ScanStepScanned | src/tokenizer.rs:159-199 | a scanned token splits the text into whitespace, token text and rest; its line/column is the position after the whitespace; the counters end after the token text |
| Tokenizer.TokenizeFrom | src/tokenizer.rs:152-214 | the recursive definition of the `tokenize` loop, one call per iteration; an error's remainder is non-empty and no longer than the text left |
| Tokenizer.TokenizeRoundTrip | src/tokenizer.rs:152-214 | on success, concatenating each token's whitespace and text gives the source minus its trailing whitespace |
| Tokenizer.TokenPositions | src/tokenizer.rs:164-199 | on success, each token's line/column is the position reached by reading the source up to the start of its text |
| Tokenizer.UnknownSequenceAt | src/tokenizer.rs:186-213 | on failure, the remainder is a non-empty suffix of the source that starts with non-whitespace no pattern accepts; line/column is the position where that suffix starts |
| Tokenizer.Tokenize | src/tokenizer.rs:152-214 | the loop computes the recursive specification `TokenizeFrom(source, 1, 1)` |
| TokenizerExamples.NilIsLiteral | src/tokenizer.rs:229 | `nil` is the NilLiteral token |
| TokenizerExamples.KeywordVersusIdentifier | src/tokenizer.rs:234-235 | `local` is a keyword; `local_` is one identifier |
| TokenizerExamples.LocalThenIdentifier | src/tokenizer.rs:238 | `local _` tokenizes to Keyword `local` at 1:1 with no whitespace, then Identifier `_` at 1:7 after one space |
| TokenizerExamples.LeadingWhitespace | src/tokenizer.rs:252-259 | `  local` yields Keyword `local` at 1:3 with whitespace `"  "` |
| TokenizerExamples.UnknownCharacter | src/tokenizer.rs:207-212 | `@` fails with remainder `@` at 1:1 |
| TokenizerExamples.SixIsNumber | src/tokenizer.rs:243 | `6` is the number literal `6` |
| TokenizerExamples.ExponentIsPartOfNumber | src/tokenizer.rs:244 | `0.231e-6` is one number literal holding the whole text |
| TokenizerExamples.MinusIsPartOfNumber | src/tokenizer.rs:245 | `-123.7` is one number literal; the `-` is part of it |
| TokenizerExamples.HexIsNumber | src/tokenizer.rs:247 | `-0x123FFe` is one number literal |
| Parser.New | src/parser.rs:12-17 | the state holds the tokens at position 0, so the cursor is on the first token |
| Parser.Peek | src/parser.rs:19-21 | a token exactly when the position is inside the sequence, namely the token at the position |
| Parser.Advance | src/parser.rs:23-28 | the tokens are unchanged, and the position moves on by the amount |
| Parser.EatSimple | src/parser.rs:30-41 | succeeds exactly when the next token has the kind; then it gives that token and a state one further on; otherwise it gives the state unchanged; the position stays in bounds |
| Parser.ParseNumberLiteral | src/parser.rs:84-95 | succeeds exactly on a NumberLiteral token, consuming it and keeping its text; otherwise gives the state unchanged |
| Parser.ParseIdentifier | src/parser.rs:97-102 | succeeds exactly on an Identifier token, consuming it and giving its name; otherwise gives the state unchanged |
| Parser.ParseExpression | src/parser.rs:175-179 | succeeds exactly on a number token, giving a number expression; otherwise gives the state unchanged |
| Parser.ParseLocalAssignment | src/parser.rs:145-158 | succeeds exactly on `local`, Identifier, `=`, NumberLiteral, consuming 4 tokens; on failure the state sits on the first token that does not fit, after the ones that did; it is not rewound |
| Parser.ParseStatement | src/parser.rs:139-143 | a statement is exactly a local assignment; the failure state is the assignment's |
| Parser.ExpressionListFrom | src/parser.rs:181-198 | the numbers taken are consecutive number tokens in order; the final state is just past them and is not on a number |
| Parser.NumbersAtIndex | src/parser.rs:181-198 | expression `i` of the list is the number token `i` places after the start |
| Parser.ExpressionListMaximal | src/parser.rs:181-198 | the list is the whole maximal run of number tokens |
| Parser.ParseExpressionList | src/parser.rs:181-198 | the loop computes `ExpressionListFrom`; it never fails |
| Parser.ParseFunctionCall | src/parser.rs:160-173 | succeeds exactly on Identifier `(` Number* `)`, consuming 3 + the argument count; each failure gives the state at the token that did not fit |
| Parser.ChunkFrom | src/parser.rs:115-137 | the position never moves back, and each statement takes 4 tokens; the final state is the failure state of the first statement that did not parse |
| Parser.ChunkStatementsInOrder | src/parser.rs:115-137 | statement `i` is the local assignment at token `4i`, so statements come out in source order |
| Parser.ParseChunk | src/parser.rs:115-137 | the loop computes `ChunkFrom` and always returns `Ok` |
| Parser.Parse | src/parser.rs:104-113 | always `Some`; the chunk is the maximal run of assignments from the first token, and leftover tokens are not checked |
| Parser.ParseIgnoresLeftovers | src/parser.rs:104-137 | tokens after a complete run of statements do not change the parse, unless they begin with `local` |
| Parser.ChunkPrefix | src/parser.rs:115-137 | appending tokens that do not start with `local` after the last statement leaves the statements unchanged |
| Parser.FailureIsNotRewound | src/parser.rs:115-158 | `local x = (` fails at position 3, and the chunk's final state is that failure state, not position 0 |

## Left out

- The `regex` crate and `lazy_static`: each pattern is a hand-written recogniser (`Patterns`). The keyword `HashSet` is a fixed set of strings.
- Unicode: `\s` and `\d` are the ASCII classes (space, tab, `\n`, `\r`, vertical tab, form feed; `0`-`9`). The regex crate's Unicode classes are not modelled.
- Byte lengths: `str::len` counts UTF-8 bytes. The model counts characters, so columns agree only on ASCII text.
- Borrowed slices: `&str` and `&[Token]` are copied values (`string`, `seq`). Lifetimes and sharing are not modelled.
- Integer width: `usize` lines, columns and positions are unbounded `nat`. Overflow is not modelled.
- Derived traits: `Serialize`, `Deserialize`, `Debug` and `Clone` are not modelled. They concern encoding and printing only.
- `src/ast.rs` is not part of this model. `parser.rs` declares its own AST types, and those are modelled.
- `BinaryOperator`: declared in the AST but never built by any rule, so no rule produces it.
- The larger Lua grammar: `if`, `while`, `for`, tables and operators are not in the code, so the model does not invent them. `parse` has no hard-failure tier and does not check for leftover tokens; the model follows the code (`Parser.Parse`, `Parser.ParseIgnoresLeftovers`).
- Module path: `parser.rs` imports `lexer::{Token, TokenKind}`. These are the types of `tokenizer.rs`, imported as `Lexer = Tokenizer`.
- Closures: the closures passed to `try_advance` are the `Classifier` datatype, applied by `Classify`.
- Tokenizer.Tokenize: the `Vec` is a `seq` that the loop appends to. `Vec` capacity and reallocation are not modelled.
- TokenizerExamples: the unit tests `literals` (`true`, `false`), `keyword_vs_identifier` (`locale`, `_local`), `number_literals` (`0x12AfEE`, `1023.47e126`) and `source_tracking` have no concrete lemma. They are covered by `Tokenizer.ClassifyWord`, `Patterns.NumberLiteralLength` and `Tokenizer.TokenPositions` for all inputs.
