# Lox front end: scanner, expression parser and tree printer

This project models the front end of a Rust interpreter for the Lox
language, taken from *Crafting Interpreters*. It covers four parts:

- **The scanner.** It turns source text into tokens: single-character
  punctuation and the one- or two-character operators `! != = == < <= > >=`.
  It closes each vector with an end-of-file token.
- **The expression tree.** Each node kind is dispatched to a visitor.
- **The recursive-descent parser.** It covers comma, equality, comparison,
  term, factor, unary and primary expressions. It holds a token vector and a
  cursor, reports diagnostics as it goes, and has an unused `synchronize`
  recovery routine.
- **The printer.** It renders a tree in parenthesised prefix form.

## Modules

- `Tokens`: token kinds, literal payloads, tokens.
- `Errors`: diagnostics, the error type and the `Result` type.
- `Exprs`: the four node kinds, the visitor and `accept`.
- `ParserSpec`: the grammar as pure functions of the token vector and a
  cursor. Each function returns a `Step`. A `Step` is three things: the
  rule's result, the cursor afterwards, and the diagnostics reported on the
  way. Precedence, associativity and the cursor discipline are stated on
  these functions.
- `Parsing`: the parser as the object it is in the program. The class
  `Parser` has a constant token vector, a mutable cursor and a ghost log of
  what `report` wrote. Each method is proved to return, move the cursor and
  report exactly what its `ParserSpec` function says.
- `ParserProps`: lemmas about the grammar functions, including worked
  examples.
- `Scanning`: the scanner as written. The class `Scanner` is proved against
  the pure functions `TokenAt` and `ScanFrom`.
- `ScannerIntended`: the scanner with the defect under "## Findings"
  corrected. It comes with its partner properties: the tokens tile the
  source, each token is spelt as its kind, `=` is munched maximally, and the
  scan succeeds exactly when every character is recognised.
- `Printing`: the tree printer. The reference definition `Spaced` /
  `Renderings` says what `parenthesize` builds. A balance lemma counts the
  parentheses.

## Where the model follows the code rather than the language's description

- **`true`, `false` and `nil`.** `primary` turns these into literal
  *identifiers* `"True"`, `"False"` and `"null"`
  (src/parser.rs:120-134), not into boolean or nil values.
- **Missing `)`.** After `(` and an expression, the result of
  `consume(RightParen, …)` is thrown away (src/parser.rs:143). A missing
  `)` is reported, but a `Grouping` is still returned. `GroupingAlwaysBuilt`
  states this.
- **Comma loop.** `expression` keeps only the last tree of a comma list
  (src/parser.rs:34-36). `ExpressionLoopDiscards` states this.
- **`parse`.** It returns after one expression and ignores the tokens that
  follow. `ParseLeavesTrailingTokens` states this.
- **The "Expect expression" diagnostic.** `primary` words it as "at end"
  whatever the token is. Its report says `Expect expression` and its error
  says `Expect Expression` (src/parser.rs:148-151). The model keeps both
  texts and the `AtEnd` location.
- **`synchronize`.** It is defined but never called. It is modelled and
  specified on its own.
- **Scanner coverage.** The scanner recognises only punctuation and
  operators. It has no whitespace, comment, string, number or keyword
  scanning, and its `line` stays 1.
- **Error names.** The scanner raises `ErrorUnexpectedCharacter`
  (src/scanner.rs:27, src/scanner.rs:55), but src/error.rs:7 declares
  `UnexpectedCharacter`. The parser raises `ParseError`, which src/error.rs
  does not declare at all. The model has one `Error` datatype with
  `UnexpectedCharacter(line)` and `ParseError(diagnostic)`.
- **Token file.** The token definition file is not part of this model. A
  token's literal is modelled as `Option<LiteralValue>`, as the parser uses
  it (src/parser.rs:137). The empty string that `scan_tokens` passes for the
  end-of-file token (src/scanner.rs:22) is modelled as no literal.

## Model

| member | source | states |
|---|---|---|
| Exprs.AcceptDispatches | src/expr.rs:10-19 | accept hands each node to the visitor entry of its own kind: for a visitor that applies `f` to the rebuilt node, accept is `f` itself |
| ParserSpec.BeforeFirstEof | src/parser.rs:84-86 | no token before the first Eof is an Eof, so the end test is false everywhere before it |
| ParserSpec.AdvanceAt | src/parser.rs:77-82 | advance moves one token on exactly when the cursor is not on Eof, and never passes the first Eof |
| ParserSpec.MatchNotAtEnd | src/parser.rs:60-68 | a successful match was on a token of one of the listed kinds that is not Eof, so the cursor can move past it |
| ParserSpec.CheckAt | src/parser.rs:70-75 | check holds exactly when the kind asked for is not Eof and is the kind of the token under the cursor |
| ParserSpec.MatchAtSomeCheck | src/parser.rs:60-68 | match_type's condition holds exactly when check passes for one of the listed kinds |
| ParserSpec.ExpressionAt | src/parser.rs:31-39 | expression never moves the cursor back or past Eof; a failure is primary's error at the token where it stopped, and that error was reported last; a result is an equality-level tree |
| ParserSpec.ExpressionLoopAt | src/parser.rs:34-36 | the comma loop keeps the same cursor and failure discipline and returns an equality-level tree |
| ParserSpec.BinaryAt | src/parser.rs:18-29 | the binary helper keeps the cursor and failure discipline and returns a tree of its level: operators of the level, left children of the level, right children one level tighter |
| ParserSpec.BinaryLoopAt | src/parser.rs:23-27 | the helper's loop keeps the same discipline and shape |
| ParserSpec.OperandAt | src/parser.rs:41-108 | the closure each level passes (comparison, term, factor, unary) keeps the discipline and returns a tree one level tighter |
| ParserSpec.UnaryAt | src/parser.rs:110-117 | unary keeps the discipline and returns a chain of `!`/`-` nodes over a primary |
| ParserSpec.PrimaryAt | src/parser.rs:119-153 | primary keeps the discipline and returns a literal or a grouping of an expression |
| ParserSpec.GroupingAt | src/parser.rs:141-145 | after `(`, a successful inner expression always yields a Grouping node |
| ParserSpec.ConsumeAt | src/parser.rs:155-173 | consume succeeds exactly when check passes, and then returns that token and advances; otherwise it stays put, reports exactly one diagnostic (line, "at end" exactly on Eof, or the lexeme, and the message) and fails with it |
| ParserSpec.SyncFrom | src/parser.rs:178-195 | the synchronize loop stops at the first position from the start that is Eof, follows a semicolon, or starts a statement, and passes no such position |
| Parsing.Parser.constructor | src/parser.rs:14-16 | a new parser holds the given tokens with the cursor at 0 and nothing reported, and satisfies the parser invariant when the tokens are well formed |
| Parsing.Parser.Report | src/main.rs:78-80 | report appends its message to the diagnostic stream |
| Parsing.Parser.Peek | src/parser.rs:88-93 | peek is the token under the cursor |
| Parsing.Parser.Previous | src/parser.rs:95-100 | previous is the token before the cursor, and panics at cursor 0 |
| Parsing.Parser.IsAtEnd | src/parser.rs:84-86 | at end exactly when the token under the cursor is Eof |
| Parsing.Parser.Check | src/parser.rs:70-75 | check holds exactly when the current token has the kind and is not Eof |
| Parsing.Parser.Advance | src/parser.rs:77-82 | advance moves as AdvanceAt says and returns the token just before the new cursor |
| Parsing.Parser.MatchType | src/parser.rs:60-68 | match_type succeeds exactly when some listed kind checks, and then moves by one; otherwise it does not move |
| Parsing.Parser.Consume | src/parser.rs:155-173 | the method's result, cursor and reports are those of ConsumeAt |
| Parsing.Parser.Expression | src/parser.rs:31-39 | the method's result, cursor and reports are those of ExpressionAt |
| Parsing.Parser.Equality | src/parser.rs:41-46 | result, cursor and reports of BinaryAt at the equality level |
| Parsing.Parser.Comparison | src/parser.rs:48-58 | result, cursor and reports of BinaryAt at the comparison level |
| Parsing.Parser.Term | src/parser.rs:102-104 | result, cursor and reports of BinaryAt at the term level |
| Parsing.Parser.Factor | src/parser.rs:106-108 | result, cursor and reports of BinaryAt at the factor level |
| Parsing.Parser.Operand | src/parser.rs:41-108 | the closure call: result, cursor and reports of OperandAt |
| Parsing.Parser.BinaryHelper | src/parser.rs:18-29 | the helper's result, cursor and reports are those of BinaryAt, proved through a loop invariant tying the loop to BinaryLoopAt |
| Parsing.Parser.FoldOperand | src/parser.rs:24-26 | one loop body: the right operand's failure, or a Binary node of the tree so far, the matched operator and the operand, with the operand's cursor and reports |
| Parsing.Parser.Unary | src/parser.rs:110-117 | result, cursor and reports of UnaryAt |
| Parsing.Parser.Primary | src/parser.rs:119-153 | result, cursor and reports of PrimaryAt |
| Parsing.Parser.FinishGrouping | src/parser.rs:142-144 | result, cursor and reports of GroupingAt |
| Parsing.Parser.Synchronize | src/parser.rs:175-196 | after one advance, the cursor stops where SyncFrom says |
| Parsing.Parser.Parse | src/parser.rs:198-200 | parse is expression from the current cursor |
| ParserProps.OperandOperator | src/parser.rs:18-29 | a Binary operand of a level carries an operator of a tighter level, never the level's own |
| ParserProps.LeftAssociative | src/parser.rs:22-27 | in a tree built by a level, the left child is of the same level and the right child is one level tighter, so a right child never has the level's operator at its root: the level folds to the left |
| ParserProps.BinaryLoopFolds | src/parser.rs:23-27 | a successful loop returns the left fold of the tree it was given and the rounds it read: each round's operator is a matched token of the level, read at increasing positions, its operand is the tighter rule's result right after that operator, and the loop stops where no operator of the level follows |
| ParserProps.BinaryFolds | src/parser.rs:18-29 | a successful level is the left fold of its first operand and the rounds its loop read, in the order of the tokens |
| ParserProps.UnaryOnlyAfterOperator | src/parser.rs:110-117 | unary builds a Unary node exactly when it starts on `!` or `-`, with that token as operator and the following unary as operand; otherwise it is primary |
| ParserProps.PrimaryLiterals | src/parser.rs:120-139 | `false`, `true` and `nil` become the identifiers `False`, `True` and `null`, and a number or string becomes its payload, each taking one token and reporting nothing |
| ParserProps.PrimaryNoRule | src/parser.rs:147-152 | on any other token, primary reports "Expect expression" and fails with "Expect Expression" at that line without moving |
| ParserProps.GroupingAlwaysBuilt | src/parser.rs:141-145 | after `(` and a successful expression, primary returns the Grouping whether or not `)` follows; it steps over `)` if present, and otherwise reports the missing parenthesis and stays put |
| ParserProps.ExpressionLoopDiscards | src/parser.rs:34-36 | once a comma follows, the tree parsed so far has no effect on the outcome |
| ParserProps.ExpressionLoopWithoutComma | src/parser.rs:34-38 | with no comma, the loop returns its tree without moving or reporting |
| ParserProps.ExpressionLoopStopsOffComma | src/parser.rs:34-38 | a successful comma loop never stops on a comma |
| ParserProps.ExpressionStopsOffComma | src/parser.rs:31-39 | a successful expression never stops on a comma, and without a comma after its first equality it is that equality |
| ParserProps.NumberIsFactor | src/parser.rs:106-108 | a number not followed by `*` or `/` is a whole factor: its literal, one token, no reports |
| ParserProps.ParseLeavesTrailingTokens | src/parser.rs:198-200 | on `1 )` parse returns the number and stops before `)` without reporting |
| ParserProps.SubtractionAssociatesLeft | src/parser.rs:102-104 | `1 - 2 - 3` parses as `(1 - 2) - 3` |
| Scanning.PunctuationKind | src/scanner.rs:29-38 | a single-character kind exists exactly for the ten punctuation characters |
| Scanning.OperatorKind | src/scanner.rs:39-54 | an operator kind exists exactly for `! = < >`, and it is the two-character form exactly when `=` follows |
| Scanning.PunctuationSpelling | src/scanner.rs:29-38 | each punctuation kind is spelt by its own character |
| Scanning.OperatorSpelling | src/scanner.rs:39-54 | each operator kind is spelt by its character, followed by `=` in the two-character form |
| Scanning.PushedIsPlain | src/scanner.rs:29-54 | a token scan_token pushes is never Eof, a number or a string |
| Scanning.PushedFeedsParser | src/scanner.rs:22-23 | pushed tokens closed by the end token form a vector the parser can start on |
| Scanning.TokenAt | src/scanner.rs:26-58 | one scan_token from `k`: a pushed token with no literal whose lexeme is the text from `k` to the new cursor, which lies past `k` within the source; or the unexpected-character error |
| Scanning.TokenAtKind | src/scanner.rs:26-58 | as written, with `add_token`'s unwrap left out, scan_token from `k` succeeds exactly when the character after `k` exists and is recognised, and the kind pushed is spelt by that character, followed by `=` when it is an operator and the next character is `=` |
| Scanning.ScanFrom | src/scanner.rs:17-24 | the scan loop returns its token vector on success and the unexpected-character error otherwise |
| Scanning.ScanFromAppends | src/scanner.rs:17-24 | the loop only appends pushed tokens, and adds the end token on success only |
| Scanning.ScanFromSpells | src/scanner.rs:69-72 | the lexemes of a successful scan spell the rest of the source |
| Scanning.Scan | src/scanner.rs:13-24 | a fresh scan starts on line 1: on success it returns the vector it built, and it fails only with UnexpectedCharacter(1) |
| Scanning.Scanner.constructor | src/scanner.rs:13-15 | a new scanner holds the source, no tokens, both cursors at 0 and line 1 |
| Scanning.Scanner.IsAtEnd | src/scanner.rs:84-86 | at end exactly when the cursor has reached the length of the source |
| Scanning.Scanner.Increment | src/scanner.rs:60-62 | the cursor moves by one |
| Scanning.Scanner.Advance | src/scanner.rs:64-67 | the cursor moves by one, then the character under the new cursor is returned, if any |
| Scanning.Scanner.AddToken | src/scanner.rs:69-72 | one token is appended, its lexeme the text from start to cursor, on the current line |
| Scanning.Scanner.MatchChar | src/scanner.rs:74-82 | match_char holds exactly when the character under the cursor is the expected one, and consumes nothing |
| Scanning.Scanner.ScanToken | src/scanner.rs:26-58 | the token appended, the cursor and the result are those of TokenAt |
| Scanning.Scanner.ScanTokens | src/scanner.rs:17-24 | the result, tokens and cursors are those of ScanFrom, proved through a loop invariant |
| Scanning.ScanResultShape | src/scanner.rs:17-24 | a successful scan ends with exactly one end token, on line 1, after pushed tokens with no literal, and its lexemes spell the whole source |
| Scanning.ScanFeedsParser | src/scanner.rs:22-23 | every vector the scanner returns is one the parser can run on |
| Scanning.ScanEndsOnOperator | src/scanner.rs:64-67 | as written, a successful scan from inside the source ends on an operator character |
| Scanning.ScanSucceedsOnlyAfterOperator | src/scanner.rs:64-67 | as written, a non-empty source scans only if it has two or more characters and ends with one of `! = < >` |
| Scanning.ScanSkipsFirstCharacter | src/scanner.rs:64-67 | as written, `(` is rejected; with `add_token`'s unwrap left out, `x!` scans to a single Bang token spelt `x!` |
| Scanning.ScanMisreadsBangEqual | src/scanner.rs:64-67 | with `add_token`'s unwrap left out, `!=` scans to a single Equal token spelt `!=` (as written, src/scanner.rs:71 panics first) |
| ScannerIntended.IntendedTokenAt | src/scanner.rs:26-58 | corrected scan_token: a pushed token whose lexeme is the text it covers, one character for punctuation and one or two for an operator; or the unexpected-character error |
| ScannerIntended.IntendedTokenSpelt | src/scanner.rs:29-54 | each token's lexeme is the spelling of its kind |
| ScannerIntended.IntendedTokenMunches | src/scanner.rs:39-54 | a token is an `=` or `==` operator exactly when its first character is `=`, and a one-character operator is never followed by `=` |
| ScannerIntended.PunctuationIsNoOperator | src/scanner.rs:29-38 | a punctuation character is not an operator character |
| ScannerIntended.OperatorForms | src/scanner.rs:39-54 | an operator takes its two-character form exactly when `=` follows |
| ScannerIntended.ScanIntendedFrom | src/scanner.rs:17-24 | a successful scan ends with the end token; a failing one fails with the unexpected-character error |
| ScannerIntended.ScanIntendedFromPushes | src/scanner.rs:17-24 | every token before the end token is one scan_token pushes |
| ScannerIntended.ScanIntendedFromSucceeds | src/scanner.rs:17-58 | the scan succeeds exactly when every remaining character is recognised |
| ScannerIntended.SucceedsOnlyIfRecognised | src/scanner.rs:55 | a scan that succeeds met no unrecognised character |
| ScannerIntended.SucceedsIfRecognised | src/scanner.rs:28-54 | a source of recognised characters always scans |
| ScannerIntended.LexesOnlyIfRecognised | src/scanner.rs:26-58 | a token covers only recognised characters |
| ScannerIntended.RecognisedLexes | src/scanner.rs:26-58 | a recognised character always starts a token of one or two characters |
| ScannerIntended.ScanIntendedSucceeds | src/scanner.rs:13-58 | a fresh scan succeeds exactly when every character of the source is recognised |
| ScannerIntended.ScanIntendedFromFirst | src/scanner.rs:18-20 | the first token of a successful scan is the one scan_token reads at the cursor |
| ScannerIntended.ScanIntendedFromTiles | src/scanner.rs:69-72 | the lexemes of a successful scan concatenate to the rest of the source |
| ScannerIntended.ScanIntendedFromSpells | src/scanner.rs:29-54 | every token but the end token is spelt as its kind |
| ScannerIntended.ScanIntendedFromMunches | src/scanner.rs:39-54 | no token after a one-character operator starts with `=` |
| ScannerIntended.ScanIntendedShape | src/scanner.rs:17-24 | a successful scan is pushed tokens that tile the source, each spelt as its kind and munched maximally, closed by one end token on line 1 |
| ScannerIntended.ScanIntendedFeedsParser | src/scanner.rs:22-23 | every vector the corrected scanner returns is one the parser can run on |
| ScannerIntended.ScanIntendedExamples | src/scanner.rs:64-67 | corrected, `(` scans to one LeftParen token and `!=` to one BangEqual token |
| Printing.Print | src/ast_printer.rs:9-11 | printing never fails |
| Printing.VisitLiteral | src/ast_printer.rs:25-31 | a literal is printed without failure |
| Printing.VisitUnary | src/ast_printer.rs:33-35 | a unary node is printed without failure |
| Printing.VisitBinary | src/ast_printer.rs:37-39 | a binary node is printed without failure |
| Printing.VisitGrouping | src/ast_printer.rs:41-43 | a grouping is printed without failure |
| Printing.Parenthesize | src/ast_printer.rs:13-21 | parenthesize never fails |
| Printing.ParenthesizeFrom | src/ast_printer.rs:16-20 | the loop of parenthesize never fails |
| Printing.Printer | src/ast_printer.rs:24-44 | the printer as a visitor: accept with it renders every tree exactly as print does |
| Printing.ParenthesizeFromSpaced | src/ast_printer.rs:16-20 | the loop appends a space and the rendering of each child in order, then `)` |
| Printing.ParenthesizeSpaced | src/ast_printer.rs:13-21 | parenthesize is `( `, the name, a space before each child's rendering, then `)` |
| Printing.PrintForms | src/ast_printer.rs:25-43 | a literal prints as its debug form or `nil`; unary and binary nodes print as their operator lexeme and their children in parentheses; a grouping as `group` and its child |
| Printing.PrintBalanced | src/ast_printer.rs:13-43 | when no leaf text and no operator lexeme contains a parenthesis, the output has one `(` and one `)` per interior node |

## Left out

- Reading the file, the command line, printing to stdout and exiting
  (src/main.rs) are not modelled. Only `report` is modelled, as an append
  to a ghost log of diagnostics.
- Diagnostic text is modelled structurally as line, location and message.
  Rust's `{:?}` formatting of the line number and the final string are not
  spelled out.
- The Debug rendering of a literal in `visit_literal_expr` is a parameter
  `debug` of the printer. The derived `Debug` text of the literal type
  belongs to the token definition file, which is not part of this model.
- A number literal's `f64` is an opaque 64-bit pattern. It is never
  interpreted, since the parser only moves it into the tree.
- Panics become preconditions. `peek` out of bounds and the `unwrap` of a
  literal in `primary` are excluded by `WellFormed`: the vector ends with
  Eof, and number and string tokens carry a payload. `previous` at cursor 0
  is excluded by `Previous` and by the precondition of `Advance`.
- Scanning.Scanner.AddToken: does not model the panic of `literal.unwrap()`
  (src/scanner.rs:71). Every caller passes `None`, so as written every
  `add_token` would panic. The model stores the literal given, so that the
  rest of the scanner can be modelled.
- The scanner works on characters (`seq<char>`). Rust mixes byte indices
  (`len`, slicing) with character indices (`chars().nth`). The model treats
  them as one index, which is exact for ASCII sources only.
- The closure `F` passed to `binary_helper` is a `BinaryLevel` value that
  selects the next tighter rule. Dynamic dispatch through `&dyn ExprVisitor`
  is a record of functions (`Visitor`).
- `Box` allocation in the node constructors (src/expr.rs:40-71) is not
  modelled: nodes are datatype values.
- Printing.Print, Printing.VisitLiteral, Printing.VisitUnary,
  Printing.VisitBinary, Printing.VisitGrouping, Printing.Parenthesize,
  Printing.ParenthesizeFrom: their own contracts say only that printing
  succeeds. The text they produce is stated by `PrintForms`,
  `ParenthesizeSpaced` and `ParenthesizeFromSpaced`.
- `Printer` is the visitor of the printer. It cannot call `Print`
  recursively through its own field, so `Print` matches directly and the
  contract of `Printer` states that accepting the printer is `Print`.

## Findings

| source | as written | input that shows it | evidently intended | confidence | as-written member | corrected member |
|---|---|---|---|---|---|---|
| src/scanner.rs:64-67 | `advance` increments the cursor before reading, so the character a lexeme starts with is never classified and the last character is read past the end | the source `(` fails with UnexpectedCharacter(1) | read the character under the cursor, then move past it, so `(` scans to one LeftParen token | not executed | Scanning.ScanSkipsFirstCharacter | ScannerIntended.ScanIntendedExamples |
| src/scanner.rs:64-67 | the operator branch classifies the character after the operator, and `match_char` peeks at the one after that | with `add_token`'s unwrap left out, the source `!=` scans to one Equal token spelt `!=` (as written, src/scanner.rs:71 panics first) | `!=` scans to one BangEqual token; the tokens tile the source, spelt and maximally munched | not executed | Scanning.ScanMisreadsBangEqual | ScannerIntended.ScanIntendedShape |
