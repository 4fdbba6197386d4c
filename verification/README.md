# pym4 in Dafny

A model of the core of pym4, a small m4-style macro processor written in Python. The
primary engine is `m4/__init__.py`, which works on `bytes`; `m4.py` is a `str` twin of it.
The model works on bytes (`seq<byte>`), follows `m4/__init__.py`, and records where `m4.py`
differs. It covers the three parts of the engine.

- **Input cursor** (`peek_insert_iter`, module `Cursor`): inserted bytes, at most one
  peeked byte, and the rest of the source. It is abstracted as one pending sequence,
  `inserted ++ peeked ++ source`.
- **Lexer** (`Lexer`, modules `Lexing` and `LexerFacts`): the character state machine.
  - It has four states: generic, identifier, comment, and string with a nesting depth.
  - Start and end quotes are configurable; the defaults are `` ` `` and `'`.
  - Each state function returns to the generic state with an empty buffer before it hands
    out a token. So the token stream is a pure function
    `NextToken(input, startQuote, endQuote)` that returns `Eof`, `Tok(token, rest)` or
    `Unterminated`.
  - The lexer object adds the generator's "finished" flag. Once the generator has stopped
    at end of input, text inserted later is never lexed.
- **Expansion engine** (`Parser`, modules `Parser`, `Arguments`, `Diversions`, `Integers`
  and `ParserFacts`):
  - a macro table of builtins and user bodies;
  - the nested `_expand_tokens` / `_parse_args` generators, modelled as an explicit stack
    of argument frames;
  - splicing of macro results in front of the pending input;
  - the four builtins `define`, `dnl`, `changequote` and `divert`;
  - diversion buffers, flushed in increasing number at the end.

  `Step` pulls one token. `Run` repeats `Step` under a fuel bound, because a
  self-referential definition such as `define(a,a)a` never finishes.

Module `Scenarios` replays some of the repository's unit-test scenarios on the model:
`abc` → `xyz` → `123`, `define( abc, xyz)abc`, `foo(abc(xyz)abc)`, nested quotes, and
`changequote([,])`.

The model follows the code as written; these behaviours of it are easy to miss:

- End of input inside an argument list is not an error. The open macro runs with the
  arguments closed so far, and the unfinished argument is dropped (`m4/__init__.py:250-263`).
- `(` inside arguments only raises the depth and is not kept in the argument text. Every
  `,` or `)` closes an argument at any depth (`m4/__init__.py:251-257`).
- A macro is looked up when its name is read, before its arguments are collected. A call
  therefore uses the definition in force at that moment (`m4/__init__.py:272`).
- An unterminated string fails because the exhausted read in the string state raises
  first. The `ParseError` at `m4/__init__.py:138-143` is never reached. Both outcomes are the
  single failure `UnterminatedString`.

## Model

| member | source | states |
|---|---|---|
| Cursor.Open | m4/__init__.py:123 | a fresh cursor has exactly the source text pending |
| Cursor.Insert | m4/__init__.py:62-63 | inserted text goes in front of everything pending, peeked byte included |
| Cursor.Next | m4/__init__.py:55-60 | the next byte is the head of the pending sequence; the cursor stops exactly when nothing is pending |
| Cursor.Peek | m4/__init__.py:72-78 | peeking consumes nothing; it returns EOF exactly when nothing is pending, otherwise the next byte |
| Cursor.InsertOrder | m4/__init__.py:62-63 | of two inserts, the later text comes out first, and both come before what was pending |
| Cursor.InsertOvertakesPeeked | m4/__init__.py:55-60 | text inserted after a peek is read before the already-peeked source byte |
| Cursor.InsertAfterEof | m4/__init__.py:72-78 | after peek has returned EOF, inserted text makes bytes available again |
| Cursor.PeekThenNext | m4/__init__.py:65-78 | the byte a peek returns is the byte the next read returns, and EOF means the read stops |
| Lexing.StepChar | m4/__init__.py:145-193 | one state function on one byte: the end of input is met only in the generic or string state, and emitting a token from those states consumes input |
| Lexing.Lex | m4/__init__.py:126-143 | the generic state at end of input is the only end of the stream; an unterminated result only arises in the string state or from a start quote |
| Lexing.NextToken | m4/__init__.py:126-143 | the stream ends exactly on empty input, each token consumes at least one byte, and only a one-byte start quote can leave a string unterminated |
| Lexing.Tokenize | m4/__init__.py:126-143 | `list(parse())`: empty input gives no tokens; the surfaces of the tokens put together give back the input (`LexerFacts.TokenizeRoundTrip`) |
| Lexing.Next | m4/__init__.py:134-137 | the generator is exhausted once finished or on empty input, and then stays finished; a token keeps the quotes and shortens the input |
| Lexing.NewLexer | m4/__init__.py:81-88 | a fresh lexer has the whole text pending, the default quotes and a generator not yet started; `Parser.Start` builds on it |
| Lexing.InsertText | m4/__init__.py:96-97 | inserted text is lexed ahead of the rest; quotes and the finished flag are unchanged |
| Lexing.Changequote | m4/__init__.py:99-101 | new delimiters take effect and nothing pending is touched |
| Lexing.PeekChar | m4/__init__.py:121-122 | peek_char is EOF exactly on empty input, otherwise the next raw byte |
| LexerFacts.LexKind | m4/__init__.py:162-193 | a state that has left the generic state can only emit a token of its own kind |
| LexerFacts.FirstByteDecidesKind | m4/__init__.py:145-160 | the first byte decides the kind: the start quote wins over letters and `#`, then letters or `_` give an identifier, `#` a comment, anything else a raw byte |
| LexerFacts.IdentifierToken | m4/__init__.py:179-185 | an identifier is the longest run of letters, digits and `_`; the byte that ends it is not consumed |
| LexerFacts.IdentifierExact | m4/__init__.py:179-185 | a known name followed by a non-identifier byte is lexed as exactly that identifier |
| LexerFacts.RawToken | m4/__init__.py:156-159 | any other byte that is not `#` or the start quote is a one-byte raw token, so `123` is three tokens |
| LexerFacts.RawTokenIsOneByte | m4/__init__.py:156-159 | conversely, every raw token is exactly the first input byte |
| LexerFacts.CommentToken | m4/__init__.py:187-193 | a comment runs from `#` up to, not including, the next newline or end of input, and keeps the `#` |
| LexerFacts.NewlineAfterComment | m4/__init__.py:187-193 | the newline that ends a comment is the next token, as a raw byte |
| LexerFacts.StripOneByteQuotes | m4/__init__.py:173-174 | cutting one-byte delimiters off the buffer leaves the text between them |
| LexerFacts.StringStep | m4/__init__.py:162-177 | the string state with one-byte delimiters: a start quote raises the depth only when the delimiters differ, an end quote lowers it, and depth 0 emits the stripped buffer |
| LexerFacts.OpenQuoteStep | m4/__init__.py:153-155 | the start quote enters the string state at depth 1 |
| LexerFacts.ScanIsLex | m4/__init__.py:162-177 | the string state equals a scan over the body that keeps the start quote out of the buffer |
| LexerFacts.NestedQuoted | m4/__init__.py:164-170 | a nested text quoted once between plain texts is still nested |
| LexerFacts.StringRun | m4/__init__.py:162-177 | from any open prefix, a nested rest followed by an end quote closes the string with the whole text as its value |
| LexerFacts.StringToken | m4/__init__.py:162-177 | with distinct delimiters, a start quote, a nested body and an end quote make one string token whose value is the body, inner pairs kept |
| LexerFacts.StringTokenInverse | m4/__init__.py:162-177 | conversely, every string token was lexed from a start quote, a nested body equal to its value, and an end quote |
| LexerFacts.EqualQuotesToken | m4/__init__.py:164-176 | with equal delimiters the first later occurrence of the delimiter closes the string |
| LexerFacts.EqualQuotesTokenInverse | m4/__init__.py:164-176 | conversely, with equal delimiters a string token's value never contains the delimiter |
| LexerFacts.UnterminatedString | m4/__init__.py:162-177 | a start quote with no end quote after it never yields a string token; lexing fails |
| LexerFacts.UnbalancedString | m4/__init__.py:162-177 | with distinct delimiters, a string fails at the end of input exactly when no end quote in its body closes a nested prefix; otherwise it is a string token |
| LexerFacts.MultiByteStartQuoteNeverMatches | m4/__init__.py:152-155 | a start quote that is not exactly one byte never opens a string |
| LexerFacts.TokenSurface | m4/__init__.py:145-193 | every token is its surface bytes (quotes around strings) cut off the front of the input |
| LexerFacts.TokenizeRoundTrip | m4/__init__.py:126-143 | concatenating the surfaces of all tokens gives back the input |
| LexerFacts.InsertedIdentifierLexedNext | m4/__init__.py:96-97 | an identifier inserted between tokens is the next token, also when the input is already empty |
| LexerFacts.ExhaustedStaysExhausted | m4/__init__.py:136-137 | once the token stream has ended, inserted text is never lexed |
| LexerFacts.PeekCharIsNextByte | m4/__init__.py:121-122 | peek_char is the first byte of the next token's surface, and EOF exactly when no token follows |
| LexerFacts.OldQuoteIsRaw | m4/__init__.py:99-101 | after a change of quotes the old start quote is an ordinary raw byte |
| LexerFacts.LexExtends | m4/__init__.py:145-193 | a state function run that emits on a consumed byte, or leaves input behind, emits the same token when more input follows |
| LexerFacts.NextTokenExtends | m4/__init__.py:126-143 | the same for the next token: such a token does not depend on the input after it |
| LexerFacts.NewlineTokenKind | m4/__init__.py:145-193 | a token whose value is a newline is a raw byte or a string, never an identifier or a comment |
| Arguments.CollectsSplit | m4/__init__.py:250-257 | while the call stays open, the collector holds the segments between separators, with `(` dropped and leading blanks skipped, and depth 1 plus the parenthesis balance |
| Arguments.ClosingParenEndsCall | m4/__init__.py:258-261 | the `)` that brings the depth from 1 to 0 ends the call with every closed argument |
| Arguments.InnerParenClosesArgument | m4/__init__.py:253-261 | an inner `)` closes the current argument and only lowers the depth |
| Arguments.WhitespaceSkippedWhileEmpty | m4/__init__.py:256-257 | a whitespace token is dropped while the current argument is empty and kept otherwise |
| Arguments.Feed | m4/__init__.py:250-261 | one token fed to an open argument list; what a run of feeds collects is stated by `Arguments.CollectsSplit`, `Arguments.ClosingParenEndsCall` and `Arguments.InnerParenClosesArgument` |
| Diversions.Write | m4/__init__.py:286-289 | diversion 0 writes at once, a positive diversion appends to its buffer, a negative one drops the text, and no other buffer changes |
| Diversions.Divert | m4/__init__.py:233 | only the current diversion number changes; text already written or buffered stays as it was |
| Diversions.SortedKeys | m4/__init__.py:290 | the diversion numbers in strictly increasing order, each exactly once |
| Diversions.IncreasingUnique | m4/__init__.py:290 | there is only one increasing listing of a set of numbers |
| Diversions.Finish | m4/__init__.py:290-294 | the final loop writes the positive buffers and empties them; other buffers are untouched |
| Diversions.FlushSplit | m4/__init__.py:290-293 | buffers below a diversion are flushed before it and buffers above it after |
| Diversions.WriteLandsInOrder | m4/__init__.py:284-294 | text written to diversion n ends up after the lower diversions and before the higher ones, or immediately for 0, or nowhere for a negative n |
| Diversions.FinishIsIdempotent | m4/__init__.py:290-294 | flushing twice writes nothing more |
| Integers.ParseInt | m4/__init__.py:233 | int() accepts exactly an optionally signed run of digits between whitespace |
| Integers.ParseDecimal | m4/__init__.py:233 | parsing undoes printing: int(str(n)) == n |
| Integers.PaddingIgnored | m4/__init__.py:233 | whitespace around a number is ignored |
| Integers.CanonicalRoundTrip | m4/__init__.py:233 | printing undoes parsing on canonical spellings |
| Integers.LeadingZeroIgnored | m4/__init__.py:233 | leading zeros are accepted and do not change the value |
| Parser.Builtins | m4/__init__.py:203-208 | a fresh table holds exactly the four builtins |
| Parser.Start | m4/__init__.py:202-212 | a fresh parser has no open call, the whole text pending and only the builtins |
| Parser.DefineMacro | m4/__init__.py:278-279 | define installs or replaces one name, builtins included, and leaves every other entry as it was |
| Parser.Invoke | m4/__init__.py:214-238 | the effect of each builtin and of a user macro on the table, the lexer and the diversion register |
| Parser.Step | m4/__init__.py:265-276 | one token: the run drains exactly at the end of input with no open call, and a lexing failure halts it |
| Parser.Deliver | m4/__init__.py:250-276 | with no call open a token goes to the current diversion; inside a call it goes to the innermost frame, and text already written or buffered is kept |
| Parser.SkipLine | m4/__init__.py:219-224 | dnl's loop only consumes input and keeps the quotes; which tokens it eats is stated by `ParserFacts.SkipLineFollowsTokens` and `ParserFacts.SkipLineThroughNewline` |
| Parser.Run | m4/__init__.py:284-294 | steps are repeated until the run drains or fails; `ParserFacts.RunExtendsOutput`, `ParserFacts.MoreFuelSameOutcome` and `ParserFacts.PassThrough` state what a run guarantees |
| Parser.After | m4/__init__.py:284-294 | a drained run flushes the diversions, a failure keeps the text already written, and a running engine goes on |
| Parser.Process | m4/__init__.py:284-294 | `parse()` on a fresh parser for the text; `ParserFacts.PlainTextUnchanged` and the scenarios state its results |
| ParserFacts.NameIsNextToken | m4/__init__.py:266-270 | a macro name in the input is read as one identifier |
| ParserFacts.CallWithoutArguments | m4/__init__.py:243 | a name not followed by `(` calls the macro with no arguments, consuming nothing more |
| ParserFacts.UserMacroSplices | m4/__init__.py:272-274 | a user macro's body is spliced in front of the rest of the input, to be lexed again |
| ParserFacts.CallOpensFrame | m4/__init__.py:243-249 | a name followed by `(` consumes it and opens a frame holding the definition in force |
| ParserFacts.PlainTokenWritten | m4/__init__.py:275-276 | with no call open, a token that is not a macro call goes to the current diversion |
| ParserFacts.EndOfInputInsideArguments | m4/__init__.py:250-263 | at end of input the innermost open macro runs with the arguments closed so far |
| ParserFacts.DeliverKeepsValid | m4/__init__.py:250-261 | feeding a token keeps every open frame inside an unclosed parenthesis |
| ParserFacts.StepKeepsValid | m4/__init__.py:240-276 | every step keeps every open frame inside an unclosed parenthesis |
| ParserFacts.StepExtendsOutput | m4/__init__.py:284-289 | a step never takes back text already written |
| ParserFacts.RunExtendsOutput | m4/__init__.py:284-294 | a run's output starts with what was written when it started |
| ParserFacts.MoreFuelSameOutcome | m4/__init__.py:284-294 | once a run has finished or failed, more fuel changes nothing |
| ParserFacts.FixedPointNeverFinishes | m4/__init__.py:265-276 | an engine that steps to itself never finishes |
| ParserFacts.SelfReferenceNeverFinishes | m4/__init__.py:272-274 | a macro whose body is its own name expands forever |
| ParserFacts.NextFollowsTokenize | m4/__init__.py:126-143 | the lexer object hands out the listed tokens in order, then ends |
| ParserFacts.PassThrough | m4/__init__.py:284-294 | input without macro calls is written token by token, strings without their quotes, then the diversions |
| ParserFacts.PlainTextUnchanged | m4/__init__.py:284-294 | text with no strings and no macro calls comes out exactly as it went in |
| ParserFacts.LineEnd | m4/__init__.py:221-223 | the position of the first newline token, or the end of the tokens |
| ParserFacts.SkipLineFollowsTokens | m4/__init__.py:219-224 | dnl consumes exactly the tokens up to and including the first newline token, or all of them |
| ParserFacts.SkipLineThroughNewline | m4/__init__.py:219-224 | dnl stops after the first newline token of a prefix that lexes; the input after that prefix is left as it was, even when it would not lex |
| ParserFacts.DefinedMacroExpands | m4/__init__.py:214-217 | after define(name, body, ...) the name expands to the body; extra arguments are ignored |
| ParserFacts.DefineWithoutBody | m4/__init__.py:278-279 | define(name) gives the name an empty body |
| ParserFacts.DivertToNumber | m4/__init__.py:230-233 | divert(n), with blanks around the number, makes n the current diversion |
| ParserFacts.DivertEmptyArgumentIgnored | m4/__init__.py:230-237 | divert() passes one empty argument, which is not a number, so the diversion stays |
| ParserFacts.ChangedQuotesQuote | m4/__init__.py:226-228 | after changequote(q, e) a balanced `q ... e` is one string token |
| ParserFacts.ChangequoteRestoresDefaults | m4/__init__.py:281-282 | changequote with no arguments restores `` ` `` and `'` |
| Scenarios.ChainedDefinitions | runtests.py:275-279 | with `abc` defined as `xyz` and `xyz` as `123`, the input `abc` writes `123` |
| Scenarios.TrailingTextKept | runtests.py:270-273 | with `abc` defined as `xyz`, the input `abc ` writes `xyz ` |
| Scenarios.DefineThroughArguments | runtests.py:281-283 | `define( abc, xyz)abc` writes `xyz` |
| Scenarios.MacroArgsNestedParens | runtests.py:290-293 | with `foo` defined as `bar`, `foo(abc(xyz)abc)` writes `bar`: the inner parentheses stay inside the call |
| Scenarios.NestedQuotes | runtests.py:139-143 | `` `abc `xyz' abc' `` is one string token ``abc `xyz' abc`` |
| Scenarios.UnbalancedQuotes | m4/__init__.py:162-177 | in `` ``a' `` the end quote closes only the inner quote, so lexing fails at the end of input |
| Scenarios.DnlStopsAtNewline | m4/__init__.py:219-224 | dnl on `x`, a newline and a lone backtick leaves the backtick pending, although the whole input does not lex |
| Scenarios.ChangedQuotes | runtests.py:285-288 | after changequote(`[`, `]`), `` `abc'[xyz] `` writes `` `abc'xyz `` |
| Scenarios.SelfReference | m4/__init__.py:272-274 | the text `define(a,a)a` defines `a` as `a`, then runs out of fuel whatever the fuel and writes nothing |
| Scenarios.DiversionOrder | m4/__init__.py:284-294 | text sent to diversions 2, 1, -1 and 0 comes out as 0, 1, 2, and the text sent to -1 is lost |

## Left out

- Reading stdin and writing stdout (the `__main__` blocks). The output stream is the
  sink's output sequence.
- The runtests.py test driver and its comparisons with the system m4. Its unit tests appear
  only as the scenarios above.
- Python iterator plumbing: `peekthrough_iter`, `StopIteration` and `RuntimeError`
  propagation, and Python 2 versus Python 3 `next`. The explicit step model keeps the one
  observable effect, which is the order in which tokens are pulled.
- Debug helpers: `Token.__repr__`, `ParseError.__str__`, `name()` and the commented-out
  prints. The failure datatype keeps no messages.
- `substmacro` argument substitution. The source returns the body unchanged, and so does
  the model.
- Unicode. Character classes are ASCII only. In `m4.py`, `str.isspace` also accepts
  0x1c-0x1f and `int` accepts non-ASCII digits; the model follows the bytes version.
- Integers.ParseInt: the model does not cover underscores between digits or other
  non-decimal corner cases of Python's `int()`. Only surrounding ASCII whitespace, one sign
  and decimal digits are accepted.
- Multi-byte and empty delimiters. A multi-byte start quote never matches, and that is
  proved. The string lemmas assume one-byte delimiters. With an empty end quote the model
  follows the bytes `endswith` and slice. `m4.py` differs there: it keeps each quote as a
  one-element list, so its `endswith` compares the last character with the whole quote
  string, and its slice is always `[1:-1]`.
- Parser.Run: it is bounded by fuel. A run that would not terminate in the source ends as
  `OutOfFuel` with the text written so far.
- Parser.SkipLine: its contract states only that the input shrinks and the quotes stay.
  The exact tokens it consumes are stated by `ParserFacts.SkipLineFollowsTokens` (input that
  lexes throughout) and `ParserFacts.SkipLineThroughNewline` (a prefix that lexes up to a
  newline token).
- Parser.Step: a token stream that ends right after a peeked `(` gives `StreamEnded`. This
  cannot happen, because the peeked byte leaves the input non-empty, so the next read is a
  token or a lexing failure; no lemma says so.
