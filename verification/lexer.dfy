/**
 * The lexer: a byte-driven state machine with four states (generic, identifier, comment,
 * string), configurable quote delimiters and a string nesting depth, plus the lexer object
 * the parser drives (`Lexer` in the source: `parse`, `insert_text`, `changequote`,
 * `peek_char`).
 *
 * Every state function returns to the generic state with an empty buffer before it hands
 * out a token, so text insertion and quote changes can only act between tokens. The token
 * stream is therefore the pure function `NextToken(input, startQuote, endQuote)` applied
 * to whatever input is pending at each token boundary.
 */
module Lexing {
  import opened Bytes
  import Cursor

  datatype Kind = Identifier | String | Comment | Raw

  /** A token. A `Raw` token carries the single byte it stands for. */
  datatype Token = Token(kind: Kind, value: seq<byte>)

  /** The lexer's state between two bytes; the buffer is the `chars` of the source. */
  datatype LexState =
    | Generic
    | InIdentifier(chars: seq<byte>)
    | InComment(chars: seq<byte>)
    | InString(chars: seq<byte>, depth: int)

  /** The effect of one state function on the byte under the cursor. */
  datatype Step =
    | Emit(token: Token, rest: seq<byte>)
    | Continue(state: LexState, rest: seq<byte>)
    | AtEnd
    | Stuck

  /** The outcome of lexing one token. */
  datatype Lexed = Eof | Tok(token: Token, rest: seq<byte>) | Unterminated

  /** Default delimiters: a backtick opens a string and an apostrophe closes it. */
  const DEFAULT_START: seq<byte> := [BACKTICK]
  const DEFAULT_END: seq<byte> := [APOSTROPHE]

  /**
   * One state function applied to the head of `input`. Only the generic state sees the end
   * of input without emitting; only the string state fails there. A multi-byte start quote
   * never equals the one-byte generic buffer, so it never opens a string.
   */
  function StepChar(st: LexState, input: seq<byte>, sq: seq<byte>, eq: seq<byte>): (r: Step)
    ensures r.AtEnd? <==> st.Generic? && input == []
    ensures r.Stuck? <==> st.InString? && input == []
    ensures r.Continue? ==> |input| > 0 && r.rest == input[1..] && !r.state.Generic?
    ensures r.Emit? ==> |r.rest| <= |input| && (st.Generic? || st.InString? ==> |r.rest| < |input|)
  {
    match st
    case Generic =>
      if input == [] then AtEnd
      else
        var c := input[0];
        if sq == [c] then Continue(InString([c], 1), input[1..])
        else if IsIdentStart(c) then Continue(InIdentifier([c]), input[1..])
        else if c == HASH then Continue(InComment([c]), input[1..])
        else Emit(Token(Raw, [c]), input[1..])
    case InIdentifier(chars) =>
      if input == [] || !IsIdentChar(input[0]) then Emit(Token(Identifier, chars), input)
      else Continue(InIdentifier(chars + [input[0]]), input[1..])
    case InComment(chars) =>
      if input == [] || input[0] == NEWLINE then Emit(Token(Comment, chars), input)
      else Continue(InComment(chars + [input[0]]), input[1..])
    case InString(chars, depth) =>
      if input == [] then Stuck
      else
        var grown := chars + [input[0]];
        if sq != eq && EndsWith(grown, sq) then Continue(InString(grown, depth + 1), input[1..])
        else if EndsWith(grown, eq) then
          if depth - 1 == 0 then Emit(Token(String, SliceFromEnd(grown, |sq|, |eq|)), input[1..])
          else Continue(InString(grown, depth - 1), input[1..])
        else Continue(InString(grown, depth), input[1..])
  }

  /** Runs the state machine from `st` until it emits a token, reaches the end, or fails. */
  function Lex(st: LexState, input: seq<byte>, sq: seq<byte>, eq: seq<byte>): (r: Lexed)
    ensures r.Eof? <==> st.Generic? && input == []
    ensures r.Tok? ==> |r.rest| <= |input| && (st.Generic? ==> |r.rest| < |input|)
    ensures r.Unterminated? ==> st.InString? || (st.Generic? && |input| > 0 && sq == [input[0]])
    decreases 2 * |input| + (if st.Generic? then 0 else 1)
  {
    match StepChar(st, input, sq, eq)
    case AtEnd => Eof
    case Stuck => Unterminated
    case Emit(t, rest) => Tok(t, rest)
    case Continue(next, rest) =>
      Lex(next, rest, sq, eq)
  }

  /**
   * The next token of `input` under the given delimiters. The end of input is reached only
   * when nothing is pending; a token always consumes at least one byte; lexing fails only
   * on input that starts with the start quote.
   */
  function NextToken(input: seq<byte>, sq: seq<byte>, eq: seq<byte>): (r: Lexed)
    ensures r.Eof? <==> input == []
    ensures r.Tok? ==> |r.rest| < |input|
    ensures r.Unterminated? ==> |input| > 0 && sq == [input[0]]
  {
    Lex(Generic, input, sq, eq)
  }

  /** All tokens of `input` under fixed delimiters, or `None` if lexing fails. */
  function Tokenize(input: seq<byte>, sq: seq<byte>, eq: seq<byte>): (r: Option<seq<Token>>)
    ensures input == [] ==> r == Some([])
    decreases |input|
  {
    match NextToken(input, sq, eq)
    case Eof => Some([])
    case Unterminated => None
    case Tok(t, rest) =>
      match Tokenize(rest, sq, eq)
      case None => None
      case Some(ts) => Some([t] + ts)
  }

  /**
   * The lexer object. `finished` records that the token generator has run off the end of
   * its input: from then on it yields nothing, whatever is inserted later.
   */
  datatype Lexer = Lexer(input: seq<byte>, startQuote: seq<byte>, endQuote: seq<byte>, finished: bool)

  datatype Pulled = Got(token: Token, lexer: Lexer) | Exhausted(lexer: Lexer) | Failed

  function NewLexer(text: seq<byte>): Lexer {
    Lexer(text, DEFAULT_START, DEFAULT_END, false)
  }

  /**
   * The next token from the generator. Running out of input ends the generator for good;
   * a token consumes the bytes it was lexed from.
   */
  function Next(lx: Lexer): (r: Pulled)
    ensures r.Exhausted? ==> r.lexer.finished && r.lexer.input == lx.input
    ensures r.Exhausted? <==> lx.finished || lx.input == []
    ensures r.Got? ==> !lx.finished && !r.lexer.finished && |r.lexer.input| < |lx.input|
    ensures r.Got? ==> r.lexer.startQuote == lx.startQuote && r.lexer.endQuote == lx.endQuote
  {
    if lx.finished then Exhausted(lx)
    else
      match NextToken(lx.input, lx.startQuote, lx.endQuote)
      case Eof => Exhausted(lx.(finished := true))
      case Unterminated => Failed
      case Tok(t, rest) => Got(t, lx.(input := rest))
  }

  /** `insert_text`: the text is lexed next, ahead of everything pending. */
  function InsertText(lx: Lexer, text: seq<byte>): (r: Lexer)
    ensures r.input == text + lx.input
    ensures r.startQuote == lx.startQuote && r.endQuote == lx.endQuote && r.finished == lx.finished
  {
    lx.(input := text + lx.input)
  }

  /** `changequote`: the delimiters used for everything lexed from now on. */
  function Changequote(lx: Lexer, sq: seq<byte>, eq: seq<byte>): (r: Lexer)
    ensures r.startQuote == sq && r.endQuote == eq
    ensures r.input == lx.input && r.finished == lx.finished
  {
    lx.(startQuote := sq, endQuote := eq)
  }

  /** `peek_char`: the next raw byte, not yet lexed and not consumed. */
  function PeekChar(lx: Lexer): (r: Cursor.Peeked)
    ensures r.EOF? <==> lx.input == []
    ensures r.Byte? ==> r.b == lx.input[0]
  {
    if lx.input == [] then Cursor.EOF else Cursor.Byte(lx.input[0])
  }
}
