/**
 * The expansion engine (`Parser`): a macro table, the lexer, the diversion sink and an
 * explicit stack of argument frames standing for the nested `_parse_args` /
 * `_expand_tokens` activations of the source.
 *
 * One `Step` pulls one token from the lexer. An identifier that names a macro either opens
 * an argument frame (when the next raw byte is `(`) or invokes the macro at once; any other
 * token's value goes to the innermost open frame, or to the sink when no frame is open.
 * A macro is looked up when its name is read, before its arguments are collected, so the
 * frame records the definition in force at that moment. A macro's non-empty result is
 * spliced in front of the pending input and lexed again.
 */
module Parser {
  import opened Bytes
  import Lexing
  import Cursor
  import Arguments
  import Diversions
  import Integers

  datatype Builtin = Define | Dnl | Changequote | Divert

  /** A builtin, or a user definition that expands to its body whatever its arguments. */
  datatype Macro = Builtin(which: Builtin) | User(body: seq<byte>)

  type Macros = map<seq<byte>, Macro>

  const DEFINE: seq<byte> := [100, 101, 102, 105, 110, 101]
  const DNL: seq<byte> := [100, 110, 108]
  const CHANGEQUOTE: seq<byte> := [99, 104, 97, 110, 103, 101, 113, 117, 111, 116, 101]
  const DIVERT: seq<byte> := [100, 105, 118, 101, 114, 116]

  /** The table a fresh parser starts with. */
  function Builtins(): (t: Macros)
    ensures t.Keys == {DEFINE, DNL, CHANGEQUOTE, DIVERT}
    ensures forall name :: name in t ==> t[name].Builtin?
  {
    map[DEFINE := Builtin(Define), DNL := Builtin(Dnl), CHANGEQUOTE := Builtin(Changequote), DIVERT := Builtin(Divert)]
  }

  /** An argument frame: the macro being called and its arguments so far. */
  datatype Call = Call(macro: Macro, collector: Arguments.Collector)

  datatype Engine = Engine(lexer: Lexing.Lexer, macros: Macros, sink: Diversions.Sink, calls: seq<Call>)

  /**
   * How a run can fail: an unterminated string (the exhausted read inside the string state),
   * the token after a peeked `(` not being `(` (`ParseError`), or the token stream ending
   * right after a peeked `(` (a `StopIteration` escaping the generator).
   */
  datatype Failure = UnterminatedString | ExpectedOpenParen(got: seq<byte>) | StreamEnded

  /** The result of running a builtin or a user macro. */
  datatype Effect = Ok(engine: Engine) | Err(failure: Failure)

  datatype Stepped = Running(engine: Engine) | Drained(engine: Engine) | Halted(failure: Failure)

  /** What a whole run writes: the text, or the text written before a failure or before fuel ran out. */
  datatype Outcome = Completed(output: seq<byte>) | Aborted(failure: Failure, output: seq<byte>) | OutOfFuel(output: seq<byte>)

  /** Every open frame is inside at least one unclosed parenthesis. */
  predicate Valid(e: Engine) {
    forall i :: 0 <= i < |e.calls| ==> e.calls[i].collector.depth >= 1
  }

  /** `Parser(text)`: builtins only, default quotes, writing to the output stream. */
  function Start(text: seq<byte>): (e: Engine)
    ensures Valid(e) && e.calls == [] && e.lexer.input == text && e.macros == Builtins()
  {
    Engine(Lexing.NewLexer(text), Builtins(), Diversions.Start, [])
  }

  /** `Parser.define`: installs or replaces a user macro. */
  function DefineMacro(e: Engine, name: seq<byte>, body: seq<byte>): (r: Engine)
    ensures name in r.macros && r.macros[name] == User(body)
    ensures forall other :: other != name ==> (other in r.macros <==> other in e.macros)
    ensures forall other :: other != name && other in e.macros ==> r.macros[other] == e.macros[other]
    ensures r.lexer == e.lexer && r.sink == e.sink && r.calls == e.calls
  {
    e.(macros := e.macros[name := User(body)])
  }

  /** `dnl`: raw tokens are dropped up to and including the first whose value is a newline. */
  function SkipLine(lx: Lexing.Lexer): (r: Option<Lexing.Lexer>)
    ensures r.Some? ==> |r.value.input| <= |lx.input|
    ensures r.Some? ==> r.value.startQuote == lx.startQuote && r.value.endQuote == lx.endQuote
    decreases |lx.input|
  {
    match Lexing.Next(lx)
    case Failed => None
    case Exhausted(lx1) => Some(lx1)
    case Got(t, lx1) => if t.value == [NEWLINE] then Some(lx1) else SkipLine(lx1)
  }

  /** Runs a macro on its collected arguments. */
  function Invoke(m: Macro, args: seq<seq<byte>>, e: Engine): (r: Effect)
    ensures r.Ok? ==> r.engine.calls == e.calls
    ensures m.User? ==>
      (r.Ok? && r.engine.macros == e.macros && r.engine.sink == e.sink
       && r.engine.lexer == Lexing.InsertText(e.lexer, m.body))
    ensures m == Builtin(Define) ==>
      (r.Ok? && r.engine.lexer == e.lexer && r.engine.sink == e.sink
       && r.engine.macros == (if args == [] then e.macros else e.macros[args[0] := User(if |args| >= 2 then args[1] else [])]))
    ensures m == Builtin(Changequote) ==>
      (r.Ok? && r.engine.macros == e.macros && r.engine.sink == e.sink
       && r.engine.lexer.input == e.lexer.input && r.engine.lexer.finished == e.lexer.finished
       && r.engine.lexer.startQuote == (if |args| >= 1 then args[0] else Lexing.DEFAULT_START)
       && r.engine.lexer.endQuote == (if |args| >= 2 then args[1] else Lexing.DEFAULT_END))
    ensures m == Builtin(Divert) ==>
      (r.Ok? && r.engine.macros == e.macros && r.engine.lexer == e.lexer
       && r.engine.sink.output == e.sink.output && r.engine.sink.buffers == e.sink.buffers
       && r.engine.sink.current ==
         (if args == [] then 0
          else if Integers.ParseInt(args[0]).Some? then Integers.ParseInt(args[0]).value
          else e.sink.current))
    ensures m == Builtin(Dnl) ==> (r.Ok? <==> SkipLine(e.lexer).Some?)
    ensures m == Builtin(Dnl) && r.Ok? ==>
      (r.engine.macros == e.macros && r.engine.sink == e.sink
       && r.engine.lexer == SkipLine(e.lexer).value)
  {
    match m
    case User(body) =>
      // `if result:` -- an empty body inserts nothing, which is the same as inserting it
      Ok(e.(lexer := Lexing.InsertText(e.lexer, body)))
    case Builtin(Define) =>
      Ok(if args == [] then e else DefineMacro(e, args[0], if |args| >= 2 then args[1] else []))
    case Builtin(Changequote) =>
      Ok(e.(lexer := Lexing.Changequote(e.lexer,
        if |args| >= 1 then args[0] else Lexing.DEFAULT_START,
        if |args| >= 2 then args[1] else Lexing.DEFAULT_END)))
    case Builtin(Divert) =>
      if args == [] then Ok(e.(sink := Diversions.Divert(e.sink, 0)))
      else (
        match Integers.ParseInt(args[0])
        case Some(n) => Ok(e.(sink := Diversions.Divert(e.sink, n)))
        case None => Ok(e))
    case Builtin(Dnl) =>
      match SkipLine(e.lexer)
      case None => Err(UnterminatedString)
      case Some(lx) => Ok(e.(lexer := lx))
  }

  function Lift(r: Effect): (s: Stepped)
    ensures r.Ok? ==> s == Running(r.engine)
    ensures r.Err? ==> s == Halted(r.failure)
  {
    match r
    case Ok(e) => Running(e)
    case Err(f) => Halted(f)
  }

  /**
   * A token value that is not expanded: into the innermost frame if one is open, where a
   * closing `)` pops the frame and invokes its macro; otherwise to the current diversion.
   */
  function Deliver(v: seq<byte>, e: Engine): (r: Effect)
    ensures e.calls == [] ==> r == Ok(e.(sink := Diversions.Write(e.sink, v)))
    ensures e.calls != [] && r.Ok? ==>
      (r.engine.sink.output == e.sink.output && r.engine.sink.buffers == e.sink.buffers && |r.engine.calls| <= |e.calls|)
  {
    if e.calls == [] then Ok(e.(sink := Diversions.Write(e.sink, v)))
    else
      var top := e.calls[|e.calls| - 1];
      var below := e.calls[..|e.calls| - 1];
      match Arguments.Feed(top.collector, v)
      case Open(c) => Ok(e.(calls := below + [top.(collector := c)]))
      case Closed(args) => Invoke(top.macro, args, e.(calls := below))
  }

  /** Whether a token is a macro call: an identifier that names a macro. */
  predicate Expands(t: Lexing.Token, macros: Macros) {
    t.kind == Lexing.Identifier && t.value in macros
  }

  /** One token's worth of `parse` / `_expand_tokens` / `_parse_args`. */
  function Step(e: Engine): (r: Stepped)
    ensures r.Drained? <==> e.calls == [] && Lexing.Next(e.lexer).Exhausted?
    ensures r.Drained? ==> r.engine.sink == e.sink && r.engine.lexer.finished
    ensures Lexing.Next(e.lexer).Failed? ==> r == Halted(UnterminatedString)
  {
    match Lexing.Next(e.lexer)
    case Failed => Halted(UnterminatedString)
    case Exhausted(lx) =>
      // the token stream has ended: every open `_parse_args` returns what it has closed
      if e.calls == [] then Drained(e.(lexer := lx))
      else
        var top := e.calls[|e.calls| - 1];
        Lift(Invoke(top.macro, top.collector.args, e.(lexer := lx, calls := e.calls[..|e.calls| - 1])))
    case Got(t, lx) =>
      var e1 := e.(lexer := lx);
      if Expands(t, e.macros) then
        var m := e.macros[t.value];
        if Lexing.PeekChar(lx) == Cursor.Byte(LPAREN) then
          (match Lexing.Next(lx)
           case Failed => Halted(UnterminatedString)
           case Exhausted(_) => Halted(StreamEnded)
           case Got(p, lx2) =>
             if p.value == [LPAREN] then Running(e1.(lexer := lx2, calls := e.calls + [Call(m, Arguments.Opened)]))
             else Halted(ExpectedOpenParen(p.value)))
        else Lift(Invoke(m, [], e1))
      else Lift(Deliver(t.value, e1))
  }

  /** `parse`, bounded by `fuel` steps: self-referential definitions never finish. */
  function Run(e: Engine, fuel: nat): (r: Outcome)
    decreases fuel, 0
  {
    if fuel == 0 then OutOfFuel(e.sink.output) else After(Step(e), e, fuel - 1)
  }

  /** Continues a run from the result of one step taken from `e`. */
  function After(s: Stepped, e: Engine, fuel: nat): (r: Outcome)
    decreases fuel, 1
  {
    match s
    case Drained(e1) => Completed(Diversions.Finish(e1.sink).output)
    case Halted(f) => Aborted(f, e.sink.output)
    case Running(e1) => Run(e1, fuel)
  }

  /** A whole run on `text` from a fresh parser. */
  function Process(text: seq<byte>, fuel: nat): Outcome {
    Run(Start(text), fuel)
  }
}
