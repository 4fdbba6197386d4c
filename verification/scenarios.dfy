/**
 * Concrete runs of the engine, one for each behaviour the repository's unit tests pin
 * down: chained and trailing definitions, argument parsing, quotes and `changequote`,
 * nested quotes, diversion order, and a definition that refers to itself.
 */
module Scenarios {
  import opened Bytes
  import opened Parser
  import Lexing
  import LexerFacts
  import ParserFacts
  import Arguments
  import Diversions

  const A: seq<byte> := [97]
  const ABC: seq<byte> := [97, 98, 99]
  const XYZ: seq<byte> := [120, 121, 122]
  const ONE_TWO_THREE: seq<byte> := [49, 50, 51]
  const OPEN_BRACKET: byte := 91
  const CLOSE_BRACKET: byte := 93

  // ----- helpers -----

  lemma TokenizeCons(input: seq<byte>, sq: seq<byte>, eq: seq<byte>, t: Lexing.Token, rest: seq<byte>, ts: seq<Lexing.Token>)
    requires Lexing.NextToken(input, sq, eq) == Lexing.Tok(t, rest) && Lexing.Tokenize(rest, sq, eq) == Some(ts)
    ensures Lexing.Tokenize(input, sq, eq) == Some([t] + ts)
  {
  }

  lemma ValuesCons(t: Lexing.Token, ts: seq<Lexing.Token>)
    ensures ParserFacts.Values([t] + ts) == t.value + ParserFacts.Values(ts)
  {
    assert ([t] + ts)[1..] == ts;
  }

  /** Bytes each lexed as a raw token of their own under a start quote `q`. */
  predicate AllRaw(s: seq<byte>, q: byte) {
    forall i :: 0 <= i < |s| ==> !IsIdentStart(s[i]) && s[i] != HASH && s[i] != q
  }

  function RawTokens(s: seq<byte>): (ts: seq<Lexing.Token>)
    ensures |ts| == |s|
    ensures forall i :: 0 <= i < |s| ==> ts[i] == Lexing.Token(Lexing.Raw, [s[i]])
  {
    if s == [] then [] else [Lexing.Token(Lexing.Raw, [s[0]])] + RawTokens(s[1..])
  }

  lemma {:induction false} TokenizeRaw(s: seq<byte>, q: byte, e: seq<byte>)
    requires AllRaw(s, q)
    ensures Lexing.Tokenize(s, [q], e) == Some(RawTokens(s))
    decreases |s|
  {
    if s != [] {
      LexerFacts.RawToken(s, [q], e);
      TokenizeRaw(s[1..], q, e);
    }
  }

  lemma {:induction false} RawValues(s: seq<byte>)
    ensures ParserFacts.Values(RawTokens(s)) == s
    decreases |s|
  {
    if s != [] {
      RawValues(s[1..]);
      assert RawTokens(s)[1..] == RawTokens(s[1..]);
    }
  }

  lemma RawNoCalls(s: seq<byte>, macros: Macros)
    ensures ParserFacts.NoCalls(RawTokens(s), macros)
  {
    var ts := RawTokens(s);
    forall i | 0 <= i < |ts|
      ensures !Expands(ts[i], macros)
    {
      assert ts[i].kind == Lexing.Raw;
    }
  }

  /** A fresh sink with nothing pending: a run from here writes exactly the token values. */
  lemma WritesTokens(e: Engine, ts: seq<Lexing.Token>)
    requires e.calls == [] && !e.lexer.finished && e.sink == Diversions.Start
    requires Lexing.Tokenize(e.lexer.input, e.lexer.startQuote, e.lexer.endQuote) == Some(ts)
    requires ParserFacts.NoCalls(ts, e.macros)
    ensures Run(e, |ts| + 1) == Completed(ParserFacts.Values(ts))
  {
    ParserFacts.PassThrough(e, ts);
    ParserFacts.FlushNothing();
    assert [] + ParserFacts.Values(ts) + [] == ParserFacts.Values(ts);
  }

  /** A user macro called without arguments: the run goes on from its body. */
  lemma ExpandsOnce(e: Engine, name: seq<byte>, body: seq<byte>, rest: seq<byte>, fuel: nat)
    requires !e.lexer.finished && e.lexer.input == name + rest && ParserFacts.IsName(name)
    requires e.lexer.startQuote != [name[0]] && ParserFacts.NoArgumentsFollow(rest)
    requires name in e.macros && e.macros[name] == User(body)
    ensures Run(e, fuel + 1) == Run(e.(lexer := e.lexer.(input := body + rest)), fuel)
  {
    ParserFacts.UserMacroSplices(e, name, rest);
    ParserFacts.RunOnce(e, fuel);
  }

  // ----- definitions -----

  lemma DigitsRaw()
    ensures AllRaw(ONE_TWO_THREE, BACKTICK)
  {
  }

  lemma ChainTail(e: Engine)
    requires e.calls == [] && !e.lexer.finished && e.sink == Diversions.Start
    requires e.lexer.input == ONE_TWO_THREE && e.lexer.startQuote == Lexing.DEFAULT_START
    ensures Run(e, 4) == Completed(ONE_TWO_THREE)
  {
    DigitsRaw();
    TokenizeRaw(ONE_TWO_THREE, BACKTICK, e.lexer.endQuote);
    RawValues(ONE_TWO_THREE);
    RawNoCalls(ONE_TWO_THREE, e.macros);
    WritesTokens(e, RawTokens(ONE_TWO_THREE));
  }

  lemma ChainMiddle(e: Engine)
    requires e.calls == [] && !e.lexer.finished && e.sink == Diversions.Start
    requires e.lexer.input == XYZ && e.lexer.startQuote == Lexing.DEFAULT_START
    requires XYZ in e.macros && e.macros[XYZ] == User(ONE_TWO_THREE)
    ensures Run(e, 5) == Completed(ONE_TWO_THREE)
  {
    assert XYZ + [] == XYZ && ONE_TWO_THREE + [] == ONE_TWO_THREE;
    ExpandsOnce(e, XYZ, ONE_TWO_THREE, [], 4);
    ChainTail(e.(lexer := e.lexer.(input := ONE_TWO_THREE)));
  }

  /** `Parser('abc')` with `abc` defined as `xyz` and `xyz` as `123` writes `123`. */
  lemma ChainedDefinitions()
    ensures Run(DefineMacro(DefineMacro(Start(ABC), ABC, XYZ), XYZ, ONE_TWO_THREE), 6) == Completed(ONE_TWO_THREE)
  {
    var e := DefineMacro(DefineMacro(Start(ABC), ABC, XYZ), XYZ, ONE_TWO_THREE);
    assert ABC + [] == ABC && XYZ + [] == XYZ;
    ExpandsOnce(e, ABC, XYZ, [], 5);
    ChainMiddle(e.(lexer := e.lexer.(input := XYZ)));
  }

  lemma TrailingTail(e: Engine)
    requires e.calls == [] && !e.lexer.finished && e.sink == Diversions.Start
    requires e.lexer.input == XYZ + [SPACE] && e.lexer.startQuote == Lexing.DEFAULT_START
    requires XYZ !in e.macros
    ensures Run(e, 3) == Completed(XYZ + [SPACE])
  {
    var sq := e.lexer.startQuote;
    var eq := e.lexer.endQuote;
    LexerFacts.IdentifierExact(XYZ, [SPACE], sq, eq);
    LexerFacts.RawToken([SPACE], sq, eq);
    assert [SPACE][1..] == [];
    var t1 := Lexing.Token(Lexing.Raw, [SPACE]);
    var t0 := Lexing.Token(Lexing.Identifier, XYZ);
    TokenizeCons([SPACE], sq, eq, t1, [], []);
    assert [t1] + [] == [t1];
    TokenizeCons(XYZ + [SPACE], sq, eq, t0, [SPACE], [t1]);
    ValuesCons(t1, []);
    ValuesCons(t0, [t1]);
    WritesTokens(e, [t0] + [t1]);
  }

  /** `Parser('abc ')` with `abc` defined as `xyz` writes `xyz `: the text after the call is untouched. */
  lemma TrailingTextKept()
    ensures Run(DefineMacro(Start(ABC + [SPACE]), ABC, XYZ), 4) == Completed(XYZ + [SPACE])
  {
    var e := DefineMacro(Start(ABC + [SPACE]), ABC, XYZ);
    NotBuiltin(XYZ);
    ExpandsOnce(e, ABC, XYZ, [SPACE], 3);
    TrailingTail(e.(lexer := e.lexer.(input := XYZ + [SPACE])));
  }

  // ----- argument parsing -----

  /** A token that is not a macro call, fed to the only open frame, which stays open. */
  lemma FeedsFrame(e: Engine, t: Lexing.Token, rest: seq<byte>, c: Arguments.Collector, fuel: nat) returns (e1: Engine)
    requires !e.lexer.finished && Lexing.NextToken(e.lexer.input, e.lexer.startQuote, e.lexer.endQuote) == Lexing.Tok(t, rest)
    requires !Expands(t, e.macros) && |e.calls| == 1
    requires Arguments.Feed(e.calls[0].collector, t.value) == Arguments.Open(c)
    ensures e1 == e.(lexer := e.lexer.(input := rest), calls := [e.calls[0].(collector := c)])
    ensures Run(e, fuel + 1) == Run(e1, fuel)
  {
    e1 := e.(lexer := e.lexer.(input := rest), calls := [e.calls[0].(collector := c)]);
    assert e.calls[..0] == [];
    assert Step(e) == Running(e1);
    ParserFacts.RunOnce(e, fuel);
  }

  lemma BlankSkipped(c: Arguments.Collector)
    requires c.current == []
    ensures Arguments.Feed(c, [SPACE]) == Arguments.Open(c)
  {
    Arguments.WhitespaceSkippedWhileEmpty(c, [SPACE]);
  }

  lemma NameCollected(c: Arguments.Collector, name: seq<byte>)
    requires c.current == [] && name != [] && IsIdentStart(name[0])
    ensures Arguments.Feed(c, name) == Arguments.Open(c.(current := [name]))
  {
    Arguments.FeedEffect(c, name);
  }

  lemma CommaCloses(name: seq<byte>)
    ensures Arguments.Feed(Arguments.Collector([], [name], 1), [COMMA]) == Arguments.Open(Arguments.Collector([name], [], 1))
  {
    assert Join([name]) == name;
  }

  lemma ParenCloses()
    ensures Arguments.Feed(Arguments.Collector([ABC], [XYZ], 1), [RPAREN]) == Arguments.Closed([ABC, XYZ])
  {
    assert Join([XYZ]) == XYZ;
  }

  /** A token that closes the only open frame: its macro runs on the collected arguments. */
  lemma ClosesFrame(e: Engine, t: Lexing.Token, rest: seq<byte>, fuel: nat)
    requires !e.lexer.finished && Lexing.NextToken(e.lexer.input, e.lexer.startQuote, e.lexer.endQuote) == Lexing.Tok(t, rest)
    requires !Expands(t, e.macros) && |e.calls| == 1
    requires Arguments.Feed(e.calls[0].collector, t.value).Closed?
    requires Invoke(e.calls[0].macro, Arguments.Feed(e.calls[0].collector, t.value).args,
                    e.(lexer := e.lexer.(input := rest), calls := [])).Ok?
    ensures Run(e, fuel + 1) ==
      Run(Invoke(e.calls[0].macro, Arguments.Feed(e.calls[0].collector, t.value).args,
                 e.(lexer := e.lexer.(input := rest), calls := [])).engine, fuel)
  {
    assert e.calls[..0] == [];
    ParserFacts.RunOnce(e, fuel);
  }

  const ARGS_TAIL: seq<byte> := XYZ + [RPAREN] + ABC
  const AFTER_COMMA: seq<byte> := [COMMA, SPACE] + ARGS_TAIL
  const ARGS: seq<byte> := [SPACE] + ABC + AFTER_COMMA

  /** The engine inside `define(`, with `frame` as its only frame and `input` pending. */
  predicate InDefine(e: Engine, input: seq<byte>, frame: Arguments.Collector) {
    && e.calls == [Call(Builtin(Define), frame)] && !e.lexer.finished && e.lexer.input == input
    && e.lexer.startQuote == Lexing.DEFAULT_START && e.lexer.endQuote == Lexing.DEFAULT_END
    && e.macros == Builtins() && e.sink == Diversions.Start
  }

  /** `define(` has been read: the engine with one frame for `define` and `args` pending. */
  function InsideDefine(args: seq<byte>): (e: Engine)
    ensures InDefine(e, args, Arguments.Opened)
  {
    Start(DEFINE + [LPAREN] + args).(lexer := Lexing.NewLexer(args), calls := [Call(Builtin(Define), Arguments.Opened)])
  }

  lemma DefineOpens(args: seq<byte>, fuel: nat)
    ensures Process(DEFINE + [LPAREN] + args, fuel + 1) == Run(InsideDefine(args), fuel)
  {
    var e := Start(DEFINE + [LPAREN] + args);
    ParserFacts.CallOpensFrame(e, DEFINE, args);
    assert Step(e) == Running(InsideDefine(args));
    ParserFacts.RunOnce(e, fuel);
  }

  lemma NotBuiltin(name: seq<byte>)
    requires |name| <= 3 && name != Parser.DNL
    ensures name !in Builtins()
  {
  }

  /** A name that is not a macro, alone in the input, is written as it is. */
  lemma NameWritten(e: Engine, name: seq<byte>)
    requires e.calls == [] && !e.lexer.finished && e.lexer.input == name
    requires ParserFacts.IsName(name) && e.lexer.startQuote != [name[0]] && e.sink == Diversions.Start
    requires name !in e.macros
    ensures Run(e, 2) == Completed(name)
  {
    var t := Lexing.Token(Lexing.Identifier, name);
    LexerFacts.IdentifierExact(name, [], e.lexer.startQuote, e.lexer.endQuote);
    assert name + [] == name;
    TokenizeCons(name, e.lexer.startQuote, e.lexer.endQuote, t, [], []);
    ValuesCons(t, []);
    assert [t] + [] == [t];
    assert ParserFacts.NoCalls([t], e.macros);
    WritesTokens(e, [t]);
  }

  /** After `define(abc, xyz)`: `abc` expands to `xyz`, which is written. */
  lemma ArgumentsDefined(e: Engine)
    requires e.calls == [] && !e.lexer.finished && e.lexer.input == ABC
    requires e.lexer.startQuote == Lexing.DEFAULT_START && e.sink == Diversions.Start
    requires e.macros == Builtins()[ABC := User(XYZ)]
    ensures Run(e, 3) == Completed(XYZ)
  {
    assert ABC + [] == ABC && XYZ + [] == XYZ;
    ExpandsOnce(e, ABC, XYZ, [], 2);
    XyzNotMacro();
    var e1 := e.(lexer := e.lexer.(input := XYZ));
    assert e1.lexer.startQuote == Lexing.DEFAULT_START != [XYZ[0]];
    NameWritten(e1, XYZ);
  }

  lemma XyzNotMacro()
    ensures XYZ !in Builtins()[ABC := User(XYZ)] && ParserFacts.IsName(XYZ)
  {
    NotBuiltin(XYZ);
    assert XYZ != ABC;
  }

  /** `xyz)` closes the second argument and the call; `define` runs. */
  lemma SecondArgument(e: Engine)
    requires InDefine(e, ARGS_TAIL, Arguments.Collector([ABC], [], 1))
    ensures Run(e, 5) == Completed(XYZ)
  {
    var sq := Lexing.DEFAULT_START;
    var eq := Lexing.DEFAULT_END;
    var after := [RPAREN] + ABC;
    assert ARGS_TAIL == XYZ + after;
    NotBuiltin(XYZ);
    LexerFacts.IdentifierExact(XYZ, after, sq, eq);
    NameCollected(Arguments.Collector([ABC], [], 1), XYZ);
    var e1 := FeedsFrame(e, Lexing.Token(Lexing.Identifier, XYZ), after, Arguments.Collector([ABC], [XYZ], 1), 4);
    LexerFacts.RawToken(after, sq, eq);
    assert after[1..] == ABC;
    ParenCloses();
    ClosesFrame(e1, Lexing.Token(Lexing.Raw, [RPAREN]), ABC, 3);
    ArgumentsDefined(Engine(e1.lexer.(input := ABC), Builtins()[ABC := User(XYZ)], e1.sink, []));
  }

  /** `, ` closes the first argument and the blank after it is skipped. */
  lemma BetweenArguments(e: Engine)
    requires InDefine(e, AFTER_COMMA, Arguments.Collector([], [ABC], 1))
    ensures Run(e, 7) == Completed(XYZ)
  {
    var sq := Lexing.DEFAULT_START;
    var eq := Lexing.DEFAULT_END;
    var closed := Arguments.Collector([ABC], [], 1);
    LexerFacts.RawToken(AFTER_COMMA, sq, eq);
    assert AFTER_COMMA[1..] == [SPACE] + ARGS_TAIL;
    CommaCloses(ABC);
    var e1 := FeedsFrame(e, Lexing.Token(Lexing.Raw, [COMMA]), [SPACE] + ARGS_TAIL, closed, 6);
    LexerFacts.RawToken([SPACE] + ARGS_TAIL, sq, eq);
    assert ([SPACE] + ARGS_TAIL)[1..] == ARGS_TAIL;
    BlankSkipped(closed);
    var e2 := FeedsFrame(e1, Lexing.Token(Lexing.Raw, [SPACE]), ARGS_TAIL, closed, 5);
    SecondArgument(e2);
  }

  /** `abc`, not yet a macro, is the first argument's text. */
  lemma FirstName(e: Engine)
    requires InDefine(e, ABC + AFTER_COMMA, Arguments.Opened)
    ensures Run(e, 8) == Completed(XYZ)
  {
    NotBuiltin(ABC);
    LexerFacts.IdentifierExact(ABC, AFTER_COMMA, Lexing.DEFAULT_START, Lexing.DEFAULT_END);
    NameCollected(Arguments.Opened, ABC);
    var e1 := FeedsFrame(e, Lexing.Token(Lexing.Identifier, ABC), AFTER_COMMA, Arguments.Collector([], [ABC], 1), 7);
    BetweenArguments(e1);
  }

  /** The blank right after `define(` is skipped while the first argument is empty. */
  lemma FirstArgument(e: Engine)
    requires InDefine(e, ARGS, Arguments.Opened)
    ensures Run(e, 9) == Completed(XYZ)
  {
    LexerFacts.RawToken(ARGS, Lexing.DEFAULT_START, Lexing.DEFAULT_END);
    assert ARGS[1..] == ABC + AFTER_COMMA;
    BlankSkipped(Arguments.Opened);
    var e1 := FeedsFrame(e, Lexing.Token(Lexing.Raw, [SPACE]), ABC + AFTER_COMMA, Arguments.Opened, 8);
    FirstName(e1);
  }

  /** `define( abc, xyz)abc` writes `xyz`. */
  lemma DefineThroughArguments()
    ensures Process(DEFINE + [LPAREN] + ARGS, 10) == Completed(XYZ)
  {
    DefineOpens(ARGS, 9);
    FirstArgument(InsideDefine(ARGS));
  }

  // ----- a definition that refers to itself -----

  const SELF_TAIL: seq<byte> := [RPAREN] + A
  const SELF_SECOND: seq<byte> := A + SELF_TAIL
  const SELF_COMMA: seq<byte> := [COMMA] + SELF_SECOND
  const SELF_ARGS: seq<byte> := A + SELF_COMMA

  /** `)` closes `define(a,a` and `a` is defined as `a`; the `a` after it expands forever. */
  lemma SelfClosed(e: Engine, fuel: nat)
    requires InDefine(e, SELF_TAIL, Arguments.Collector([A], [A], 1))
    ensures Run(e, fuel) == OutOfFuel([])
  {
    if fuel > 0 {
      LexerFacts.RawToken(SELF_TAIL, Lexing.DEFAULT_START, Lexing.DEFAULT_END);
      assert SELF_TAIL[1..] == A;
      assert Join([A]) == A;
      assert Arguments.Feed(Arguments.Collector([A], [A], 1), [RPAREN]) == Arguments.Closed([A, A]);
      ClosesFrame(e, Lexing.Token(Lexing.Raw, [RPAREN]), A, fuel - 1);
      var e1 := Engine(e.lexer.(input := A), Builtins()[A := User(A)], e.sink, []);
      assert A + [] == A;
      ParserFacts.SelfReferenceNeverFinishes(e1, A, [], fuel - 1);
    }
  }

  /** The second `a` is the second argument's text. */
  lemma SelfSecond(e: Engine, fuel: nat)
    requires InDefine(e, SELF_SECOND, Arguments.Collector([A], [], 1))
    ensures Run(e, fuel) == OutOfFuel([])
  {
    if fuel > 0 {
      NotBuiltin(A);
      LexerFacts.IdentifierExact(A, SELF_TAIL, Lexing.DEFAULT_START, Lexing.DEFAULT_END);
      NameCollected(Arguments.Collector([A], [], 1), A);
      var e1 := FeedsFrame(e, Lexing.Token(Lexing.Identifier, A), SELF_TAIL, Arguments.Collector([A], [A], 1), fuel - 1);
      SelfClosed(e1, fuel - 1);
    }
  }

  /** `,` closes the first argument. */
  lemma SelfComma(e: Engine, fuel: nat)
    requires InDefine(e, SELF_COMMA, Arguments.Collector([], [A], 1))
    ensures Run(e, fuel) == OutOfFuel([])
  {
    if fuel > 0 {
      LexerFacts.RawToken(SELF_COMMA, Lexing.DEFAULT_START, Lexing.DEFAULT_END);
      assert SELF_COMMA[1..] == SELF_SECOND;
      CommaCloses(A);
      var e1 := FeedsFrame(e, Lexing.Token(Lexing.Raw, [COMMA]), SELF_SECOND, Arguments.Collector([A], [], 1), fuel - 1);
      SelfSecond(e1, fuel - 1);
    }
  }

  /** The first `a`, not yet a macro, is the first argument's text. */
  lemma SelfFirst(e: Engine, fuel: nat)
    requires InDefine(e, SELF_ARGS, Arguments.Opened)
    ensures Run(e, fuel) == OutOfFuel([])
  {
    if fuel > 0 {
      NotBuiltin(A);
      LexerFacts.IdentifierExact(A, SELF_COMMA, Lexing.DEFAULT_START, Lexing.DEFAULT_END);
      NameCollected(Arguments.Opened, A);
      var e1 := FeedsFrame(e, Lexing.Token(Lexing.Identifier, A), SELF_COMMA, Arguments.Collector([], [A], 1), fuel - 1);
      SelfComma(e1, fuel - 1);
    }
  }

  /** `define(a,a)a` never finishes and writes nothing, however many steps it is given. */
  lemma SelfReference(fuel: nat)
    ensures Process(DEFINE + [LPAREN] + SELF_ARGS, fuel) == OutOfFuel([])
  {
    if fuel > 0 {
      DefineOpens(SELF_ARGS, fuel - 1);
      SelfFirst(InsideDefine(SELF_ARGS), fuel - 1);
    }
  }

  // ----- nested parentheses in a user macro's arguments -----

  const FOO: seq<byte> := [102, 111, 111]
  const BAR: seq<byte> := [98, 97, 114]
  const NP_LAST: seq<byte> := ABC + [RPAREN]
  const NP_INNER_CLOSE: seq<byte> := [RPAREN] + NP_LAST
  const NP_INNER_NAME: seq<byte> := XYZ + NP_INNER_CLOSE
  const NP_INNER_OPEN: seq<byte> := [LPAREN] + NP_INNER_NAME
  const NP_ARGS: seq<byte> := ABC + NP_INNER_OPEN

  /** The table with `foo` defined as `bar`. */
  function FooMacros(): Macros {
    Builtins()[FOO := User(BAR)]
  }

  /** The engine inside `foo(`, with `frame` as its only frame and `input` pending. */
  predicate InFoo(e: Engine, input: seq<byte>, frame: Arguments.Collector) {
    && e.calls == [Call(User(BAR), frame)] && !e.lexer.finished && e.lexer.input == input
    && e.lexer.startQuote == Lexing.DEFAULT_START && e.lexer.endQuote == Lexing.DEFAULT_END
    && e.macros == FooMacros() && e.sink == Diversions.Start
  }

  lemma LastParenCloses()
    ensures Arguments.Feed(Arguments.Collector([ABC + XYZ], [ABC], 1), [RPAREN]) == Arguments.Closed([ABC + XYZ, ABC])
  {
    assert Join([ABC]) == ABC;
  }

  /** The call's last `)` runs `foo`, which puts its body `bar` in front of the empty rest. */
  lemma NestedCallRuns(e: Engine)
    requires InFoo(e, [RPAREN], Arguments.Collector([ABC + XYZ], [ABC], 1))
    ensures Run(e, 3) == Run(Engine(e.lexer.(input := BAR), FooMacros(), e.sink, []), 2)
  {
    LexerFacts.RawToken([RPAREN], Lexing.DEFAULT_START, Lexing.DEFAULT_END);
    assert [RPAREN][1..] == [];
    LastParenCloses();
    ClosesFrame(e, Lexing.Token(Lexing.Raw, [RPAREN]), [], 2);
    assert BAR + [] == BAR;
  }

  lemma BarNotMacro()
    ensures BAR !in FooMacros() && ParserFacts.IsName(BAR)
  {
    NotBuiltin(BAR);
    assert BAR != FOO;
  }

  /** The call's last `)` runs `foo`, whose body `bar` is then written. */
  lemma NestedCallCloses(e: Engine)
    requires InFoo(e, [RPAREN], Arguments.Collector([ABC + XYZ], [ABC], 1))
    ensures Run(e, 3) == Completed(BAR)
  {
    NestedCallRuns(e);
    BarNotMacro();
    var e1 := Engine(e.lexer.(input := BAR), FooMacros(), e.sink, []);
    assert e1.lexer.startQuote == Lexing.DEFAULT_START != [BAR[0]];
    NameWritten(e1, BAR);
  }

  /** The second `abc` starts the call's second argument. */
  lemma NestedLastName(e: Engine)
    requires InFoo(e, NP_LAST, Arguments.Collector([ABC + XYZ], [], 1))
    ensures Run(e, 4) == Completed(BAR)
  {
    NotBuiltin(ABC);
    LexerFacts.IdentifierExact(ABC, [RPAREN], Lexing.DEFAULT_START, Lexing.DEFAULT_END);
    NameCollected(Arguments.Collector([ABC + XYZ], [], 1), ABC);
    var e1 := FeedsFrame(e, Lexing.Token(Lexing.Identifier, ABC), [RPAREN], Arguments.Collector([ABC + XYZ], [ABC], 1), 3);
    NestedCallCloses(e1);
  }

  lemma InnerParenJoins()
    ensures Arguments.Feed(Arguments.Collector([], [ABC, XYZ], 2), [RPAREN]) == Arguments.Open(Arguments.Collector([ABC + XYZ], [], 1))
  {
    Arguments.InnerParenClosesArgument(Arguments.Collector([], [ABC, XYZ], 2));
    assert Join([XYZ]) == XYZ;
    assert Join([ABC, XYZ]) == ABC + XYZ;
  }

  /** The inner `)` closes the first argument, `abcxyz`, and only lowers the depth. */
  lemma NestedInnerClose(e: Engine)
    requires InFoo(e, NP_INNER_CLOSE, Arguments.Collector([], [ABC, XYZ], 2))
    ensures Run(e, 5) == Completed(BAR)
  {
    LexerFacts.RawToken(NP_INNER_CLOSE, Lexing.DEFAULT_START, Lexing.DEFAULT_END);
    assert NP_INNER_CLOSE[1..] == NP_LAST;
    InnerParenJoins();
    var e1 := FeedsFrame(e, Lexing.Token(Lexing.Raw, [RPAREN]), NP_LAST, Arguments.Collector([ABC + XYZ], [], 1), 4);
    NestedLastName(e1);
  }

  /** `xyz` joins `abc` in the current argument. */
  lemma NestedInnerName(e: Engine)
    requires InFoo(e, NP_INNER_NAME, Arguments.Collector([], [ABC], 2))
    ensures Run(e, 6) == Completed(BAR)
  {
    NotBuiltin(XYZ);
    LexerFacts.IdentifierExact(XYZ, NP_INNER_CLOSE, Lexing.DEFAULT_START, Lexing.DEFAULT_END);
    Arguments.FeedEffect(Arguments.Collector([], [ABC], 2), XYZ);
    var e1 := FeedsFrame(e, Lexing.Token(Lexing.Identifier, XYZ), NP_INNER_CLOSE, Arguments.Collector([], [ABC, XYZ], 2), 5);
    NestedInnerClose(e1);
  }

  /** The inner `(` raises the depth and is not kept. */
  lemma NestedInnerOpen(e: Engine)
    requires InFoo(e, NP_INNER_OPEN, Arguments.Collector([], [ABC], 1))
    ensures Run(e, 7) == Completed(BAR)
  {
    LexerFacts.RawToken(NP_INNER_OPEN, Lexing.DEFAULT_START, Lexing.DEFAULT_END);
    assert NP_INNER_OPEN[1..] == NP_INNER_NAME;
    Arguments.FeedEffect(Arguments.Collector([], [ABC], 1), [LPAREN]);
    var e1 := FeedsFrame(e, Lexing.Token(Lexing.Raw, [LPAREN]), NP_INNER_NAME, Arguments.Collector([], [ABC], 2), 6);
    NestedInnerName(e1);
  }

  /** The first `abc` starts the call's first argument. */
  lemma NestedFirstName(e: Engine)
    requires InFoo(e, NP_ARGS, Arguments.Opened)
    ensures Run(e, 8) == Completed(BAR)
  {
    NotBuiltin(ABC);
    LexerFacts.IdentifierExact(ABC, NP_INNER_OPEN, Lexing.DEFAULT_START, Lexing.DEFAULT_END);
    NameCollected(Arguments.Opened, ABC);
    var e1 := FeedsFrame(e, Lexing.Token(Lexing.Identifier, ABC), NP_INNER_OPEN, Arguments.Collector([], [ABC], 1), 7);
    NestedInnerOpen(e1);
  }

  /** `foo(` has been read: one frame for `foo`, `args` pending. */
  function InsideFoo(args: seq<byte>): (e: Engine)
    ensures InFoo(e, args, Arguments.Opened)
  {
    Engine(Lexing.NewLexer(args), FooMacros(), Diversions.Start, [Call(User(BAR), Arguments.Opened)])
  }

  lemma FooOpens(args: seq<byte>, fuel: nat)
    ensures Run(DefineMacro(Start(FOO + [LPAREN] + args), FOO, BAR), fuel + 1) == Run(InsideFoo(args), fuel)
  {
    var e := DefineMacro(Start(FOO + [LPAREN] + args), FOO, BAR);
    ParserFacts.CallOpensFrame(e, FOO, args);
    assert Step(e) == Running(InsideFoo(args));
    ParserFacts.RunOnce(e, fuel);
  }

  /**
   * `Parser('foo(abc(xyz)abc)')` with `foo` defined as `bar` writes `bar`: the inner
   * parentheses stay inside the call's arguments.
   */
  lemma MacroArgsNestedParens()
    ensures Run(DefineMacro(Start(FOO + [LPAREN] + NP_ARGS), FOO, BAR), 9) == Completed(BAR)
  {
    FooOpens(NP_ARGS, 8);
    NestedFirstName(InsideFoo(NP_ARGS));
  }

  // ----- dnl -----

  const X: byte := 120

  /**
   * `dnl` on `x`, a newline and a lone backtick drops the first line and leaves the
   * backtick, although the whole input does not lex.
   */
  lemma DnlStopsAtNewline()
    ensures var lx := Lexing.NewLexer([X, NEWLINE, BACKTICK]);
      Lexing.Tokenize(lx.input, lx.startQuote, lx.endQuote) == None
      && SkipLine(lx) == Some(lx.(input := [BACKTICK]))
  {
    var lx := Lexing.NewLexer([X, NEWLINE, BACKTICK]);
    var sq := Lexing.DEFAULT_START;
    var eq := Lexing.DEFAULT_END;
    var t0 := Lexing.Token(Lexing.Identifier, [X]);
    var t1 := Lexing.Token(Lexing.Raw, [NEWLINE]);
    LexerFacts.IdentifierExact([X], [NEWLINE], sq, eq);
    LexerFacts.RawToken([NEWLINE], sq, eq);
    assert [NEWLINE][1..] == [];
    TokenizeCons([NEWLINE], sq, eq, t1, [], []);
    assert [t1] + [] == [t1];
    assert [X] + [NEWLINE] == [X, NEWLINE];
    TokenizeCons([X, NEWLINE], sq, eq, t0, [NEWLINE], [t1]);
    var ts := [t0] + [t1];
    assert ts[1..] == [t1] && [t1][1..] == [];
    assert ParserFacts.LineEnd(ts) == 1;
    assert lx.input == [X, NEWLINE] + [BACKTICK];
    ParserFacts.SkipLineThroughNewline(lx, [X, NEWLINE], [BACKTICK], ts);
    DnlInputUnlexed();
  }

  lemma DnlInputUnlexed()
    ensures Lexing.Tokenize([X, NEWLINE, BACKTICK], Lexing.DEFAULT_START, Lexing.DEFAULT_END) == None
  {
    var sq := Lexing.DEFAULT_START;
    var eq := Lexing.DEFAULT_END;
    LexerFacts.UnterminatedString([], BACKTICK, APOSTROPHE);
    assert [BACKTICK] + [] == [BACKTICK];
    assert Lexing.Tokenize([BACKTICK], sq, eq) == None;
    LexerFacts.RawToken([NEWLINE, BACKTICK], sq, eq);
    assert [NEWLINE, BACKTICK][1..] == [BACKTICK];
    assert Lexing.Tokenize([NEWLINE, BACKTICK], sq, eq) == None;
    LexerFacts.IdentifierExact([X], [NEWLINE, BACKTICK], sq, eq);
    assert [X] + [NEWLINE, BACKTICK] == [X, NEWLINE, BACKTICK];
  }

  // ----- quotes -----

  const NESTED_BODY: seq<byte> := ABC + [SPACE, BACKTICK] + XYZ + [APOSTROPHE, SPACE] + ABC

  lemma NestedBodyBalanced()
    ensures LexerFacts.Nested(NESTED_BODY, BACKTICK, APOSTROPHE)
  {
    LexerFacts.PlainNested(XYZ, BACKTICK, APOSTROPHE);
    assert NESTED_BODY == (ABC + [SPACE]) + [BACKTICK] + XYZ + [APOSTROPHE] + ([SPACE] + ABC);
    LexerFacts.NestedQuoted(ABC + [SPACE], XYZ, [SPACE] + ABC, BACKTICK, APOSTROPHE);
  }

  /** The nested quotes of `` `abc `xyz' abc' `` stay in the one string token. */
  lemma NestedQuotes()
    ensures Lexing.NextToken([BACKTICK] + NESTED_BODY + [APOSTROPHE], Lexing.DEFAULT_START, Lexing.DEFAULT_END)
        == Lexing.Tok(Lexing.Token(Lexing.String, NESTED_BODY), [])
  {
    NestedBodyBalanced();
    assert [BACKTICK] + NESTED_BODY + [APOSTROPHE] + [] == [BACKTICK] + NESTED_BODY + [APOSTROPHE];
    LexerFacts.StringToken(NESTED_BODY, [], BACKTICK, APOSTROPHE);
  }

  const UNBALANCED_BODY: seq<byte> := [BACKTICK] + A + [APOSTROPHE]

  /** In `` ``a' `` the end quote closes only the inner string, so lexing fails at the end of input. */
  lemma UnbalancedQuotes()
    ensures Lexing.NextToken([BACKTICK] + UNBALANCED_BODY, Lexing.DEFAULT_START, Lexing.DEFAULT_END) == Lexing.Unterminated
  {
    var body := UNBALANCED_BODY;
    forall i | 0 <= i < |body| && body[i] == APOSTROPHE
      ensures !LexerFacts.Nested(body[..i], BACKTICK, APOSTROPHE)
    {
      assert i == 2 && body[..i] == [BACKTICK] + A;
      var p := [BACKTICK] + A;
      assert p[..1] == [BACKTICK] && [BACKTICK][..0] == [] && p[1] == 97;
      assert LexerFacts.Depth([BACKTICK], BACKTICK, APOSTROPHE) == 1;
      assert LexerFacts.Depth(p, BACKTICK, APOSTROPHE) == 1;
    }
    LexerFacts.UnbalancedString(body, BACKTICK, APOSTROPHE);
  }

  const QUOTED: seq<byte> := [OPEN_BRACKET] + XYZ + [CLOSE_BRACKET]
  const AFTER_NAME: seq<byte> := [APOSTROPHE] + QUOTED
  const BRACKETED: seq<byte> := [BACKTICK] + ABC + AFTER_NAME

  /** The tokens of `` `abc'[xyz] `` under the quotes `[` and `]`. */
  function BracketTokens(): seq<Lexing.Token> {
    [Lexing.Token(Lexing.Raw, [BACKTICK]), Lexing.Token(Lexing.Identifier, ABC),
     Lexing.Token(Lexing.Raw, [APOSTROPHE]), Lexing.Token(Lexing.String, XYZ)]
  }

  lemma BracketQuoteToken()
    ensures Lexing.Tokenize(QUOTED, [OPEN_BRACKET], [CLOSE_BRACKET]) == Some([Lexing.Token(Lexing.String, XYZ)])
  {
    LexerFacts.PlainNested(XYZ, OPEN_BRACKET, CLOSE_BRACKET);
    LexerFacts.StringToken(XYZ, [], OPEN_BRACKET, CLOSE_BRACKET);
    assert QUOTED + [] == QUOTED;
    TokenizeCons(QUOTED, [OPEN_BRACKET], [CLOSE_BRACKET], Lexing.Token(Lexing.String, XYZ), [], []);
    assert [Lexing.Token(Lexing.String, XYZ)] + [] == [Lexing.Token(Lexing.String, XYZ)];
  }

  lemma BracketTokenize()
    ensures Lexing.Tokenize(BRACKETED, [OPEN_BRACKET], [CLOSE_BRACKET]) == Some(BracketTokens())
  {
    var sq := [OPEN_BRACKET];
    var eq := [CLOSE_BRACKET];
    var ts := BracketTokens();
    BracketQuoteToken();
    LexerFacts.RawToken(AFTER_NAME, sq, eq);
    assert AFTER_NAME[1..] == QUOTED;
    assert ts[3..] == [Lexing.Token(Lexing.String, XYZ)];
    TokenizeCons(AFTER_NAME, sq, eq, ts[2], QUOTED, ts[3..]);
    assert [ts[0]] + ts[1..] == ts && [ts[1]] + ts[2..] == ts[1..] && [ts[2]] + ts[3..] == ts[2..];
    LexerFacts.IdentifierExact(ABC, AFTER_NAME, sq, eq);
    TokenizeCons(ABC + AFTER_NAME, sq, eq, ts[1], AFTER_NAME, ts[2..]);
    LexerFacts.RawToken(BRACKETED, sq, eq);
    assert BRACKETED[1..] == ABC + AFTER_NAME;
    TokenizeCons(BRACKETED, sq, eq, ts[0], ABC + AFTER_NAME, ts[1..]);
  }

  lemma BracketValues()
    ensures ParserFacts.Values(BracketTokens()) == [BACKTICK] + ABC + [APOSTROPHE] + XYZ
  {
    var ts := BracketTokens();
    ValuesCons(ts[3], []);
    ValuesCons(ts[2], ts[3..]);
    ValuesCons(ts[1], ts[2..]);
    ValuesCons(ts[0], ts[1..]);
    assert [ts[3]] + [] == ts[3..] && [ts[0]] + ts[1..] == ts && [ts[1]] + ts[2..] == ts[1..] && [ts[2]] + ts[3..] == ts[2..];
  }

  /**
   * ``Parser("`abc'[xyz]")`` after `changequote('[', ']')` writes `` `abc'xyz ``: the old
   * quotes are plain bytes and the new ones are stripped.
   */
  lemma ChangedQuotes()
    ensures var e := Start(BRACKETED);
      Run(e.(lexer := Lexing.Changequote(e.lexer, [OPEN_BRACKET], [CLOSE_BRACKET])), 5)
        == Completed([BACKTICK] + ABC + [APOSTROPHE] + XYZ)
  {
    var e0 := Start(BRACKETED);
    var e := e0.(lexer := Lexing.Changequote(e0.lexer, [OPEN_BRACKET], [CLOSE_BRACKET]));
    BracketTokenize();
    BracketValues();
    WritesTokens(e, BracketTokens());
  }

  // ----- diversions -----

  /** Writes to diversion 2, then 1, then -1, then 0. */
  function FourWrites(a: seq<byte>, b: seq<byte>, c: seq<byte>, d: seq<byte>): Diversions.Sink {
    var s1 := Diversions.Write(Diversions.Divert(Diversions.Start, 2), b);
    var s2 := Diversions.Write(Diversions.Divert(s1, 1), a);
    var s3 := Diversions.Write(Diversions.Divert(s2, -1), d);
    Diversions.Write(Diversions.Divert(s3, 0), c)
  }

  lemma FourWritesHeld(a: seq<byte>, b: seq<byte>, c: seq<byte>, d: seq<byte>)
    ensures FourWrites(a, b, c, d) == Diversions.Sink(c, 0, map[2 := b, 1 := a])
  {
    assert [] + a == a && [] + b == b && [] + c == c;
  }

  lemma FlushOneTwo(a: seq<byte>, b: seq<byte>)
    ensures Diversions.Flush(map[2 := b, 1 := a]) == a + b
  {
    var m := map[2 := b, 1 := a];
    assert Diversions.Positive(m) == {1, 2};
    assert Diversions.Increasing([1, 2]);
    Diversions.IncreasingUnique(Diversions.SortedKeys({1, 2}), [1, 2]);
    assert Diversions.Held(m, 1) == a && Diversions.Held(m, 2) == b;
    assert [1, 2][1..] == [2] && [2][1..] == [];
    assert Diversions.Concat(m, [2]) == b + [];
    assert b + [] == b;
  }

  /**
   * Text written to diversion 2, then 1, then -1, then 0 comes out as the diversion 0 text,
   * then diversion 1's, then diversion 2's; the text sent to -1 is gone.
   */
  lemma DiversionOrder(a: seq<byte>, b: seq<byte>, c: seq<byte>, d: seq<byte>)
    ensures Diversions.FinalOutput(FourWrites(a, b, c, d)) == c + a + b
  {
    FourWritesHeld(a, b, c, d);
    FlushOneTwo(a, b);
  }
}
