/** Properties of the expansion engine: single steps, whole runs, and the builtins. */
module ParserFacts {
  import opened Bytes
  import opened Parser
  import Lexing
  import LexerFacts
  import Arguments
  import Diversions
  import Integers

  // ----- single steps -----

  /** A name the lexer reads as one identifier. */
  predicate IsName(name: seq<byte>) {
    name != [] && IsIdentStart(name[0]) && LexerFacts.AllIdentChars(name)
  }

  /** What may follow a macro name for it to be called without arguments. */
  predicate NoArgumentsFollow(rest: seq<byte>) {
    rest == [] || (!IsIdentChar(rest[0]) && rest[0] != LPAREN)
  }

  /** The lexer reads `name` as one identifier token and stops in front of `rest`. */
  lemma NameIsNextToken(lx: Lexing.Lexer, name: seq<byte>, rest: seq<byte>)
    requires !lx.finished && lx.input == name + rest && IsName(name) && lx.startQuote != [name[0]]
    requires rest == [] || !IsIdentChar(rest[0])
    ensures Lexing.Next(lx) == Lexing.Got(Lexing.Token(Lexing.Identifier, name), lx.(input := rest))
  {
    LexerFacts.IdentifierExact(name, rest, lx.startQuote, lx.endQuote);
  }

  /**
   * A macro name not followed by `(` calls the macro at once with no arguments; nothing
   * after the name is consumed.
   */
  lemma CallWithoutArguments(e: Engine, name: seq<byte>, rest: seq<byte>)
    requires !e.lexer.finished && e.lexer.input == name + rest && IsName(name) && e.lexer.startQuote != [name[0]]
    requires NoArgumentsFollow(rest) && name in e.macros
    ensures Step(e) == Lift(Invoke(e.macros[name], [], e.(lexer := e.lexer.(input := rest))))
  {
    NameIsNextToken(e.lexer, name, rest);
    assert Lexing.PeekChar(e.lexer.(input := rest)) != Cursor.Byte(LPAREN);
  }

  /**
   * A user macro's body is spliced in front of the rest of the input, to be lexed (and
   * possibly expanded) again.
   */
  lemma UserMacroSplices(e: Engine, name: seq<byte>, rest: seq<byte>)
    requires !e.lexer.finished && e.lexer.input == name + rest && IsName(name) && e.lexer.startQuote != [name[0]]
    requires NoArgumentsFollow(rest) && name in e.macros && e.macros[name].User?
    ensures Step(e) == Running(e.(lexer := e.lexer.(input := e.macros[name].body + rest)))
  {
    CallWithoutArguments(e, name, rest);
  }

  /**
   * A macro name followed by `(` opens an argument frame holding the definition in force
   * when the name was read; the parenthesis is consumed.
   */
  lemma CallOpensFrame(e: Engine, name: seq<byte>, rest: seq<byte>)
    requires !e.lexer.finished && e.lexer.input == name + [LPAREN] + rest && IsName(name)
    requires e.lexer.startQuote != [name[0]] && e.lexer.startQuote != [LPAREN] && name in e.macros
    ensures Step(e) == Running(e.(lexer := e.lexer.(input := rest), calls := e.calls + [Call(e.macros[name], Arguments.Opened)]))
  {
    assert name + [LPAREN] + rest == name + ([LPAREN] + rest);
    NameIsNextToken(e.lexer, name, [LPAREN] + rest);
    var lx := e.lexer.(input := [LPAREN] + rest);
    LexerFacts.RawToken(lx.input, lx.startQuote, lx.endQuote);
    assert lx.input[1..] == rest;
  }

  /** With no frame open, a token that is not a macro call goes to the current diversion. */
  lemma PlainTokenWritten(e: Engine)
    requires e.calls == [] && Lexing.Next(e.lexer).Got? && !Expands(Lexing.Next(e.lexer).token, e.macros)
    ensures Step(e) ==
      Running(e.(lexer := Lexing.Next(e.lexer).lexer, sink := Diversions.Write(e.sink, Lexing.Next(e.lexer).token.value)))
  {
  }

  /**
   * At the end of the token stream the innermost open frame's macro is called with the
   * arguments closed so far; the unfinished argument is dropped.
   */
  lemma EndOfInputInsideArguments(e: Engine)
    requires e.calls != [] && Lexing.Next(e.lexer).Exhausted?
    ensures var top := e.calls[|e.calls| - 1];
      Step(e) == Lift(Invoke(top.macro, top.collector.args,
        e.(lexer := e.lexer.(finished := true), calls := e.calls[..|e.calls| - 1])))
  {
  }

  lemma FeedKeepsDepth(c: Arguments.Collector, v: seq<byte>)
    requires c.depth >= 1
    ensures Arguments.Feed(c, v).Open? ==> Arguments.Feed(c, v).collector.depth >= 1
  {
    Arguments.FeedEffect(c, v);
  }

  lemma DeliverKeepsValid(v: seq<byte>, e: Engine)
    requires Valid(e)
    ensures Deliver(v, e).Ok? ==> Valid(Deliver(v, e).engine)
  {
    if e.calls != [] {
      var top := e.calls[|e.calls| - 1];
      var below := e.calls[..|e.calls| - 1];
      assert top.collector.depth >= 1;
      FeedKeepsDepth(top.collector, v);
      match Arguments.Feed(top.collector, v)
      case Open(c) =>
        var calls := below + [top.(collector := c)];
        assert forall i :: 0 <= i < |below| ==> below[i] == e.calls[i];
        assert forall i :: 0 <= i < |calls| ==> calls[i].collector.depth >= 1 by {
          forall i | 0 <= i < |calls| ensures calls[i].collector.depth >= 1 {
            if i < |below| {
              assert calls[i] == e.calls[i];
            }
          }
        }
      case Closed(args) =>
        assert forall i :: 0 <= i < |below| ==> below[i] == e.calls[i];
    }
  }

  /** Every open frame stays inside at least one unclosed parenthesis. */
  lemma StepKeepsValid(e: Engine)
    requires Valid(e)
    ensures Step(e).Running? ==> Valid(Step(e).engine)
  {
    match Lexing.Next(e.lexer)
    case Failed =>
    case Exhausted(lx) =>
      if e.calls != [] {
        var below := e.calls[..|e.calls| - 1];
        assert forall i :: 0 <= i < |below| ==> below[i] == e.calls[i];
      }
    case Got(t, lx) =>
      var e1 := e.(lexer := lx);
      if !Expands(t, e.macros) {
        DeliverKeepsValid(t.value, e1);
      } else {
        var m := e.macros[t.value];
        var calls := e.calls + [Call(m, Arguments.Opened)];
        assert forall i :: 0 <= i < |calls| ==> calls[i].collector.depth >= 1 by {
          forall i | 0 <= i < |calls| ensures calls[i].collector.depth >= 1 {
            if i < |e.calls| {
              assert calls[i] == e.calls[i];
            }
          }
        }
      }
  }

  /** Text once written to the output stream stays written. */
  lemma StepExtendsOutput(e: Engine)
    ensures Step(e).Running? ==> e.sink.output <= Step(e).engine.sink.output
    ensures Step(e).Drained? ==> Step(e).engine.sink == e.sink
  {
    match Lexing.Next(e.lexer)
    case Failed =>
    case Exhausted(lx) =>
    case Got(t, lx) =>
      if !Expands(t, e.macros) && e.calls == [] {
        var s := e.sink;
        if s.current == 0 {
          assert s.output <= s.output + t.value;
        }
      }
  }

  // ----- whole runs -----

  /** A run's output starts with whatever had been written when it started. */
  lemma {:induction false} RunExtendsOutput(e: Engine, fuel: nat)
    ensures e.sink.output <= Run(e, fuel).output
    decreases fuel
  {
    if fuel > 0 {
      var s := Step(e);
      StepExtendsOutput(e);
      if s.Running? {
        RunExtendsOutput(s.engine, fuel - 1);
      } else if s.Drained? {
        assert Diversions.Finish(s.engine.sink).output == s.engine.sink.output + Diversions.Flush(s.engine.sink.buffers);
      }
    }
  }

  /** More fuel changes nothing once a run has finished or failed. */
  lemma {:induction false} MoreFuelSameOutcome(e: Engine, fuel: nat, more: nat)
    requires fuel <= more && !Run(e, fuel).OutOfFuel?
    ensures Run(e, more) == Run(e, fuel)
    decreases fuel
  {
    RunTakesAStep(e, fuel);
    RunTakesAStep(e, more);
    var s := Step(e);
    if s.Running? {
      MoreFuelSameOutcome(s.engine, fuel - 1, more - 1);
    }
  }

  /** A run that did not run out of fuel had fuel for its first step. */
  lemma RunTakesAStep(e: Engine, fuel: nat)
    requires !Run(e, fuel).OutOfFuel? || fuel > 0
    ensures fuel > 0 && Run(e, fuel) == After(Step(e), e, fuel - 1)
  {
  }

  /** An engine that steps to itself runs out of fuel however much it is given. */
  lemma {:induction false} FixedPointNeverFinishes(e: Engine, fuel: nat)
    requires Step(e) == Running(e)
    ensures Run(e, fuel) == OutOfFuel(e.sink.output)
    decreases fuel
  {
    if fuel > 0 {
      FixedPointNeverFinishes(e, fuel - 1);
    }
  }

  /** A macro whose body is its own name (`define(a,a)a`) expands forever. */
  lemma SelfReferenceNeverFinishes(e: Engine, name: seq<byte>, rest: seq<byte>, fuel: nat)
    requires !e.lexer.finished && e.lexer.input == name + rest && IsName(name) && e.lexer.startQuote != [name[0]]
    requires NoArgumentsFollow(rest) && name in e.macros && e.macros[name] == User(name)
    ensures Run(e, fuel) == OutOfFuel(e.sink.output)
  {
    UserMacroSplices(e, name, rest);
    assert e.(lexer := e.lexer.(input := name + rest)) == e;
    FixedPointNeverFinishes(e, fuel);
  }

  /** The values of a token sequence, concatenated: what the tokens write when none expands. */
  function Values(ts: seq<Lexing.Token>): seq<byte> {
    if ts == [] then [] else ts[0].value + Values(ts[1..])
  }

  predicate NoCalls(ts: seq<Lexing.Token>, macros: Macros) {
    forall i :: 0 <= i < |ts| ==> !Expands(ts[i], macros)
  }

  lemma TokenizeFirst(input: seq<byte>, sq: seq<byte>, eq: seq<byte>, ts: seq<Lexing.Token>)
    requires Lexing.Tokenize(input, sq, eq) == Some(ts)
    ensures ts == [] <==> input == []
    ensures ts != [] ==>
      Lexing.NextToken(input, sq, eq).Tok? && Lexing.NextToken(input, sq, eq).token == ts[0]
      && Lexing.Tokenize(Lexing.NextToken(input, sq, eq).rest, sq, eq) == Some(ts[1..])
  {
  }

  /** The lexer object hands out the tokens `Tokenize` lists, in order. */
  lemma NextFollowsTokenize(lx: Lexing.Lexer, ts: seq<Lexing.Token>)
    requires !lx.finished && Lexing.Tokenize(lx.input, lx.startQuote, lx.endQuote) == Some(ts)
    ensures ts == [] ==> Lexing.Next(lx) == Lexing.Exhausted(lx.(finished := true))
    ensures ts != [] ==>
      Lexing.Next(lx).Got? && Lexing.Next(lx).token == ts[0] && !Lexing.Next(lx).lexer.finished
      && Lexing.Next(lx).lexer == lx.(input := Lexing.Next(lx).lexer.input)
      && Lexing.Tokenize(Lexing.Next(lx).lexer.input, lx.startQuote, lx.endQuote) == Some(ts[1..])
  {
    TokenizeFirst(lx.input, lx.startQuote, lx.endQuote, ts);
  }

  /** A run whose first step continues goes on from the stepped engine with one less step. */
  lemma RunOnce(e: Engine, fuel: nat)
    requires Step(e).Running?
    ensures Run(e, fuel + 1) == Run(Step(e).engine, fuel)
  {
  }

  /** A run whose first step drains the input writes the sink's final output. */
  lemma RunDrains(e: Engine, fuel: nat)
    requires Step(e).Drained?
    ensures Run(e, fuel + 1) == Completed(Diversions.FinalOutput(e.sink))
  {
  }

  /** One pass-through step: the first token is written and the run goes on from the rest. */
  lemma PassThroughStep(e: Engine, ts: seq<Lexing.Token>, fuel: nat) returns (e1: Engine)
    requires e.calls == [] && !e.lexer.finished && ts != []
    requires Lexing.Tokenize(e.lexer.input, e.lexer.startQuote, e.lexer.endQuote) == Some(ts)
    requires !Expands(ts[0], e.macros)
    ensures Run(e, fuel + 1) == Run(e1, fuel)
    ensures e1.calls == [] && !e1.lexer.finished && e1.sink.current == e.sink.current && e1.macros == e.macros
    ensures e1.sink.output == (if e.sink.current == 0 then e.sink.output + ts[0].value else e.sink.output)
    ensures e.sink.current == 0 ==> e1.sink.buffers == e.sink.buffers
    ensures e1.lexer.startQuote == e.lexer.startQuote && e1.lexer.endQuote == e.lexer.endQuote
    ensures Lexing.Tokenize(e1.lexer.input, e1.lexer.startQuote, e1.lexer.endQuote) == Some(ts[1..])
  {
    NextFollowsTokenize(e.lexer, ts);
    PlainTokenWritten(e);
    e1 := Step(e).engine;
    RunOnce(e, fuel);
  }

  lemma NoCallsTail(ts: seq<Lexing.Token>, macros: Macros)
    requires ts != [] && NoCalls(ts, macros)
    ensures !Expands(ts[0], macros) && NoCalls(ts[1..], macros)
  {
    forall i | 0 <= i < |ts[1..]| ensures !Expands(ts[1..][i], macros) {
      assert ts[1..][i] == ts[i + 1];
    }
  }

  /** A drained first step completes the run with the sink's final output. */
  lemma PassThroughEnd(e: Engine, ts: seq<Lexing.Token>)
    requires e.calls == [] && !e.lexer.finished
    requires Lexing.Tokenize(e.lexer.input, e.lexer.startQuote, e.lexer.endQuote) == Some(ts)
    requires ts == []
    ensures Run(e, 1) == Completed(e.sink.output + Diversions.Flush(e.sink.buffers))
  {
    NextFollowsTokenize(e.lexer, ts);
    RunDrains(e, 0);
  }

  /**
   * With no frame open and the output stream current, input whose tokens contain no macro
   * call is written token by token (strings without their quotes), then the diversions.
   */
  lemma {:induction false} PassThrough(e: Engine, ts: seq<Lexing.Token>)
    requires e.calls == [] && !e.lexer.finished && e.sink.current == 0
    requires Lexing.Tokenize(e.lexer.input, e.lexer.startQuote, e.lexer.endQuote) == Some(ts)
    requires NoCalls(ts, e.macros)
    ensures Run(e, |ts| + 1) == Completed(e.sink.output + Values(ts) + Diversions.Flush(e.sink.buffers))
    decreases |ts|, 1
  {
    if ts == [] {
      PassThroughEnd(e, ts);
      assert |ts| + 1 == 1 && e.sink.output + Values(ts) == e.sink.output;
    } else {
      PassThroughCons(e, ts);
    }
  }

  lemma {:induction false} PassThroughCons(e: Engine, ts: seq<Lexing.Token>)
    requires e.calls == [] && !e.lexer.finished && e.sink.current == 0 && ts != []
    requires Lexing.Tokenize(e.lexer.input, e.lexer.startQuote, e.lexer.endQuote) == Some(ts)
    requires NoCalls(ts, e.macros)
    ensures Run(e, |ts| + 1) == Completed(e.sink.output + Values(ts) + Diversions.Flush(e.sink.buffers))
    decreases |ts|, 0
  {
    NoCallsTail(ts, e.macros);
    var e1 := PassThroughStep(e, ts, |ts|);
    assert e1.sink.output == e.sink.output + ts[0].value && e1.sink.buffers == e.sink.buffers;
    assert e1.sink.current == 0 && |ts[1..]| + 1 == |ts|;
    PassThrough(e1, ts[1..]);
    assert Values(ts) == ts[0].value + Values(ts[1..]);
    assert e1.sink.output + Values(ts[1..]) == e.sink.output + Values(ts);
  }

  lemma FlushNothing()
    ensures Diversions.Flush(map[]) == []
  {
    assert Diversions.Positive(map[]) == {};
  }

  lemma {:induction false} ValuesAreSurfaces(ts: seq<Lexing.Token>, sq: seq<byte>, eq: seq<byte>)
    requires forall i :: 0 <= i < |ts| ==> ts[i].kind != Lexing.String
    ensures Values(ts) == LexerFacts.Surfaces(ts, sq, eq)
    decreases |ts|
  {
    if ts != [] {
      assert forall i :: 0 <= i < |ts[1..]| ==> ts[1..][i] == ts[i + 1];
      ValuesAreSurfaces(ts[1..], sq, eq);
    }
  }

  /** Text with no quoted strings and no macro calls comes out exactly as it went in. */
  lemma PlainTextUnchanged(text: seq<byte>)
    requires Lexing.Tokenize(text, Lexing.DEFAULT_START, Lexing.DEFAULT_END).Some?
    requires var ts := Lexing.Tokenize(text, Lexing.DEFAULT_START, Lexing.DEFAULT_END).value;
      NoCalls(ts, Builtins()) && forall i :: 0 <= i < |ts| ==> ts[i].kind != Lexing.String
    ensures Process(text, |Lexing.Tokenize(text, Lexing.DEFAULT_START, Lexing.DEFAULT_END).value| + 1) == Completed(text)
  {
    var ts := Lexing.Tokenize(text, Lexing.DEFAULT_START, Lexing.DEFAULT_END).value;
    var e := Start(text);
    assert e.sink == Diversions.Start && e.lexer == Lexing.NewLexer(text) && e.macros == Builtins();
    PassThrough(e, ts);
    FlushNothing();
    assert e.sink.output + Values(ts) + Diversions.Flush(e.sink.buffers) == Values(ts);
    ValuesAreSurfaces(ts, Lexing.DEFAULT_START, Lexing.DEFAULT_END);
    LexerFacts.TokenizeRoundTrip(text, BACKTICK, APOSTROPHE);
  }

  // ----- the builtins -----

  /** The index of the first token whose value is a newline, or the number of tokens. */
  function LineEnd(ts: seq<Lexing.Token>): (k: nat)
    ensures k <= |ts|
    ensures forall i :: 0 <= i < k ==> ts[i].value != [NEWLINE]
    ensures k < |ts| ==> ts[k].value == [NEWLINE]
  {
    if ts == [] then 0
    else if ts[0].value == [NEWLINE] then 0
    else
      var k := LineEnd(ts[1..]);
      assert forall i :: 1 <= i < k + 1 ==> ts[i] == ts[1..][i - 1];
      k + 1
  }

  /** One token of `dnl`'s skipping: the lexer moves past the first token of the listing. */
  lemma SkipLineStep(lx: Lexing.Lexer, ts: seq<Lexing.Token>) returns (lx1: Lexing.Lexer)
    requires !lx.finished && Lexing.Tokenize(lx.input, lx.startQuote, lx.endQuote) == Some(ts)
    requires ts != []
    ensures SkipLine(lx) == (if ts[0].value == [NEWLINE] then Some(lx1) else SkipLine(lx1))
    ensures !lx1.finished && lx1.startQuote == lx.startQuote && lx1.endQuote == lx.endQuote
    ensures Lexing.Tokenize(lx1.input, lx.startQuote, lx.endQuote) == Some(ts[1..])
  {
    NextFollowsTokenize(lx, ts);
    lx1 := Lexing.Next(lx).lexer;
  }

  /** At the end of the listing `dnl` leaves a finished lexer with nothing pending. */
  lemma SkipLineEnd(lx: Lexing.Lexer)
    requires !lx.finished && Lexing.Tokenize(lx.input, lx.startQuote, lx.endQuote) == Some([])
    ensures SkipLine(lx) == Some(lx.(finished := true)) && lx.input == []
  {
    NextFollowsTokenize(lx, []);
  }

  lemma LineEndTail(ts: seq<Lexing.Token>)
    requires ts != [] && ts[0].value != [NEWLINE]
    ensures LineEnd(ts) == LineEnd(ts[1..]) + 1
    ensures LineEnd(ts[1..]) < |ts[1..]| ==> ts[1..][LineEnd(ts[1..]) + 1..] == ts[LineEnd(ts) + 1..]
  {
  }

  /**
   * `dnl` drops exactly the tokens up to and including the first newline token; without
   * one it drops everything and the token stream ends.
   */
  lemma {:induction false} SkipLineFollowsTokens(lx: Lexing.Lexer, ts: seq<Lexing.Token>) returns (r: Lexing.Lexer)
    requires !lx.finished && Lexing.Tokenize(lx.input, lx.startQuote, lx.endQuote) == Some(ts)
    ensures SkipLine(lx) == Some(r)
    ensures LineEnd(ts) < |ts| ==>
      !r.finished && Lexing.Tokenize(r.input, lx.startQuote, lx.endQuote) == Some(ts[LineEnd(ts) + 1..])
    ensures LineEnd(ts) == |ts| ==> r.input == [] && r.finished
    decreases |ts|
  {
    if ts == [] {
      SkipLineEnd(lx);
      r := lx.(finished := true);
    } else {
      var lx1 := SkipLineStep(lx, ts);
      if ts[0].value != [NEWLINE] {
        r := SkipLineFollowsTokens(lx1, ts[1..]);
        LineEndTail(ts);
      } else {
        r := lx1;
      }
    }
  }

  /**
   * `dnl` reads no further than the first newline token: when the input starts with text
   * whose tokens end at their first newline, exactly that text is dropped, whatever follows
   * it (an unclosed quote, say).
   */
  lemma {:induction false} SkipLineThroughNewline(lx: Lexing.Lexer, pre: seq<byte>, post: seq<byte>, ts: seq<Lexing.Token>)
    requires !lx.finished && lx.input == pre + post
    requires Lexing.Tokenize(pre, lx.startQuote, lx.endQuote) == Some(ts)
    requires ts != [] && LineEnd(ts) == |ts| - 1
    ensures SkipLine(lx) == Some(lx.(input := post))
    decreases |ts|
  {
    var sq := lx.startQuote;
    var eq := lx.endQuote;
    TokenizeFirst(pre, sq, eq, ts);
    var r := Lexing.NextToken(pre, sq, eq);
    TokenizeFirst(r.rest, sq, eq, ts[1..]);
    if ts[0].value == [NEWLINE] {
      LexerFacts.NewlineTokenKind(pre, sq, eq);
      LexerFacts.NextTokenExtends(pre, post, sq, eq);
      assert LineEnd(ts) == 0 && |ts| == 1 && ts[1..] == [];
      assert r.rest == [] && r.rest + post == post;
      assert Lexing.Next(lx) == Lexing.Got(ts[0], lx.(input := post));
    } else {
      LineEndTail(ts);
      LexerFacts.NextTokenExtends(pre, post, sq, eq);
      var lx1 := lx.(input := r.rest + post);
      assert Lexing.Next(lx) == Lexing.Got(ts[0], lx1);
      SkipLineThroughNewline(lx1, r.rest, post, ts[1..]);
    }
  }

  /** `define(name, body)` followed by `name`: the body takes the name's place. */
  lemma DefinedMacroExpands(e: Engine, name: seq<byte>, body: seq<byte>, more: seq<seq<byte>>, rest: seq<byte>)
    requires !e.lexer.finished && e.lexer.input == name + rest && IsName(name) && e.lexer.startQuote != [name[0]]
    requires NoArgumentsFollow(rest)
    ensures var d := Invoke(Builtin(Define), [name, body] + more, e);
      d.Ok? && Step(d.engine) == Running(d.engine.(lexer := e.lexer.(input := body + rest)))
  {
    var d := Invoke(Builtin(Define), [name, body] + more, e);
    assert ([name, body] + more)[0] == name && ([name, body] + more)[1] == body;
    UserMacroSplices(d.engine, name, rest);
  }

  /** `define(name)` defines `name` to expand to nothing. */
  lemma DefineWithoutBody(e: Engine, name: seq<byte>)
    ensures var d := Invoke(Builtin(Define), [name], e);
      d.Ok? && d.engine.macros[name] == User([])
  {
  }

  /** `divert(n)`, with whitespace around the number allowed, makes `n` the current diversion. */
  lemma DivertToNumber(e: Engine, pre: seq<byte>, n: int, post: seq<byte>, more: seq<seq<byte>>)
    requires forall i :: 0 <= i < |pre| ==> IsSpaceByte(pre[i])
    requires forall i :: 0 <= i < |post| ==> IsSpaceByte(post[i])
    ensures Invoke(Builtin(Divert), [pre + Integers.Decimal(n) + post] + more, e) == Ok(e.(sink := e.sink.(current := n)))
  {
    Integers.PaddingIgnored(pre, n, post);
    assert ([pre + Integers.Decimal(n) + post] + more)[0] == pre + Integers.Decimal(n) + post;
  }

  /** `divert()` passes one empty argument, which is not a number: the diversion stays. */
  lemma DivertEmptyArgumentIgnored(e: Engine)
    ensures Invoke(Builtin(Divert), [[]], e) == Ok(e)
  {
    assert Integers.Strip([]) == [];
  }

  /**
   * After `changequote(q, e)` the new delimiters quote: a balanced `q ... e` is one string
   * token whose value is the text between them.
   */
  lemma ChangedQuotesQuote(e: Engine, q: byte, c: byte, body: seq<byte>, rest: seq<byte>)
    requires q != c && LexerFacts.Nested(body, q, c) && !e.lexer.finished
    ensures var r := Invoke(Builtin(Changequote), [[q], [c]], e);
      r.Ok? &&
      Lexing.Next(r.engine.lexer.(input := [q] + body + [c] + rest)) ==
        Lexing.Got(Lexing.Token(Lexing.String, body), r.engine.lexer.(input := rest))
  {
    LexerFacts.StringToken(body, rest, q, c);
  }

  /** `changequote` with no arguments restores the default quotes. */
  lemma ChangequoteRestoresDefaults(e: Engine)
    ensures var r := Invoke(Builtin(Changequote), [], e);
      r.Ok? && r.engine.lexer.startQuote == [BACKTICK] && r.engine.lexer.endQuote == [APOSTROPHE]
  {
  }
}
