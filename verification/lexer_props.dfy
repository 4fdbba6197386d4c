/**
 * What the lexer promises: maximal-munch identifiers, one-byte raw tokens, comments up to
 * the newline, nested strings with distinct delimiters, the first closing delimiter with
 * equal ones, failure on unterminated strings, and that a token stream reproduces its input
 * once the stripped delimiters are put back.
 */
module LexerFacts {
  import opened Bytes
  import opened Lexing
  import Cursor

  predicate AllIdentChars(s: seq<byte>) {
    forall i :: 0 <= i < |s| ==> IsIdentChar(s[i])
  }

  /** The token kind a non-generic state is building. */
  function KindOf(st: LexState): Kind
    requires !st.Generic?
  {
    match st
    case InIdentifier(_) => Identifier
    case InComment(_) => Comment
    case InString(_, _) => String
  }

  lemma {:induction false} LexKind(st: LexState, input: seq<byte>, sq: seq<byte>, eq: seq<byte>)
    requires !st.Generic?
    ensures Lex(st, input, sq, eq).Tok? ==> Lex(st, input, sq, eq).token.kind == KindOf(st)
    decreases |input|
  {
    var s := StepChar(st, input, sq, eq);
    if s.Continue? {
      LexKind(s.state, s.rest, sq, eq);
    }
  }

  /**
   * The first byte decides the kind of the next token: the start quote opens a string even
   * when it is a letter or `#`; otherwise a letter or `_` starts an identifier, `#` a
   * comment, and anything else is a raw byte.
   */
  lemma FirstByteDecidesKind(input: seq<byte>, sq: seq<byte>, eq: seq<byte>)
    requires input != []
    ensures var r := NextToken(input, sq, eq);
      r.Tok? ==>
        (r.token.kind ==
          if sq == [input[0]] then String
          else if IsIdentStart(input[0]) then Identifier
          else if input[0] == HASH then Comment
          else Raw)
  {
    var s := StepChar(Generic, input, sq, eq);
    if s.Continue? {
      LexKind(s.state, s.rest, sq, eq);
    }
  }

  // ----- identifiers and raw bytes -----

  /** One state function that keeps lexing hands the rest of the work to the next state. */
  lemma LexContinues(st: LexState, input: seq<byte>, sq: seq<byte>, eq: seq<byte>)
    requires StepChar(st, input, sq, eq).Continue?
    ensures var s := StepChar(st, input, sq, eq);
      Lex(st, input, sq, eq) == Lex(s.state, s.rest, sq, eq)
  {
  }

  /** Moving the head of the input onto the buffer keeps their concatenation. */
  lemma ConsumeOne(chars: seq<byte>, input: seq<byte>)
    requires input != []
    ensures (chars + [input[0]]) + input[1..] == chars + input
  {
    assert input == [input[0]] + input[1..];
  }

  lemma {:induction false} IdentifierRun(chars: seq<byte>, input: seq<byte>, sq: seq<byte>, eq: seq<byte>)
    requires AllIdentChars(chars)
    ensures var r := Lex(InIdentifier(chars), input, sq, eq);
      && r.Tok? && r.token.kind == Identifier
      && r.token.value + r.rest == chars + input
      && AllIdentChars(r.token.value)
      && (r.rest == [] || !IsIdentChar(r.rest[0]))
    decreases |input|
  {
    if input == [] || !IsIdentChar(input[0]) {
      assert StepChar(InIdentifier(chars), input, sq, eq) == Emit(Token(Identifier, chars), input);
    } else {
      var grown := chars + [input[0]];
      ConsumeOne(chars, input);
      assert StepChar(InIdentifier(chars), input, sq, eq) == Continue(InIdentifier(grown), input[1..]);
      LexContinues(InIdentifier(chars), input, sq, eq);
      IdentifierRun(grown, input[1..], sq, eq);
    }
  }

  /**
   * A letter or `_` (that is not the start quote) begins one identifier token holding the
   * longest run of letters, digits and `_`; the byte that ends it is not consumed.
   */
  lemma IdentifierToken(input: seq<byte>, sq: seq<byte>, eq: seq<byte>)
    requires input != [] && IsIdentStart(input[0]) && sq != [input[0]]
    ensures var r := NextToken(input, sq, eq);
      && r.Tok? && r.token.kind == Identifier
      && r.token.value + r.rest == input
      && r.token.value != []
      && AllIdentChars(r.token.value)
      && (r.rest == [] || !IsIdentChar(r.rest[0]))
  {
    IdentifierRun([input[0]], input[1..], sq, eq);
    assert [input[0]] + input[1..] == input;
  }

  /** The maximal identifier is determined: a known identifier followed by a non-identifier byte. */
  lemma IdentifierExact(name: seq<byte>, rest: seq<byte>, sq: seq<byte>, eq: seq<byte>)
    requires name != [] && IsIdentStart(name[0]) && AllIdentChars(name) && sq != [name[0]]
    requires rest == [] || !IsIdentChar(rest[0])
    ensures NextToken(name + rest, sq, eq) == Tok(Token(Identifier, name), rest)
  {
    var input := name + rest;
    IdentifierToken(input, sq, eq);
    var r := NextToken(input, sq, eq);
    var v := r.token.value;
    if rest != [] {
      assert !IsIdentChar(input[|name|]);
    }
    assert forall i :: 0 <= i < |v| ==> IsIdentChar(input[i]);
    assert |v| <= |name|;
    if r.rest != [] {
      assert !IsIdentChar(input[|v|]);
    }
    assert forall i :: 0 <= i < |name| ==> IsIdentChar(input[i]);
    assert |v| >= |name|;
    assert v == input[..|v|];
    assert v == name;
  }

  /** Any other byte that is neither `#` nor the start quote is a raw token of its own. */
  lemma RawToken(input: seq<byte>, sq: seq<byte>, eq: seq<byte>)
    requires input != [] && !IsIdentStart(input[0]) && input[0] != HASH && sq != [input[0]]
    ensures NextToken(input, sq, eq) == Tok(Token(Raw, [input[0]]), input[1..])
  {
  }

  /** Conversely, a raw token is exactly the first byte of the input. */
  lemma RawTokenIsOneByte(input: seq<byte>, sq: seq<byte>, eq: seq<byte>)
    requires NextToken(input, sq, eq).Tok? && NextToken(input, sq, eq).token.kind == Raw
    ensures NextToken(input, sq, eq) == Tok(Token(Raw, [input[0]]), input[1..])
  {
    FirstByteDecidesKind(input, sq, eq);
  }

  // ----- comments -----

  lemma {:induction false} CommentRun(chars: seq<byte>, input: seq<byte>, sq: seq<byte>, eq: seq<byte>)
    requires NEWLINE !in chars
    ensures var r := Lex(InComment(chars), input, sq, eq);
      && r.Tok? && r.token.kind == Comment
      && r.token.value + r.rest == chars + input
      && NEWLINE !in r.token.value
      && (r.rest == [] || r.rest[0] == NEWLINE)
    decreases |input|
  {
    if input == [] || input[0] == NEWLINE {
      assert StepChar(InComment(chars), input, sq, eq) == Emit(Token(Comment, chars), input);
    } else {
      var grown := chars + [input[0]];
      ConsumeOne(chars, input);
      assert StepChar(InComment(chars), input, sq, eq) == Continue(InComment(grown), input[1..]);
      LexContinues(InComment(chars), input, sq, eq);
      CommentRun(grown, input[1..], sq, eq);
    }
  }

  /**
   * A comment runs from `#` up to, not including, the next newline or the end of input; its
   * value keeps the `#`, and the newline is left for the next token.
   */
  lemma CommentToken(input: seq<byte>, sq: seq<byte>, eq: seq<byte>)
    requires input != [] && input[0] == HASH && sq != [HASH]
    ensures var r := NextToken(input, sq, eq);
      && r.Tok? && r.token.kind == Comment
      && r.token.value + r.rest == input
      && r.token.value[0] == HASH
      && NEWLINE !in r.token.value
      && (r.rest == [] || r.rest[0] == NEWLINE)
  {
    CommentRun([HASH], input[1..], sq, eq);
    assert [HASH] + input[1..] == input;
    var r := NextToken(input, sq, eq);
    assert r.token.value[0] == ([HASH] + input[1..])[0];
  }

  /** The newline that ends a comment comes out next, as a raw token. */
  lemma NewlineAfterComment(input: seq<byte>, sq: seq<byte>, eq: seq<byte>)
    requires NextToken(input, sq, eq).Tok? && NextToken(input, sq, eq).token.kind == Comment
    requires NextToken(input, sq, eq).rest != [] && sq != [NEWLINE]
    ensures var rest := NextToken(input, sq, eq).rest;
      NextToken(rest, sq, eq) == Tok(Token(Raw, [NEWLINE]), rest[1..])
  {
    FirstByteDecidesKind(input, sq, eq);
    CommentToken(input, sq, eq);
  }

  // ----- strings with distinct delimiters -----

  /** Start quotes minus end quotes in `s`, counted from the left. */
  function Depth(s: seq<byte>, q: byte, e: byte): int {
    if s == [] then 0
    else Depth(s[..|s| - 1], q, e) + (if s[|s| - 1] == q then 1 else if s[|s| - 1] == e then -1 else 0)
  }

  /** The depth after the first `i` bytes of `s`. */
  function DepthAt(s: seq<byte>, i: nat, q: byte, e: byte): int
    requires i <= |s|
  {
    Depth(s[..i], q, e)
  }

  /** No prefix of `s` closes more quotes than it opens. */
  predicate NeverNegative(s: seq<byte>, q: byte, e: byte) {
    forall i :: 0 <= i <= |s| ==> DepthAt(s, i, q, e) >= 0
  }

  /**
   * A string body for distinct delimiters `q` and `e`: no prefix closes more quotes than it
   * opens, and the whole body is balanced.
   */
  predicate Nested(body: seq<byte>, q: byte, e: byte) {
    NeverNegative(body, q, e) && Depth(body, q, e) == 0
  }

  lemma DepthAppend(p: seq<byte>, c: byte, q: byte, e: byte)
    ensures Depth(p + [c], q, e) == Depth(p, q, e) + (if c == q then 1 else if c == e then -1 else 0)
  {
    assert (p + [c])[..|p|] == p;
  }

  /** A one-byte delimiter matches the end of the buffer exactly when it is the byte just added. */
  lemma EndsWithLast(chars: seq<byte>, c: byte, d: byte)
    ensures EndsWith(chars + [c], [d]) <==> c == d
  {
    var grown := chars + [c];
    assert grown[|grown| - 1..] == [c];
  }

  /** Stripping one-byte delimiters off a buffer gives back the text between them. */
  lemma StripOneByteQuotes(q: byte, body: seq<byte>, e: byte)
    ensures SliceFromEnd([q] + body + [e], 1, 1) == body
  {
    var s := [q] + body + [e];
    assert s[1..|s| - 1] == body;
  }

  /** The string state with one-byte delimiters, one byte at a time. */
  lemma StringStep(chars: seq<byte>, depth: int, input: seq<byte>, q: byte, e: byte)
    requires input != []
    ensures var c := input[0];
      var grown := chars + [c];
      StepChar(InString(chars, depth), input, [q], [e]) ==
        if q != e && c == q then Continue(InString(grown, depth + 1), input[1..])
        else if c == e then
          (if depth - 1 == 0 then Emit(Token(String, SliceFromEnd(grown, 1, 1)), input[1..])
           else Continue(InString(grown, depth - 1), input[1..]))
        else Continue(InString(grown, depth), input[1..])
  {
    EndsWithLast(chars, input[0], q);
    EndsWithLast(chars, input[0], e);
  }

  /** The first byte of a delimited string: the lexer enters the string state at depth 1. */
  lemma OpenQuoteStep(input: seq<byte>, sq: seq<byte>, eq: seq<byte>)
    requires input != [] && sq == [input[0]]
    ensures NextToken(input, sq, eq) == Lex(InString([input[0]], 1), input[1..], sq, eq)
  {
    assert StepChar(Generic, input, sq, eq) == Continue(InString([input[0]], 1), input[1..]);
    LexContinues(Generic, input, sq, eq);
  }

  /** Depth counts over a concatenation add up. */
  lemma {:induction false} DepthConcat(a: seq<byte>, b: seq<byte>, q: byte, e: byte)
    ensures Depth(a + b, q, e) == Depth(a, q, e) + Depth(b, q, e)
    decreases |b|
  {
    if b == [] {
      assert a + b == a;
    } else {
      var init := b[..|b| - 1];
      var last := b[|b| - 1];
      assert b == init + [last];
      assert a + b == (a + init) + [last];
      DepthAppend(a + init, last, q, e);
      DepthAppend(init, last, q, e);
      DepthConcat(a, init, q, e);
    }
  }

  /** Text without either delimiter has depth 0 at every prefix. */
  lemma {:induction false} PlainDepth(s: seq<byte>, q: byte, e: byte)
    requires q !in s && e !in s
    ensures Depth(s, q, e) == 0
    decreases |s|
  {
    if s != [] {
      assert s[..|s| - 1] + [s[|s| - 1]] == s;
      PlainDepth(s[..|s| - 1], q, e);
    }
  }

  lemma PlainNested(s: seq<byte>, q: byte, e: byte)
    requires q !in s && e !in s
    ensures Nested(s, q, e)
  {
    forall i | 0 <= i <= |s|
      ensures DepthAt(s, i, q, e) >= 0
    {
      assert forall c :: c in s[..i] ==> c in s;
      PlainDepth(s[..i], q, e);
    }
    PlainDepth(s, q, e);
  }

  /** A nested text quoted once, between plain texts, is still nested. */
  lemma NestedQuoted(a: seq<byte>, x: seq<byte>, b: seq<byte>, q: byte, e: byte)
    requires q != e && Nested(x, q, e)
    requires q !in a && e !in a && q !in b && e !in b
    ensures Nested(a + [q] + x + [e] + b, q, e)
  {
    var s := a + [q] + x + [e] + b;
    var open := a + [q];
    PlainDepth(a, q, e);
    DepthAppend(a, q, q, e);
    forall i | 0 <= i <= |s|
      ensures DepthAt(s, i, q, e) >= 0
    {
      if i <= |a| {
        assert s[..i] == a[..i];
        assert forall c :: c in a[..i] ==> c in a;
        PlainDepth(a[..i], q, e);
      } else if i <= |open| + |x| {
        var j := i - |open|;
        assert s[..i] == open + x[..j];
        DepthConcat(open, x[..j], q, e);
        assert DepthAt(x, j, q, e) >= 0;
      } else {
        var j := i - |open| - |x| - 1;
        assert s[..i] == (open + x + [e]) + b[..j];
        assert forall c :: c in b[..j] ==> c in b;
        PlainDepth(b[..j], q, e);
        DepthConcat(open + x + [e], b[..j], q, e);
        DepthAppend(open + x, e, q, e);
        DepthConcat(open, x, q, e);
      }
    }
    PlainDepth(b, q, e);
    DepthConcat(open + x + [e], b, q, e);
    DepthAppend(open + x, e, q, e);
    DepthConcat(open, x, q, e);
  }

  /**
   * The string state with one-byte delimiters after the start quote: `p` is the body read so
   * far and `d` the depth. It is `Lex` in the string state with the start quote kept out of
   * the buffer (`ScanIsLex`).
   */
  function Scan(p: seq<byte>, d: int, input: seq<byte>, q: byte, e: byte): Lexed
    decreases |input|
  {
    if input == [] then Unterminated
    else
      var c := input[0];
      if q != e && c == q then Scan(p + [c], d + 1, input[1..], q, e)
      else if c == e then
        (if d - 1 == 0 then Tok(Token(String, p), input[1..]) else Scan(p + [c], d - 1, input[1..], q, e))
      else Scan(p + [c], d, input[1..], q, e)
  }

  lemma {:induction false} ScanIsLex(p: seq<byte>, d: int, input: seq<byte>, q: byte, e: byte)
    ensures Lex(InString([q] + p, d), input, [q], [e]) == Scan(p, d, input, q, e)
    decreases |input|
  {
    if input != [] {
      var c := input[0];
      StringStep([q] + p, d, input, q, e);
      assert [q] + p + [c] == [q] + (p + [c]);
      if c == e && d - 1 == 0 {
        StripOneByteQuotes(q, p, e);
      } else {
        LexContinues(InString([q] + p, d), input, [q], [e]);
        ScanIsLex(p + [c], if q != e && c == q then d + 1 else if c == e then d - 1 else d, input[1..], q, e);
      }
    }
  }

  /** The string opened by the first byte of `input` is scanned from the rest with an empty body. */
  lemma OpenQuoteScan(input: seq<byte>, q: byte, e: byte)
    requires input != [] && input[0] == q
    ensures NextToken(input, [q], [e]) == Scan([], 1, input[1..], q, e)
  {
    OpenQuoteStep(input, [q], [e]);
    assert [q] + [] == [q];
    ScanIsLex([], 1, input[1..], q, e);
  }

  lemma SplitHead(p: seq<byte>, x: seq<byte>, rest: seq<byte>, e: byte)
    requires x != []
    ensures x + [e] + rest == [x[0]] + (x[1..] + [e] + rest)
    ensures (p + [x[0]]) + x[1..] == p + x
    ensures (p + x)[..|p| + 1] == p + [x[0]]
  {
  }

  /** Moving the head of the rest onto the body keeps the whole nested and the body open. */
  lemma NestedStep(p: seq<byte>, x: seq<byte>, q: byte, e: byte)
    requires q != e && Nested(p + x, q, e) && x != []
    ensures Nested((p + [x[0]]) + x[1..], q, e)
    ensures !(x[0] == e && Depth(p, q, e) == 0)
  {
    var s := p + x;
    assert (p + [x[0]]) + x[1..] == s;
    assert s[..|p| + 1] == p + [x[0]];
    assert DepthAt(s, |p| + 1, q, e) >= 0;
    DepthAppend(p, x[0], q, e);
  }

  lemma {:induction false} StringRun(p: seq<byte>, x: seq<byte>, rest: seq<byte>, q: byte, e: byte)
    requires q != e && Nested(p + x, q, e)
    ensures Scan(p, 1 + Depth(p, q, e), x + [e] + rest, q, e) == Tok(Token(String, p + x), rest)
    decreases |x|
  {
    var input := x + [e] + rest;
    if x == [] {
      assert p + x == p && input[0] == e && input[1..] == rest;
    } else {
      SplitHead(p, x, rest, e);
      NestedStep(p, x, q, e);
      DepthAppend(p, x[0], q, e);
      StringRun(p + [x[0]], x[1..], rest, q, e);
    }
  }

  /**
   * With distinct one-byte delimiters, a start quote, a nested body and an end quote make
   * one string token whose value is the body, inner delimiter pairs included.
   */
  lemma StringToken(body: seq<byte>, rest: seq<byte>, q: byte, e: byte)
    requires q != e && Nested(body, q, e)
    ensures NextToken([q] + body + [e] + rest, [q], [e]) == Tok(Token(String, body), rest)
  {
    var input := [q] + body + [e] + rest;
    assert input[1..] == body + [e] + rest;
    OpenQuoteScan(input, q, e);
    assert [] + body == body;
    StringRun([], body, rest, q, e);
  }

  /** Every prefix of `p + [c]` is non-negative when those of `p` are and the whole is. */
  lemma PrefixesGrow(p: seq<byte>, c: byte, q: byte, e: byte)
    requires NeverNegative(p, q, e) && Depth(p + [c], q, e) >= 0
    ensures NeverNegative(p + [c], q, e)
  {
    var p' := p + [c];
    forall i | 0 <= i <= |p'|
      ensures DepthAt(p', i, q, e) >= 0
    {
      if i <= |p| {
        assert p'[..i] == p[..i];
        assert DepthAt(p, i, q, e) >= 0;
      } else {
        assert p'[..i] == p';
      }
    }
  }

  /**
   * One step back in the string state: if the value extends `p + [c]` and the input after
   * `c` is the rest of the value and the end quote, then the value extends `p` and the input
   * from `c` on is the rest of the value and the end quote.
   */
  lemma ExtendsByOne(p: seq<byte>, c: byte, tail: seq<byte>, v: seq<byte>, after: seq<byte>, e: byte)
    requires |p| + 1 <= |v| && v[..|p| + 1] == p + [c] && tail == v[|p| + 1..] + [e] + after
    ensures |p| <= |v| && v[..|p|] == p && [c] + tail == v[|p|..] + [e] + after
  {
    assert v[..|p|] == v[..|p| + 1][..|p|];
    assert v[|p|..] == [c] + v[|p| + 1..];
  }

  /** The closing quote of a string: the value is everything buffered so far. */
  lemma ClosesHere(p: seq<byte>, input: seq<byte>, e: byte)
    requires input != [] && input[0] == e
    ensures p[..|p|] == p && input == p[|p|..] + [e] + input[1..]
  {
    assert p[|p|..] == [];
    assert input == [input[0]] + input[1..];
  }

  /**
   * What a string token scanned from body `p` says about the input: its value extends `p`,
   * and the input is the rest of the value, then the end quote, then the rest.
   */
  predicate ScannedBack(p: seq<byte>, input: seq<byte>, e: byte, r: Lexed) {
    r.Tok? ==>
      && r.token.kind == String
      && |p| <= |r.token.value| && r.token.value[..|p|] == p
      && input == r.token.value[|p|..] + [e] + r.rest
  }

  /** `ScannedBack` steps back over one byte of the body. */
  lemma ScannedBackStep(p: seq<byte>, input: seq<byte>, e: byte, r: Lexed)
    requires input != [] && ScannedBack(p + [input[0]], input[1..], e, r)
    ensures ScannedBack(p, input, e, r)
  {
    if r.Tok? {
      ExtendsByOne(p, input[0], input[1..], r.token.value, r.rest, e);
      assert input == [input[0]] + input[1..];
    }
  }

  lemma {:induction false} StringRunBack(p: seq<byte>, input: seq<byte>, q: byte, e: byte)
    requires q != e && NeverNegative(p, q, e)
    ensures var r := Scan(p, 1 + Depth(p, q, e), input, q, e);
      ScannedBack(p, input, e, r) && (r.Tok? ==> Nested(r.token.value, q, e))
    decreases |input|
  {
    if input != [] {
      var c := input[0];
      if c == e && Depth(p, q, e) == 0 {
        ClosesHere(p, input, e);
      } else {
        DepthAppend(p, c, q, e);
        assert p[..|p|] == p;
        assert DepthAt(p, |p|, q, e) >= 0;
        PrefixesGrow(p, c, q, e);
        StringRunBack(p + [c], input[1..], q, e);
        ScannedBackStep(p, input, e, Scan(p + [c], 1 + Depth(p + [c], q, e), input[1..], q, e));
      }
    }
  }

  /**
   * Conversely, with distinct one-byte delimiters every string token was lexed from a start
   * quote, a nested body equal to its value, and an end quote.
   */
  lemma StringTokenInverse(input: seq<byte>, q: byte, e: byte)
    requires q != e
    requires NextToken(input, [q], [e]).Tok? && NextToken(input, [q], [e]).token.kind == String
    ensures var r := NextToken(input, [q], [e]);
      input == [q] + r.token.value + [e] + r.rest && Nested(r.token.value, q, e)
  {
    FirstByteDecidesKind(input, [q], [e]);
    assert input[0] == q;
    OpenQuoteScan(input, q, e);
    assert DepthAt([], 0, q, e) == 0;
    StringRunBack([], input[1..], q, e);
    var r := NextToken(input, [q], [e]);
    assert r.token.value[0..] == r.token.value;
    assert input == [q] + input[1..];
  }

  // ----- strings with equal delimiters -----

  lemma {:induction false} EqualQuotesRun(p: seq<byte>, x: seq<byte>, rest: seq<byte>, q: byte)
    requires q !in x
    ensures Scan(p, 1, x + [q] + rest, q, q) == Tok(Token(String, p + x), rest)
    decreases |x|
  {
    var input := x + [q] + rest;
    if x == [] {
      assert p + x == p && input[0] == q && input[1..] == rest;
    } else {
      SplitHead(p, x, rest, q);
      EqualQuotesRun(p + [x[0]], x[1..], rest, q);
    }
  }

  /**
   * With equal delimiters the depth never increments: the first later occurrence of the
   * delimiter closes the string.
   */
  lemma EqualQuotesToken(body: seq<byte>, rest: seq<byte>, q: byte)
    requires q !in body
    ensures NextToken([q] + body + [q] + rest, [q], [q]) == Tok(Token(String, body), rest)
  {
    var input := [q] + body + [q] + rest;
    assert input[1..] == body + [q] + rest;
    OpenQuoteScan(input, q, q);
    assert [] + body == body;
    EqualQuotesRun([], body, rest, q);
  }

  lemma {:induction false} EqualQuotesRunBack(p: seq<byte>, input: seq<byte>, q: byte)
    requires q !in p
    ensures var r := Scan(p, 1, input, q, q);
      ScannedBack(p, input, q, r) && (r.Tok? ==> q !in r.token.value)
    decreases |input|
  {
    if input != [] {
      var c := input[0];
      if c == q {
        ClosesHere(p, input, q);
      } else {
        assert q !in p + [c];
        EqualQuotesRunBack(p + [c], input[1..], q);
        ScannedBackStep(p, input, q, Scan(p + [c], 1, input[1..], q, q));
      }
    }
  }

  /** Conversely, with equal delimiters a string token's value never contains the delimiter. */
  lemma EqualQuotesTokenInverse(input: seq<byte>, q: byte)
    requires NextToken(input, [q], [q]).Tok? && NextToken(input, [q], [q]).token.kind == String
    ensures var r := NextToken(input, [q], [q]);
      input == [q] + r.token.value + [q] + r.rest && q !in r.token.value
  {
    FirstByteDecidesKind(input, [q], [q]);
    assert input[0] == q;
    OpenQuoteScan(input, q, q);
    EqualQuotesRunBack([], input[1..], q);
    var r := NextToken(input, [q], [q]);
    assert r.token.value[0..] == r.token.value;
    assert input == [q] + input[1..];
  }

  // ----- unterminated strings and multi-byte start quotes -----

  lemma {:induction false} UnclosedRun(p: seq<byte>, d: int, x: seq<byte>, q: byte, e: byte)
    requires e !in x
    ensures Scan(p, d, x, q, e) == Unterminated
    decreases |x|
  {
    if x != [] {
      UnclosedRun(p + [x[0]], if q != e && x[0] == q then d + 1 else d, x[1..], q, e);
    }
  }

  /**
   * A start quote with no end-quote byte after it never yields a string token: lexing fails
   * at the end of input. This holds for distinct and for equal delimiters.
   */
  lemma UnterminatedString(body: seq<byte>, q: byte, e: byte)
    requires e !in body
    ensures NextToken([q] + body, [q], [e]) == Unterminated
  {
    assert ([q] + body)[1..] == body;
    OpenQuoteScan([q] + body, q, e);
    UnclosedRun([], 1, body, q, e);
  }

  /** An end quote that closes a nested prefix of the body ends the string there. */
  lemma ClosingQuoteCloses(body: seq<byte>, i: nat, q: byte, e: byte)
    requires q != e && i < |body| && body[i] == e && Nested(body[..i], q, e)
    ensures NextToken([q] + body, [q], [e]).Tok?
  {
    assert [q] + body == [q] + body[..i] + [e] + body[i + 1..];
    StringToken(body[..i], body[i + 1..], q, e);
  }

  /** A string token ends at an end quote that closes a nested prefix of the body. */
  lemma TokenHasClosingQuote(body: seq<byte>, q: byte, e: byte) returns (i: nat)
    requires q != e && NextToken([q] + body, [q], [e]).Tok?
    ensures i < |body| && body[i] == e && Nested(body[..i], q, e)
  {
    var input := [q] + body;
    FirstByteDecidesKind(input, [q], [e]);
    StringTokenInverse(input, q, e);
    var r := NextToken(input, [q], [e]);
    var v := r.token.value;
    assert body == v + [e] + r.rest;
    i := |v|;
    assert body[..i] == v;
  }

  /**
   * With distinct delimiters a string is unterminated exactly when no end quote in the body
   * closes a nested prefix of it: in `` ``a' `` the one end quote leaves the outer string open.
   */
  lemma UnbalancedString(body: seq<byte>, q: byte, e: byte)
    requires q != e
    ensures NextToken([q] + body, [q], [e]) == Unterminated <==>
      forall i :: 0 <= i < |body| && body[i] == e ==> !Nested(body[..i], q, e)
  {
    if exists i :: 0 <= i < |body| && body[i] == e && Nested(body[..i], q, e) {
      var i :| 0 <= i < |body| && body[i] == e && Nested(body[..i], q, e);
      ClosingQuoteCloses(body, i, q, e);
    }
    if NextToken([q] + body, [q], [e]).Tok? {
      var i := TokenHasClosingQuote(body, q, e);
    }
  }

  /** A start quote that is not exactly one byte never opens a string. */
  lemma MultiByteStartQuoteNeverMatches(input: seq<byte>, sq: seq<byte>, eq: seq<byte>)
    requires |sq| != 1
    ensures var r := NextToken(input, sq, eq);
      !r.Unterminated? && (r.Tok? ==> r.token.kind != String)
  {
    if input != [] {
      FirstByteDecidesKind(input, sq, eq);
    }
  }

  // ----- lexing does not look past the token -----

  /**
   * A token that leaves input behind, or that ends on a consumed byte (a raw byte, a closing
   * quote), is lexed the same whatever follows the input.
   */
  lemma {:induction false} LexExtends(st: LexState, input: seq<byte>, post: seq<byte>, sq: seq<byte>, eq: seq<byte>)
    requires Lex(st, input, sq, eq).Tok?
    requires var r := Lex(st, input, sq, eq); r.rest != [] || r.token.kind == Raw || r.token.kind == String
    ensures var r := Lex(st, input, sq, eq); Lex(st, input + post, sq, eq) == Tok(r.token, r.rest + post)
    decreases 2 * |input| + (if st.Generic? then 0 else 1)
  {
    assert input != [];
    assert (input + post)[0] == input[0] && (input + post)[1..] == input[1..] + post;
    var s := StepChar(st, input, sq, eq);
    if s.Continue? {
      assert StepChar(st, input + post, sq, eq) == Continue(s.state, s.rest + post);
      LexExtends(s.state, s.rest, post, sq, eq);
    } else {
      assert StepChar(st, input + post, sq, eq) == Emit(s.token, s.rest + post);
    }
  }

  /** The same for a whole token from the generic state. */
  lemma NextTokenExtends(input: seq<byte>, post: seq<byte>, sq: seq<byte>, eq: seq<byte>)
    requires NextToken(input, sq, eq).Tok?
    requires var r := NextToken(input, sq, eq); r.rest != [] || r.token.kind == Raw || r.token.kind == String
    ensures var r := NextToken(input, sq, eq); NextToken(input + post, sq, eq) == Tok(r.token, r.rest + post)
  {
    LexExtends(Generic, input, post, sq, eq);
  }

  /** A token whose value is a newline is a raw byte or a string: never a name or a comment. */
  lemma NewlineTokenKind(input: seq<byte>, sq: seq<byte>, eq: seq<byte>)
    requires NextToken(input, sq, eq).Tok? && NextToken(input, sq, eq).token.value == [NEWLINE]
    ensures NextToken(input, sq, eq).token.kind == Raw || NextToken(input, sq, eq).token.kind == String
  {
    FirstByteDecidesKind(input, sq, eq);
    if sq != [input[0]] && IsIdentStart(input[0]) {
      IdentifierToken(input, sq, eq);
    } else if sq != [input[0]] && input[0] == HASH {
      CommentToken(input, sq, eq);
    }
  }

  // ----- reproducing the input -----

  /** The bytes a token was lexed from: a string's value regains its delimiters. */
  function Surface(t: Token, sq: seq<byte>, eq: seq<byte>): seq<byte> {
    if t.kind == String then sq + t.value + eq else t.value
  }

  function Surfaces(ts: seq<Token>, sq: seq<byte>, eq: seq<byte>): seq<byte> {
    if ts == [] then [] else Surface(ts[0], sq, eq) + Surfaces(ts[1..], sq, eq)
  }

  /** With one-byte delimiters every token is its surface bytes cut off the front of the input. */
  lemma TokenSurface(input: seq<byte>, q: byte, e: byte)
    requires NextToken(input, [q], [e]).Tok?
    ensures var r := NextToken(input, [q], [e]);
      input == Surface(r.token, [q], [e]) + r.rest && Surface(r.token, [q], [e]) != []
  {
    var r := NextToken(input, [q], [e]);
    FirstByteDecidesKind(input, [q], [e]);
    var c := input[0];
    if [q] == [c] {
      if q == e {
        EqualQuotesTokenInverse(input, q);
      } else {
        StringTokenInverse(input, q, e);
      }
    } else if IsIdentStart(c) {
      IdentifierToken(input, [q], [e]);
    } else if c == HASH {
      CommentToken(input, [q], [e]);
    } else {
      RawToken(input, [q], [e]);
    }
  }

  /**
   * Tokenizing and concatenating the tokens' surfaces gives back the input: every byte
   * belongs to exactly one token, and only string delimiters are missing from the values.
   */
  lemma {:induction false} TokenizeRoundTrip(input: seq<byte>, q: byte, e: byte)
    requires Tokenize(input, [q], [e]).Some?
    ensures Surfaces(Tokenize(input, [q], [e]).value, [q], [e]) == input
    decreases |input|
  {
    match NextToken(input, [q], [e])
    case Eof =>
    case Tok(t, rest) =>
      TokenSurface(input, q, e);
      TokenizeRoundTrip(rest, q, e);
      var ts := Tokenize(rest, [q], [e]).value;
      assert ([t] + ts)[1..] == ts;
  }

  // ----- the lexer object -----

  /**
   * Inserted text is lexed next, before the rest of the input, also when the rest is
   * already empty: a complete identifier inserted between tokens is the next token.
   */
  lemma InsertedIdentifierLexedNext(lx: Lexer, name: seq<byte>)
    requires !lx.finished
    requires name != [] && IsIdentStart(name[0]) && AllIdentChars(name) && lx.startQuote != [name[0]]
    requires lx.input == [] || !IsIdentChar(lx.input[0])
    ensures Next(InsertText(lx, name)) == Got(Token(Identifier, name), lx)
  {
    IdentifierExact(name, lx.input, lx.startQuote, lx.endQuote);
  }

  /** Once the token stream has ended it stays ended, whatever is inserted afterwards. */
  lemma ExhaustedStaysExhausted(lx: Lexer, text: seq<byte>)
    requires Next(lx).Exhausted?
    ensures Next(InsertText(Next(lx).lexer, text)).Exhausted?
  {
  }

  /**
   * `peek_char` returns the next raw byte without consuming it: it is the first byte of the
   * surface of the token lexed next, and the end of input exactly when no token follows.
   */
  lemma PeekCharIsNextByte(lx: Lexer, q: byte, e: byte)
    requires !lx.finished && lx.startQuote == [q] && lx.endQuote == [e]
    ensures PeekChar(lx).EOF? <==> Next(lx).Exhausted?
    ensures Next(lx).Got? ==>
      Surface(Next(lx).token, [q], [e]) != [] && PeekChar(lx) == Cursor.Byte(Surface(Next(lx).token, [q], [e])[0])
  {
    if Next(lx).Got? {
      TokenSurface(lx.input, q, e);
    }
  }

  /**
   * After a change of quotes the old delimiters are ordinary bytes: a byte that is no
   * longer the start quote (and is not a letter, `_` or `#`) is lexed as a raw token.
   */
  lemma OldQuoteIsRaw(lx: Lexer, sq: seq<byte>, eq: seq<byte>)
    requires !lx.finished && lx.input != [] && lx.input[0] == BACKTICK && sq != [BACKTICK]
    ensures Next(Changequote(lx, sq, eq)) == Got(Token(Raw, [BACKTICK]), Changequote(lx, sq, eq).(input := lx.input[1..]))
  {
    RawToken(lx.input, sq, eq);
  }
}
