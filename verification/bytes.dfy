/** Bytes, the ASCII character classes the engine consults, and small sequence helpers. */
module Bytes {

  /** A byte, as Python 3 yields it when iterating over a `bytes` value. */
  type byte = b: int | 0 <= b < 256

  datatype Option<T> = None | Some(value: T)

  const TAB: byte := 9
  const NEWLINE: byte := 10
  const SPACE: byte := 32
  const HASH: byte := 35
  const APOSTROPHE: byte := 39
  const LPAREN: byte := 40
  const RPAREN: byte := 41
  const PLUS: byte := 43
  const COMMA: byte := 44
  const MINUS: byte := 45
  const ZERO: byte := 48
  const LBRACKET: byte := 91
  const RBRACKET: byte := 93
  const UNDERSCORE: byte := 95
  const BACKTICK: byte := 96

  /** `bytes.isalpha` on one byte: ASCII letters only. */
  predicate IsAlpha(c: byte) {
    (65 <= c <= 90) || (97 <= c <= 122)
  }

  predicate IsDigit(c: byte) {
    48 <= c <= 57
  }

  /** `bytes.isalnum` on one byte. */
  predicate IsAlnum(c: byte) {
    IsAlpha(c) || IsDigit(c)
  }

  /** A byte that starts an identifier: a letter or `_`. */
  predicate IsIdentStart(c: byte) {
    IsAlpha(c) || c == UNDERSCORE
  }

  /** A byte that continues an identifier: a letter, a digit or `_`. */
  predicate IsIdentChar(c: byte) {
    IsAlnum(c) || c == UNDERSCORE
  }

  /** ASCII whitespace: space, tab, newline, vertical tab, form feed, carriage return. */
  predicate IsSpaceByte(c: byte) {
    c == SPACE || (9 <= c <= 13)
  }

  /** `bytes.isspace`: non-empty and whitespace throughout. */
  predicate IsSpace(s: seq<byte>) {
    |s| > 0 && forall i :: 0 <= i < |s| ==> IsSpaceByte(s[i])
  }

  /** `bytes.endswith`. */
  predicate EndsWith(s: seq<byte>, suffix: seq<byte>) {
    |suffix| <= |s| && s[|s| - |suffix|..] == suffix
  }

  /** Concatenation of chunks in order (`b''.join`). */
  function Join<T>(chunks: seq<seq<T>>): (r: seq<T>)
    ensures chunks == [] ==> r == []
  {
    if chunks == [] then [] else Join(chunks[..|chunks| - 1]) + chunks[|chunks| - 1]
  }

  lemma JoinAppend<T>(chunks: seq<seq<T>>, x: seq<T>)
    ensures Join(chunks + [x]) == Join(chunks) + x
  {
    assert (chunks + [x])[..|chunks|] == chunks;
  }

  lemma {:induction false} JoinConcat<T>(a: seq<seq<T>>, b: seq<seq<T>>)
    ensures Join(a + b) == Join(a) + Join(b)
    decreases |b|
  {
    if b == [] {
      assert a + b == a;
    } else {
      var init := b[..|b| - 1];
      var last := b[|b| - 1];
      assert b == init + [last];
      assert a + b == (a + init) + [last];
      JoinConcat(a, init);
      JoinAppend(a + init, last);
      JoinAppend(init, last);
    }
  }

  lemma JoinPrepend<T>(x: seq<T>, chunks: seq<seq<T>>)
    ensures Join([x] + chunks) == x + Join(chunks)
  {
    JoinConcat([x], chunks);
    assert Join([x]) == Join([x][..0]) + x;
  }

  /**
   * Python's slice `s[start:-stop]` for non-negative `start` and `stop`: a zero `stop`
   * makes the end index 0, and indexes past either end are clamped.
   */
  function SliceFromEnd(s: seq<byte>, start: nat, stop: nat): (r: seq<byte>)
    ensures |r| <= |s|
    ensures start + stop <= |s| && stop > 0 ==> s == s[..start] + r + s[|s| - stop..]
  {
    var hi := if stop == 0 || stop > |s| then 0 else |s| - stop;
    var lo := if start > |s| then |s| else start;
    if lo < hi then s[lo..hi] else []
  }
}
