/**
 * The input cursor of the lexer (`peek_insert_iter`): bytes spliced in by the consumer,
 * at most one byte already pulled from the source by a peek, and the untouched rest of
 * the source. Abstractly the pending input is the single sequence
 * `inserted + peeked + source`; the lexer works on that sequence directly.
 */
module Cursor {
  import opened Bytes

  datatype Cursor = Cursor(inserted: seq<byte>, peeked: seq<byte>, source: seq<byte>)

  /** What a peek sees: a byte, or the end-of-input sentinel. */
  datatype Peeked = EOF | Byte(b: byte)

  /** What `next` gives: a byte and the advanced cursor, or `StopIteration`. */
  datatype Pulled = Stop | Pull(b: byte, cursor: Cursor)

  /** The peek buffer holds at most one byte. */
  predicate Valid(c: Cursor) {
    |c.peeked| <= 1
  }

  /** Everything still to be read, in reading order. */
  function Pending(c: Cursor): seq<byte> {
    c.inserted + c.peeked + c.source
  }

  function Open(source: seq<byte>): (c: Cursor)
    ensures Valid(c) && Pending(c) == source
  {
    Cursor([], [], source)
  }

  /** `insert`: the text is read before everything that is pending. */
  function Insert(c: Cursor, text: seq<byte>): (r: Cursor)
    requires Valid(c)
    ensures Valid(r)
    ensures Pending(r) == text + Pending(c)
  {
    assert Pending(c.(inserted := text + c.inserted)) == text + Pending(c);
    c.(inserted := text + c.inserted)
  }

  /** `__next__`: inserted bytes first, then the peeked byte, then the source. */
  function Next(c: Cursor): (r: Pulled)
    requires Valid(c)
    ensures r.Stop? <==> Pending(c) == []
    ensures r.Pull? ==> r.b == Pending(c)[0] && Valid(r.cursor) && Pending(r.cursor) == Pending(c)[1..]
  {
    if c.inserted != [] then
      Pull(c.inserted[0], c.(inserted := c.inserted[1..]))
    else if c.peeked != [] then
      Pull(c.peeked[0], c.(peeked := c.peeked[1..]))
    else if c.source != [] then
      Pull(c.source[0], c.(source := c.source[1..]))
    else
      Stop
  }

  /**
   * `peek`: the head of the pending input without consuming it. Reading ahead may move
   * one byte from the source into the peek buffer; the pending sequence is unchanged.
   */
  function Peek(c: Cursor): (r: (Peeked, Cursor))
    requires Valid(c)
    ensures Valid(r.1) && Pending(r.1) == Pending(c)
    ensures r.0.EOF? <==> Pending(c) == []
    ensures r.0.Byte? ==> r.0.b == Pending(c)[0]
  {
    if c.inserted != [] then
      (Byte(c.inserted[0]), c)
    else
      var c1 := if c.peeked == [] && c.source != [] then Cursor(c.inserted, [c.source[0]], c.source[1..]) else c;
      assert Pending(c1) == Pending(c);
      if c1.peeked != [] then (Byte(c1.peeked[0]), c1) else (EOF, c1)
  }

  /** Later inserts are read before earlier ones, and both before anything already peeked. */
  lemma InsertOrder(c: Cursor, first: seq<byte>, second: seq<byte>)
    requires Valid(c)
    ensures Pending(Insert(Insert(c, first), second)) == second + first + Pending(c)
  {
  }

  /** An insert overtakes a byte that a peek has already pulled from the source. */
  lemma {:induction false} InsertOvertakesPeeked(c: Cursor, text: seq<byte>)
    requires Valid(c) && c.inserted == [] && c.source != [] && text != []
    ensures var c1 := Insert(Peek(c).1, text);
      Next(c1).Pull? && Next(c1).b == text[0] && Pending(c1) == text + Pending(c)
  {
    var c1 := Insert(Peek(c).1, text);
    assert c1.inserted == text;
  }

  /** Once everything is read a peek reports EOF, and an insert makes bytes available again. */
  lemma InsertAfterEof(c: Cursor, text: seq<byte>)
    requires Valid(c) && Peek(c).0.EOF? && text != []
    ensures Peek(Insert(c, text)).0 == Byte(text[0])
    ensures Next(Insert(c, text)).Pull?
  {
  }

  /** A peek never consumes: the byte it reports is the one `next` then returns. */
  lemma PeekThenNext(c: Cursor)
    requires Valid(c)
    ensures Peek(c).0.Byte? ==> Next(Peek(c).1).Pull? && Next(Peek(c).1).b == Peek(c).0.b
    ensures Peek(c).0.EOF? ==> Next(Peek(c).1).Stop?
  {
  }
}
