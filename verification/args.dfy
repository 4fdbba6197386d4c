/**
 * Argument collection for a macro call (`_parse_args` after the opening parenthesis): the
 * values of the expanded tokens are fed one at a time into a collector. Every `,` or `)`
 * closes the current argument, `(` only raises the depth (and is not kept), whitespace
 * tokens are skipped while the current argument is still empty, and the `)` that brings
 * the depth from 1 to 0 ends the call.
 */
module Arguments {
  import opened Bytes

  /** The collector's state: the closed arguments, the chunks of the current one, the depth. */
  datatype Collector = Collector(args: seq<seq<byte>>, current: seq<seq<byte>>, depth: int)

  datatype Fed = Open(collector: Collector) | Closed(args: seq<seq<byte>>)

  /** The collector right after the opening parenthesis has been consumed. */
  const Opened: Collector := Collector([], [], 1)

  predicate IsSeparator(v: seq<byte>) {
    v == [COMMA] || v == [RPAREN]
  }

  /** One token value fed to the collector. */
  function Feed(c: Collector, v: seq<byte>): Fed {
    var c1 :=
      if v == [LPAREN] then c.(depth := c.depth + 1)
      else if IsSeparator(v) then c.(args := c.args + [Join(c.current)], current := [])
      else if |c.current| > 0 || !IsSpace(v) then c.(current := c.current + [v])
      else c;
    if v == [RPAREN] then
      if c1.depth - 1 == 0 then Closed(c1.args) else Open(c1.(depth := c1.depth - 1))
    else Open(c1)
  }

  /** A sequence of token values fed in order; values after the closing `)` are not looked at. */
  function FeedAll(c: Collector, vals: seq<seq<byte>>): Fed {
    if vals == [] then Open(c)
    else
      match FeedAll(c, vals[..|vals| - 1])
      case Closed(args) => Closed(args)
      case Open(c1) => Feed(c1, vals[|vals| - 1])
  }

  // ----- a reference description of the arguments -----

  /** How one value moves the parenthesis depth. */
  function Delta(v: seq<byte>): int {
    if v == [LPAREN] then 1 else if v == [RPAREN] then -1 else 0
  }

  /** `(` tokens minus `)` tokens. */
  function Balance(vals: seq<seq<byte>>): int {
    if vals == [] then 0 else Delta(vals[0]) + Balance(vals[1..])
  }

  /** The balance of the first `i` values. */
  function BalanceAt(vals: seq<seq<byte>>, i: nat): int
    requires i <= |vals|
  {
    Balance(vals[..i])
  }

  /** No prefix of `vals` reaches the `)` that ends the call. */
  predicate StaysOpen(vals: seq<seq<byte>>) {
    forall i :: 0 <= i <= |vals| ==> BalanceAt(vals, i) >= 0
  }

  /** The values between separators, in order; there is always a last, possibly empty, segment. */
  function Split(vals: seq<seq<byte>>): (r: seq<seq<seq<byte>>>)
    ensures |r| >= 1
  {
    if vals == [] then [[]]
    else
      var s := Split(vals[1..]);
      if IsSeparator(vals[0]) then [[]] + s else [[vals[0]] + s[0]] + s[1..]
  }

  function WithoutOpen(seg: seq<seq<byte>>): seq<seq<byte>> {
    if seg == [] then []
    else (if seg[0] == [LPAREN] then [] else [seg[0]]) + WithoutOpen(seg[1..])
  }

  function DropLeadingSpace(seg: seq<seq<byte>>): seq<seq<byte>> {
    if seg != [] && IsSpace(seg[0]) then DropLeadingSpace(seg[1..]) else seg
  }

  /** The chunks a segment contributes to its argument. */
  function Trim(seg: seq<seq<byte>>): seq<seq<byte>> {
    DropLeadingSpace(WithoutOpen(seg))
  }

  function ArgTexts(segs: seq<seq<seq<byte>>>): (r: seq<seq<byte>>)
    ensures |r| == |segs|
  {
    if segs == [] then [] else ArgTexts(segs[..|segs| - 1]) + [Join(Trim(segs[|segs| - 1]))]
  }

  /** The arguments closed by the separators in `vals`. */
  function Completed(vals: seq<seq<byte>>): seq<seq<byte>> {
    var s := Split(vals);
    ArgTexts(s[..|s| - 1])
  }

  // ----- the reference agrees with the collector -----

  lemma {:induction false} BalanceAppend(vals: seq<seq<byte>>, v: seq<byte>)
    ensures Balance(vals + [v]) == Balance(vals) + Delta(v)
    decreases |vals|
  {
    if vals != [] {
      assert (vals + [v])[1..] == vals[1..] + [v];
      BalanceAppend(vals[1..], v);
    } else {
      assert [v][1..] == [];
    }
  }

  /** The segments after appending one value: a separator opens a new segment, anything else extends the last. */
  function AppendToSegments(s: seq<seq<seq<byte>>>, v: seq<byte>): seq<seq<seq<byte>>>
    requires |s| >= 1
  {
    if IsSeparator(v) then s + [[]] else s[..|s| - 1] + [s[|s| - 1] + [v]]
  }

  lemma EmptyHeadAppend(t: seq<seq<seq<byte>>>, v: seq<byte>)
    requires |t| >= 1
    ensures [[]] + AppendToSegments(t, v) == AppendToSegments([[]] + t, v)
  {
    if !IsSeparator(v) {
      assert ([[]] + t)[..|t|] == [[]] + t[..|t| - 1];
    }
  }

  lemma ConsHeadAppend(h: seq<byte>, t: seq<seq<seq<byte>>>, v: seq<byte>)
    requires |t| >= 1
    ensures var t' := AppendToSegments(t, v);
      [[h] + t'[0]] + t'[1..] == AppendToSegments([[h] + t[0]] + t[1..], v)
  {
    var t' := AppendToSegments(t, v);
    if IsSeparator(v) {
      assert t'[0] == t[0] && t'[1..] == t[1..] + [[]];
    } else if |t| == 1 {
      assert t' == [t[0] + [v]];
      assert [h] + (t[0] + [v]) == ([h] + t[0]) + [v];
    } else {
      var u := [[h] + t[0]] + t[1..];
      assert u[..|u| - 1] == [[h] + t[0]] + t[1..|t| - 1] && u[|u| - 1] == t[|t| - 1];
      assert t'[0] == t[0];
      assert t'[1..] == t[1..|t| - 1] + [t[|t| - 1] + [v]];
      assert [[h] + t'[0]] + t'[1..] == u[..|u| - 1] + [u[|u| - 1] + [v]];
    }
  }

  lemma {:induction false} SplitAppend(vals: seq<seq<byte>>, v: seq<byte>)
    ensures Split(vals + [v]) == AppendToSegments(Split(vals), v)
    decreases |vals|
  {
    if vals == [] {
      assert [v][1..] == [];
      assert vals + [v] == [v];
      assert Split(vals) == [[]];
      if IsSeparator(v) {
        assert Split([v]) == [[]] + [[]];
        assert AppendToSegments([[]], v) == [[]] + [[]];
      } else {
        var one: seq<seq<byte>> := [v];
        assert one + [] == one;
        assert Split([v]) == [one + []] == [one];
        assert AppendToSegments([[]], v) == [[]][..0] + [[] + [v]] == [[v]];
        assert Split(vals + [v]) == AppendToSegments(Split(vals), v);
      }
    } else {
      var tail := vals[1..];
      assert (vals + [v])[1..] == tail + [v];
      assert (vals + [v])[0] == vals[0];
      SplitAppend(tail, v);
      if IsSeparator(vals[0]) {
        EmptyHeadAppend(Split(tail), v);
      } else {
        ConsHeadAppend(vals[0], Split(tail), v);
      }
    }
  }

  lemma {:induction false} WithoutOpenAppend(seg: seq<seq<byte>>, v: seq<byte>)
    ensures WithoutOpen(seg + [v]) == WithoutOpen(seg) + (if v == [LPAREN] then [] else [v])
    decreases |seg|
  {
    if seg == [] {
      assert [v][1..] == [];
    } else {
      assert (seg + [v])[1..] == seg[1..] + [v];
      WithoutOpenAppend(seg[1..], v);
    }
  }

  lemma {:induction false} DropLeadingSpaceAppend(seg: seq<seq<byte>>, v: seq<byte>)
    ensures DropLeadingSpace(seg + [v]) ==
      if DropLeadingSpace(seg) == [] && IsSpace(v) then [] else DropLeadingSpace(seg) + [v]
    decreases |seg|
  {
    if seg == [] {
      assert [v][1..] == [];
    } else if IsSpace(seg[0]) {
      assert (seg + [v])[1..] == seg[1..] + [v];
      DropLeadingSpaceAppend(seg[1..], v);
    }
  }

  lemma TrimAppend(seg: seq<seq<byte>>, v: seq<byte>)
    ensures Trim(seg + [v]) ==
      if v == [LPAREN] then Trim(seg)
      else if Trim(seg) == [] && IsSpace(v) then []
      else Trim(seg) + [v]
  {
    WithoutOpenAppend(seg, v);
    if v == [LPAREN] {
      assert WithoutOpen(seg) + [] == WithoutOpen(seg);
    } else {
      DropLeadingSpaceAppend(WithoutOpen(seg), v);
    }
  }

  lemma StaysOpenPrefix(vals: seq<seq<byte>>)
    requires vals != [] && StaysOpen(vals)
    ensures StaysOpen(vals[..|vals| - 1])
    ensures Balance(vals) >= 0 && Balance(vals[..|vals| - 1]) >= 0
  {
    var init := vals[..|vals| - 1];
    forall i | 0 <= i <= |init|
      ensures BalanceAt(init, i) >= 0
    {
      assert init[..i] == vals[..i];
      assert BalanceAt(vals, i) >= 0;
    }
    assert vals[..|vals|] == vals;
    assert BalanceAt(vals, |vals|) >= 0;
    assert BalanceAt(vals, |vals| - 1) >= 0;
  }

  /** What one value does to a collector, case by case. */
  lemma FeedEffect(c: Collector, v: seq<byte>)
    ensures Feed(c, v) ==
      if v == [RPAREN] && c.depth == 1 then Closed(c.args + [Join(c.current)])
      else Open(Collector(
        if IsSeparator(v) then c.args + [Join(c.current)] else c.args,
        if IsSeparator(v) then []
        else if v == [LPAREN] then c.current
        else if c.current == [] && IsSpace(v) then []
        else c.current + [v],
        c.depth + Delta(v)))
  {
    if IsSpace(v) {
      assert IsSpaceByte(v[0]);
    }
  }

  function LastSegment(vals: seq<seq<byte>>): seq<seq<byte>> {
    var s := Split(vals);
    s[|s| - 1]
  }

  lemma SegmentsAppend(vals: seq<seq<byte>>, v: seq<byte>)
    ensures Completed(vals + [v]) ==
      if IsSeparator(v) then Completed(vals) + [Join(Trim(LastSegment(vals)))] else Completed(vals)
    ensures LastSegment(vals + [v]) == if IsSeparator(v) then [] else LastSegment(vals) + [v]
  {
    SplitAppend(vals, v);
    var s := Split(vals);
    var s' := Split(vals + [v]);
    if IsSeparator(v) {
      assert s'[..|s'| - 1] == s;
      assert s[..|s| - 1] + [s[|s| - 1]] == s;
      assert ArgTexts(s) == ArgTexts(s[..|s| - 1]) + [Join(Trim(s[|s| - 1]))];
    } else {
      assert s'[..|s'| - 1] == s[..|s| - 1];
    }
  }

  /** The collector that the segments of `vals` describe. */
  function Described(vals: seq<seq<byte>>): Collector {
    Collector(Completed(vals), Trim(LastSegment(vals)), 1 + Balance(vals))
  }

  /** Feeding one more value that keeps the call open moves to the next described collector. */
  lemma CollectOne(init: seq<seq<byte>>, v: seq<byte>)
    requires Balance(init) >= 0 && Balance(init + [v]) >= 0
    ensures Feed(Described(init), v) == Open(Described(init + [v]))
  {
    FeedEffect(Described(init), v);
    BalanceAppend(init, v);
    SegmentsAppend(init, v);
    TrimAppend(LastSegment(init), v);
  }

  /**
   * Feeding token values that never reach the closing `)` leaves the call open with depth
   * `1 + Balance(vals)`, the arguments closed so far being exactly the trimmed segments
   * before the last separator, and the current argument the trimmed last segment.
   */
  lemma {:induction false} CollectsSplit(vals: seq<seq<byte>>)
    requires StaysOpen(vals)
    ensures FeedAll(Opened, vals) == Open(Collector(Completed(vals), Trim(LastSegment(vals)), 1 + Balance(vals)))
    decreases |vals|
  {
    if vals != [] {
      var init := vals[..|vals| - 1];
      var v := vals[|vals| - 1];
      assert vals == init + [v];
      StaysOpenPrefix(vals);
      CollectsSplit(init);
      assert FeedAll(Opened, vals) == Feed(Described(init), v);
      CollectOne(init, v);
    }
  }

  /**
   * The `)` that brings the depth from 1 to 0 ends the call, and the arguments are the
   * trimmed, joined segments between separators.
   */
  lemma ClosingParenEndsCall(vals: seq<seq<byte>>)
    requires StaysOpen(vals) && Balance(vals) == 0
    ensures FeedAll(Opened, vals + [[RPAREN]]) == Closed(Completed(vals + [[RPAREN]]))
  {
    var all := vals + [[RPAREN]];
    assert all[..|all| - 1] == vals;
    CollectsSplit(vals);
    var c := Collector(Completed(vals), Trim(LastSegment(vals)), 1 + Balance(vals));
    assert FeedAll(Opened, all) == Feed(c, [RPAREN]);
    FeedEffect(c, [RPAREN]);
    SegmentsAppend(vals, [RPAREN]);
  }

  /** A `)` at depth 2 or more closes an argument but not the call. */
  lemma InnerParenClosesArgument(c: Collector)
    requires c.depth >= 2
    ensures Feed(c, [RPAREN]) == Open(Collector(c.args + [Join(c.current)], [], c.depth - 1))
  {
  }

  /** Whitespace is skipped while the current argument is empty and kept once it is not. */
  lemma WhitespaceSkippedWhileEmpty(c: Collector, v: seq<byte>)
    requires IsSpace(v)
    ensures c.current == [] ==> Feed(c, v) == Open(c)
    ensures c.current != [] ==> Feed(c, v) == Open(c.(current := c.current + [v]))
  {
    assert IsSpaceByte(v[0]);
    assert v != [LPAREN] && v != [COMMA] && v != [RPAREN];
  }
}
