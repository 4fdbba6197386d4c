/**
 * Where expanded text goes (`Parser.parse` and `_builtin_divert`): diversion 0 is the
 * output stream itself, a positive diversion buffers its text, and a negative one discards
 * it. When input is done the positive diversions are written out in increasing number and
 * emptied. A buffer holds the concatenation of the chunks appended to it.
 */
module Diversions {
  import opened Bytes

  datatype Sink = Sink(output: seq<byte>, current: int, buffers: map<int, seq<byte>>)

  /** Nothing written yet, diverting to the output stream. */
  const Start: Sink := Sink([], 0, map[])

  /** The text held for diversion `d` (the `defaultdict` gives an empty list for a new key). */
  function Held(b: map<int, seq<byte>>, d: int): seq<byte> {
    if d in b then b[d] else []
  }

  /** One token's text, sent to the current diversion. */
  function Write(s: Sink, v: seq<byte>): (r: Sink)
    ensures r.current == s.current
    ensures s.current == 0 ==> r.output == s.output + v && r.buffers == s.buffers
    ensures s.current > 0 ==> r.output == s.output && Held(r.buffers, s.current) == Held(s.buffers, s.current) + v
    ensures forall d :: d != s.current ==> Held(r.buffers, d) == Held(s.buffers, d)
    ensures s.current < 0 ==> r == s
  {
    if s.current == 0 then s.(output := s.output + v)
    else if s.current > 0 then s.(buffers := s.buffers[s.current := Held(s.buffers, s.current) + v])
    else s
  }

  /** `divert(n)`: later text goes to diversion `n`; nothing already written moves. */
  function Divert(s: Sink, d: int): (r: Sink)
    ensures r.current == d && r.output == s.output && r.buffers == s.buffers
  {
    s.(current := d)
  }

  // ----- the keys in increasing order (`sorted(self.diversions.keys())`) -----

  predicate Increasing(ks: seq<int>) {
    forall i, j :: 0 <= i < j < |ks| ==> ks[i] < ks[j]
  }

  lemma Pick<T>(s: set<T>) returns (x: T)
    requires s != {}
    ensures x in s
  {
    x :| x in s;
  }

  lemma {:induction false} LeastOf(keys: set<int>) returns (m: int)
    requires keys != {}
    ensures m in keys && forall k :: k in keys ==> m <= k
    decreases |keys|
  {
    var x := Pick(keys);
    if keys == {x} {
      m := x;
    } else {
      var m' := LeastOf(keys - {x});
      m := if x < m' then x else m';
      forall k | k in keys
        ensures m <= k
      {
        if k != x {
          assert k in keys - {x};
        }
      }
    }
  }

  lemma LeastExists(keys: set<int>)
    requires keys != {}
    ensures exists m :: m in keys && forall k :: k in keys ==> m <= k
  {
    var m := LeastOf(keys);
  }

  function Least(keys: set<int>): (m: int)
    requires keys != {}
    ensures m in keys && forall k :: k in keys ==> m <= k
  {
    LeastExists(keys);
    var m :| m in keys && forall k :: k in keys ==> m <= k;
    m
  }

  /** The elements of `keys`, each once, in increasing order. */
  function SortedKeys(keys: set<int>): (ks: seq<int>)
    ensures Increasing(ks)
    ensures forall k :: k in ks <==> k in keys
    ensures |ks| == |keys|
    decreases |keys|
  {
    if keys == {} then []
    else
      var m := Least(keys);
      var rest := SortedKeys(keys - {m});
      assert forall k :: k in rest ==> m < k;
      [m] + rest
  }

  function Elems(xs: seq<int>): set<int> {
    set k | k in xs
  }

  /** The head of an increasing sequence is its least element. */
  lemma HeadIsLeast(xs: seq<int>, k: int)
    requires Increasing(xs) && k in xs
    ensures xs[0] <= k
  {
    var i :| 0 <= i < |xs| && xs[i] == k;
  }

  /** The tail of an increasing sequence is increasing and holds every element but the head. */
  lemma IncreasingTail(xs: seq<int>)
    requires Increasing(xs) && xs != []
    ensures Increasing(xs[1..])
    ensures forall k :: k in xs[1..] <==> k in xs && k != xs[0]
  {
    forall k | k in xs[1..]
      ensures k in xs && k != xs[0]
    {
      var i :| 0 <= i < |xs[1..]| && xs[1..][i] == k;
      assert xs[i + 1] == k;
    }
    forall k | k in xs && k != xs[0]
      ensures k in xs[1..]
    {
      var i :| 0 <= i < |xs| && xs[i] == k;
      assert xs[1..][i - 1] == k;
    }
  }

  lemma ElemsCons(xs: seq<int>)
    requires xs != []
    ensures Elems(xs) == {xs[0]} + Elems(xs[1..])
  {
    assert xs == [xs[0]] + xs[1..];
  }

  /** An increasing sequence has no repeats, so it is as long as its set of elements is large. */
  lemma {:induction false} IncreasingCard(xs: seq<int>)
    requires Increasing(xs)
    ensures |Elems(xs)| == |xs|
    decreases |xs|
  {
    if xs != [] {
      IncreasingTail(xs);
      IncreasingCard(xs[1..]);
      ElemsCons(xs);
      assert xs[0] !in Elems(xs[1..]);
    }
  }

  lemma SameElems(xs: seq<int>, ys: seq<int>)
    requires forall k :: k in xs <==> k in ys
    ensures Elems(xs) == Elems(ys)
  {
    assert forall k :: k in Elems(xs) <==> k in Elems(ys);
  }

  /** Two increasing sequences with the same elements start alike. */
  lemma HeadsAgree(xs: seq<int>, ys: seq<int>)
    requires Increasing(xs) && Increasing(ys) && xs != [] && ys != []
    requires forall k :: k in xs <==> k in ys
    ensures xs[0] == ys[0]
  {
    assert xs[0] in xs && ys[0] in ys;
    HeadIsLeast(xs, ys[0]);
    HeadIsLeast(ys, xs[0]);
  }

  /** An increasing sequence is determined by its elements. */
  lemma {:induction false} IncreasingUnique(xs: seq<int>, ys: seq<int>)
    requires Increasing(xs) && Increasing(ys)
    requires forall k :: k in xs <==> k in ys
    ensures xs == ys
    decreases |xs|
  {
    IncreasingCard(xs);
    IncreasingCard(ys);
    SameElems(xs, ys);
    if xs != [] {
      HeadsAgree(xs, ys);
      IncreasingTail(xs);
      IncreasingTail(ys);
      IncreasingUnique(xs[1..], ys[1..]);
      assert xs == [xs[0]] + xs[1..] && ys == [ys[0]] + ys[1..];
    }
  }

  // ----- flushing at the end of input -----

  /** The buffers of `ks`, concatenated in the order of `ks`. */
  function Concat(b: map<int, seq<byte>>, ks: seq<int>): seq<byte> {
    if ks == [] then [] else Held(b, ks[0]) + Concat(b, ks[1..])
  }

  function Positive(b: map<int, seq<byte>>): set<int> {
    set k | k in b && k >= 1
  }

  /** Everything the positive diversions hold, in increasing diversion number. */
  function Flush(b: map<int, seq<byte>>): seq<byte> {
    Concat(b, SortedKeys(Positive(b)))
  }

  /** The text a run leaves behind once its diversions are flushed. */
  function FinalOutput(s: Sink): seq<byte> {
    s.output + Flush(s.buffers)
  }

  /** The final loop of `parse`: write out the positive diversions in order and empty them. */
  function Finish(s: Sink): (r: Sink)
    ensures r.output == FinalOutput(s)
    ensures r.current == s.current
    ensures forall d :: d >= 1 ==> Held(r.buffers, d) == []
    ensures forall d :: d < 1 ==> Held(r.buffers, d) == Held(s.buffers, d)
    ensures r.buffers.Keys == s.buffers.Keys
  {
    Sink(s.output + Flush(s.buffers), s.current,
      map k | k in s.buffers :: if k >= 1 then [] else s.buffers[k])
  }

  /** The diversions numbered below `d`, and those above it. */
  function Below(b: map<int, seq<byte>>, d: int): map<int, seq<byte>> {
    map k | k in b && k < d :: b[k]
  }

  function Above(b: map<int, seq<byte>>, d: int): map<int, seq<byte>> {
    map k | k in b && k > d :: b[k]
  }

  lemma {:induction false} ConcatAppend(b: map<int, seq<byte>>, xs: seq<int>, ys: seq<int>)
    ensures Concat(b, xs + ys) == Concat(b, xs) + Concat(b, ys)
    decreases |xs|
  {
    if xs == [] {
      assert xs + ys == ys;
    } else {
      assert (xs + ys)[1..] == xs[1..] + ys;
      ConcatAppend(b, xs[1..], ys);
    }
  }

  lemma {:induction false} ConcatAgree(b: map<int, seq<byte>>, b': map<int, seq<byte>>, ks: seq<int>)
    requires forall k :: k in ks ==> Held(b, k) == Held(b', k)
    ensures Concat(b, ks) == Concat(b', ks)
    decreases |ks|
  {
    if ks != [] {
      assert ks[0] in ks;
      assert forall k :: k in ks[1..] ==> k in ks;
      ConcatAgree(b, b', ks[1..]);
    }
  }

  lemma {:induction false} ConcatOfEmpties(b: map<int, seq<byte>>, ks: seq<int>)
    requires forall k :: k in ks ==> Held(b, k) == []
    ensures Concat(b, ks) == []
    decreases |ks|
  {
    if ks != [] {
      assert ks[0] in ks;
      assert forall k :: k in ks[1..] ==> k in ks;
      ConcatOfEmpties(b, ks[1..]);
    }
  }

  lemma IncreasingAround(lo: seq<int>, mid: seq<int>, hi: seq<int>, d: int)
    requires Increasing(lo) && Increasing(hi) && (mid == [] || mid == [d])
    requires forall k :: k in lo ==> k < d
    requires forall k :: k in hi ==> k > d
    ensures Increasing(lo + mid + hi)
  {
    var all := lo + mid + hi;
    forall i, j | 0 <= i < j < |all|
      ensures all[i] < all[j]
    {
      if j < |lo| {
        assert all[i] == lo[i] && all[j] == lo[j];
      } else if i >= |lo| + |mid| {
        assert all[i] == hi[i - |lo| - |mid|] && all[j] == hi[j - |lo| - |mid|];
      } else {
        if i < |lo| {
          assert all[i] == lo[i] && lo[i] in lo;
        } else {
          assert all[i] == d;
        }
        if j < |lo| + |mid| {
          assert all[j] == d;
        } else {
          assert all[j] == hi[j - |lo| - |mid|];
          assert hi[j - |lo| - |mid|] in hi;
        }
      }
    }
  }

  /** The sorted keys split around `d`: those below it, then `d` if present, then those above. */
  lemma SortedKeysSplit(keys: set<int>, below: set<int>, above: set<int>, d: int)
    requires forall k :: k in below <==> k in keys && k < d
    requires forall k :: k in above <==> k in keys && k > d
    ensures SortedKeys(keys) == SortedKeys(below) + (if d in keys then [d] else []) + SortedKeys(above)
  {
    var lo := SortedKeys(below);
    var mid: seq<int> := if d in keys then [d] else [];
    var hi := SortedKeys(above);
    IncreasingAround(lo, mid, hi, d);
    forall k
      ensures k in lo + mid + hi <==> k in SortedKeys(keys)
    {
      assert k in lo + mid + hi <==> k in lo || k in mid || k in hi;
    }
    IncreasingUnique(SortedKeys(keys), lo + mid + hi);
  }

  lemma BelowFacts(b: map<int, seq<byte>>, d: int)
    ensures forall k :: k in Positive(Below(b, d)) <==> k in Positive(b) && k < d
    ensures forall k :: k < d ==> Held(Below(b, d), k) == Held(b, k)
  {
  }

  lemma AboveFacts(b: map<int, seq<byte>>, d: int)
    ensures forall k :: k in Positive(Above(b, d)) <==> k in Positive(b) && k > d
    ensures forall k :: k > d ==> Held(Above(b, d), k) == Held(b, k)
  {
  }

  lemma FlushAsThreeParts(b: map<int, seq<byte>>, d: int)
    ensures Flush(b) ==
      Concat(b, SortedKeys(Positive(Below(b, d)))) + Concat(b, if d in Positive(b) then [d] else [])
        + Concat(b, SortedKeys(Positive(Above(b, d))))
  {
    BelowFacts(b, d);
    AboveFacts(b, d);
    var lo := SortedKeys(Positive(Below(b, d)));
    var mid: seq<int> := if d in Positive(b) then [d] else [];
    var hi := SortedKeys(Positive(Above(b, d)));
    SortedKeysSplit(Positive(b), Positive(Below(b, d)), Positive(Above(b, d)), d);
    ConcatAppend(b, lo + mid, hi);
    ConcatAppend(b, lo, mid);
  }

  lemma LowerPart(b: map<int, seq<byte>>, d: int)
    ensures Concat(b, SortedKeys(Positive(Below(b, d)))) == Flush(Below(b, d))
  {
    BelowFacts(b, d);
    ConcatAgree(b, Below(b, d), SortedKeys(Positive(Below(b, d))));
  }

  lemma UpperPart(b: map<int, seq<byte>>, d: int)
    ensures Concat(b, SortedKeys(Positive(Above(b, d)))) == Flush(Above(b, d))
  {
    AboveFacts(b, d);
    ConcatAgree(b, Above(b, d), SortedKeys(Positive(Above(b, d))));
  }

  lemma MiddlePart(b: map<int, seq<byte>>, d: int)
    requires d >= 1
    ensures Concat(b, if d in Positive(b) then [d] else []) == Held(b, d)
  {
    if d in Positive(b) {
      assert Concat(b, [d]) == Held(b, d) + Concat(b, []);
    }
  }

  /**
   * The flushed text around diversion `d`: the lower-numbered diversions first, then `d`,
   * then the higher-numbered ones.
   */
  lemma FlushSplit(b: map<int, seq<byte>>, d: int)
    requires d >= 1
    ensures Flush(b) == Flush(Below(b, d)) + Held(b, d) + Flush(Above(b, d))
  {
    FlushAsThreeParts(b, d);
    LowerPart(b, d);
    MiddlePart(b, d);
    UpperPart(b, d);
  }

  lemma UpdateOutside(b: map<int, seq<byte>>, d: int, x: seq<byte>)
    ensures Below(b[d := x], d) == Below(b, d)
    ensures Above(b[d := x], d) == Above(b, d)
  {
  }

  lemma Regroup(a: seq<byte>, lo: seq<byte>, h: seq<byte>, v: seq<byte>, hi: seq<byte>)
    ensures a + (lo + (h + v) + hi) == a + lo + h + v + hi
  {
  }

  lemma WriteToPositive(s: Sink, v: seq<byte>)
    requires s.current >= 1
    ensures FinalOutput(Write(s, v)) ==
      s.output + Flush(Below(s.buffers, s.current)) + Held(s.buffers, s.current) + v + Flush(Above(s.buffers, s.current))
  {
    var d := s.current;
    var x := Held(s.buffers, d) + v;
    var b' := s.buffers[d := x];
    assert Write(s, v) == Sink(s.output, d, b');
    FlushSplit(b', d);
    UpdateOutside(s.buffers, d, x);
    assert Held(b', d) == x;
    assert Flush(b') == Flush(Below(s.buffers, d)) + x + Flush(Above(s.buffers, d));
    Regroup(s.output, Flush(Below(s.buffers, d)), Held(s.buffers, d), v, Flush(Above(s.buffers, d)));
  }

  /**
   * Where a write ends up in the final output: after everything already written and,
   * for a positive diversion, after every lower-numbered diversion and before every
   * higher-numbered one; a negative diversion discards it.
   */
  lemma WriteLandsInOrder(s: Sink, v: seq<byte>)
    ensures s.current == 0 ==> FinalOutput(Write(s, v)) == s.output + v + Flush(s.buffers)
    ensures s.current < 0 ==> FinalOutput(Write(s, v)) == FinalOutput(s)
    ensures s.current >= 1 ==>
      FinalOutput(Write(s, v)) ==
        s.output + Flush(Below(s.buffers, s.current)) + Held(s.buffers, s.current) + v + Flush(Above(s.buffers, s.current))
  {
    if s.current >= 1 {
      WriteToPositive(s, v);
    }
  }

  /** Finishing twice writes nothing more: every positive diversion was emptied. */
  lemma FinishIsIdempotent(s: Sink)
    ensures FinalOutput(Finish(s)) == Finish(s).output
    ensures Finish(Finish(s)).buffers == Finish(s).buffers
  {
    var r := Finish(s);
    var ks := SortedKeys(Positive(r.buffers));
    ConcatOfEmpties(r.buffers, ks);
  }
}
