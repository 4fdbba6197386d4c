/**
 * The part of Python's `int(bytes)` that `divert` relies on: surrounding ASCII whitespace
 * is ignored, one optional sign, then one or more decimal digits (leading zeros allowed).
 * Anything else is a `ValueError`, modelled as `None`.
 */
module Integers {
  import opened Bytes

  predicate IsSign(c: byte) {
    c == PLUS || c == MINUS
  }

  predicate AllDigits(s: seq<byte>) {
    forall i :: 0 <= i < |s| ==> IsDigit(s[i])
  }

  /** The value of a run of decimal digits, most significant first. */
  function Value(ds: seq<byte>): (n: nat)
    requires AllDigits(ds)
    ensures ds == [] ==> n == 0
  {
    if ds == [] then 0 else Value(ds[..|ds| - 1]) * 10 + (ds[|ds| - 1] - ZERO)
  }

  function DropLeadingSpace(s: seq<byte>): (r: seq<byte>)
    ensures EndsWith(s, r)
    ensures r == [] || !IsSpaceByte(r[0])
  {
    if s != [] && IsSpaceByte(s[0]) then
      var r := DropLeadingSpace(s[1..]);
      assert s[|s| - |r|..] == s[1..][|s[1..]| - |r|..];
      r
    else s
  }

  function DropTrailingSpace(s: seq<byte>): (r: seq<byte>)
    ensures |r| <= |s| && r == s[..|r|]
    ensures r == [] || !IsSpaceByte(r[|r| - 1])
  {
    if s != [] && IsSpaceByte(s[|s| - 1]) then DropTrailingSpace(s[..|s| - 1]) else s
  }

  /** `bytes.strip()` with no argument. */
  function Strip(s: seq<byte>): seq<byte> {
    DropTrailingSpace(DropLeadingSpace(s))
  }

  /** What `int` accepts once the whitespace is gone. */
  predicate IsLiteral(t: seq<byte>) {
    if t != [] && IsSign(t[0]) then |t| > 1 && AllDigits(t[1..]) else t != [] && AllDigits(t)
  }

  /** `int(s)`: the integer `s` spells, or `None` where Python raises `ValueError`. */
  function ParseInt(s: seq<byte>): (r: Option<int>)
    ensures r.Some? <==> IsLiteral(Strip(s))
  {
    var t := Strip(s);
    if t == [] then None
    else if IsSign(t[0]) then
      var ds := t[1..];
      if ds != [] && AllDigits(ds) then
        var v: int := Value(ds);
        Some(if t[0] == MINUS then -v else v)
      else None
    else if AllDigits(t) then Some(Value(t))
    else None
  }

  /** The shortest decimal spelling of a natural number. */
  function Digits(n: nat): (r: seq<byte>)
    ensures r != [] && AllDigits(r)
  {
    if n < 10 then [ZERO + n] else Digits(n / 10) + [ZERO + n % 10]
  }

  /** `str(n).encode()`: the canonical spelling of an integer. */
  function Decimal(n: int): (r: seq<byte>)
    ensures r != []
  {
    if n < 0 then [MINUS] + Digits(-n) else Digits(n)
  }

  lemma {:induction false} DigitsValue(n: nat)
    ensures Value(Digits(n)) == n
    decreases n
  {
    if n >= 10 {
      DigitsValue(n / 10);
      var ds := Digits(n);
      assert ds[..|ds| - 1] == Digits(n / 10);
    }
  }

  lemma StripWithoutSpace(t: seq<byte>)
    requires t != [] && !IsSpaceByte(t[0]) && !IsSpaceByte(t[|t| - 1])
    ensures Strip(t) == t
  {
  }

  /** Parsing undoes printing: `int(str(n)) == n`. */
  lemma ParseDecimal(n: int)
    ensures ParseInt(Decimal(n)) == Some(n)
  {
    var t := Decimal(n);
    var ds := Digits(if n < 0 then -n else n);
    DigitsValue(if n < 0 then -n else n);
    assert IsDigit(ds[0]) && IsDigit(ds[|ds| - 1]);
    assert t[|t| - 1] == ds[|ds| - 1];
    StripWithoutSpace(t);
    if n < 0 {
      assert t[1..] == ds;
    }
  }

  lemma {:induction false} DropLeadingSpaceOfPadded(pre: seq<byte>, t: seq<byte>)
    requires forall i :: 0 <= i < |pre| ==> IsSpaceByte(pre[i])
    requires t == [] || !IsSpaceByte(t[0])
    ensures DropLeadingSpace(pre + t) == t
    decreases |pre|
  {
    if pre != [] {
      assert (pre + t)[1..] == pre[1..] + t;
      DropLeadingSpaceOfPadded(pre[1..], t);
    } else {
      assert pre + t == t;
    }
  }

  lemma {:induction false} DropTrailingSpaceOfPadded(t: seq<byte>, post: seq<byte>)
    requires forall i :: 0 <= i < |post| ==> IsSpaceByte(post[i])
    requires t == [] || !IsSpaceByte(t[|t| - 1])
    ensures DropTrailingSpace(t + post) == t
    decreases |post|
  {
    if post != [] {
      var init := post[..|post| - 1];
      assert (t + post)[..|t + post| - 1] == t + init;
      DropTrailingSpaceOfPadded(t, init);
    } else {
      assert t + post == t;
    }
  }

  lemma StripPadded(pre: seq<byte>, t: seq<byte>, post: seq<byte>)
    requires forall i :: 0 <= i < |pre| ==> IsSpaceByte(pre[i])
    requires forall i :: 0 <= i < |post| ==> IsSpaceByte(post[i])
    requires t != [] && !IsSpaceByte(t[0]) && !IsSpaceByte(t[|t| - 1])
    ensures Strip(pre + t + post) == t
  {
    assert pre + t + post == pre + (t + post);
    DropLeadingSpaceOfPadded(pre, t + post);
    DropTrailingSpaceOfPadded(t, post);
  }

  /** A printed integer starts and ends with a byte that is not whitespace. */
  lemma DecimalEdges(n: int)
    ensures var t := Decimal(n); !IsSpaceByte(t[0]) && !IsSpaceByte(t[|t| - 1])
  {
    var t := Decimal(n);
    var ds := Digits(if n < 0 then -n else n);
    assert IsDigit(ds[0]) && IsDigit(ds[|ds| - 1]);
    assert t[|t| - 1] == ds[|ds| - 1];
  }

  /** `int` looks only at the stripped text. */
  lemma ParseSeesStripped(a: seq<byte>, b: seq<byte>)
    requires Strip(a) == Strip(b)
    ensures ParseInt(a) == ParseInt(b)
  {
  }

  /** Surrounding whitespace is ignored: `int(b' \n7\t') == 7`. */
  lemma PaddingIgnored(pre: seq<byte>, n: int, post: seq<byte>)
    requires forall i :: 0 <= i < |pre| ==> IsSpaceByte(pre[i])
    requires forall i :: 0 <= i < |post| ==> IsSpaceByte(post[i])
    ensures ParseInt(pre + Decimal(n) + post) == Some(n)
  {
    var t := Decimal(n);
    DecimalEdges(n);
    StripPadded(pre, t, post);
    StripWithoutSpace(t);
    ParseSeesStripped(pre + t + post, t);
    ParseDecimal(n);
  }

  /** A spelling `int` accepts that `str` would print back unchanged. */
  predicate IsCanonical(t: seq<byte>) {
    if t != [] && t[0] == MINUS then
      |t| > 1 && AllDigits(t[1..]) && t[1] != ZERO
    else
      t != [] && AllDigits(t) && (t[0] == ZERO ==> |t| == 1)
  }

  lemma {:induction false} ValuePositive(ds: seq<byte>)
    requires ds != [] && AllDigits(ds) && ds[0] != ZERO
    ensures Value(ds) >= 1
    decreases |ds|
  {
    var init := ds[..|ds| - 1];
    if init != [] {
      assert init[0] == ds[0];
      ValuePositive(init);
    }
  }

  lemma {:induction false} DigitsOfValue(ds: seq<byte>)
    requires ds != [] && AllDigits(ds) && (ds[0] == ZERO ==> |ds| == 1)
    ensures Digits(Value(ds)) == ds
    decreases |ds|
  {
    var init := ds[..|ds| - 1];
    var last := ds[|ds| - 1];
    if init != [] {
      assert init[0] == ds[0];
      ValuePositive(init);
      DigitsOfValue(init);
      var v := Value(ds);
      assert v / 10 == Value(init) && v % 10 == last - ZERO;
      assert ds == init + [last];
    }
  }

  /** Printing undoes parsing on canonical spellings: `str(int(t)) == t`. */
  lemma CanonicalRoundTrip(t: seq<byte>)
    requires IsCanonical(t)
    ensures ParseInt(t).Some? && Decimal(ParseInt(t).value) == t
  {
    assert IsDigit(t[|t| - 1]);
    if t[0] == MINUS {
      var ds := t[1..];
      assert ds[0] == t[1];
      assert IsDigit(ds[|ds| - 1]) && ds[|ds| - 1] == t[|t| - 1];
      StripWithoutSpace(t);
      ValuePositive(ds);
      DigitsOfValue(ds);
      assert t == [MINUS] + ds;
    } else {
      assert IsDigit(t[0]);
      StripWithoutSpace(t);
      DigitsOfValue(t);
    }
  }

  /** Leading zeros are accepted and do not change the value. */
  lemma {:induction false} LeadingZeroIgnored(ds: seq<byte>)
    requires ds != [] && AllDigits(ds)
    ensures AllDigits([ZERO] + ds) && Value([ZERO] + ds) == Value(ds)
    decreases |ds|
  {
    var z := [ZERO] + ds;
    assert AllDigits(z) by {
      forall i | 0 <= i < |z| ensures IsDigit(z[i]) {
        if i > 0 {
          assert z[i] == ds[i - 1];
        }
      }
    }
    var init := ds[..|ds| - 1];
    assert z[..|z| - 1] == [ZERO] + init;
    if init != [] {
      LeadingZeroIgnored(init);
    } else {
      assert Value([ZERO]) == 0;
    }
  }
}
