/** JSON numbers as exact decimals: the text that Number::toString (ECMA-262, section
    6.1.6.1.20) gives them, and the JSON number grammar (RFC 8259, section 6) read back. */
module Decimals {
  import opened Utf16

  /** A decimal digit, as its character. */
  type Digit = c: int | 48 <= c <= 57 witness 48

  /** Significant digits: no zero at either end. */
  type Significand = s: seq<Digit> | |s| > 0 && s[0] != ZERO && s[|s| - 1] != ZERO witness [49]

  /** Zero, or `0.digits` times ten to the power `point`, with a sign. */
  datatype Number = Zero | Decimal(negative: bool, digits: Significand, point: int)

  const MINUS: Unit := 45
  const PLUS: Unit := 43
  const DOT: Unit := 46
  const LOWER_E: Unit := 101
  const UPPER_E: Unit := 69
  const ZERO: Unit := 48

  predicate IsDigit(c: Unit) { 48 <= c <= 57 }

  /** No further character of a number can follow here. */
  predicate EndsNumber(t: Text) {
    t == [] || !(IsDigit(t[0]) || t[0] == DOT || t[0] == LOWER_E || t[0] == UPPER_E)
  }

  function Zeros(n: nat): seq<Digit> { seq(n, _ => ZERO) }

  function NatDigits(n: nat): (ds: seq<Digit>)
    ensures |ds| > 0 && DigitsValue(ds) == n
  {
    if n < 10 then [ZERO + n] else NatDigits(n / 10) + [ZERO + n % 10]
  }

  /** The value of a text of digits. */
  function DigitsValue(ds: Text): int {
    if ds == [] then 0 else DigitsValue(ds[..|ds| - 1]) * 10 + (ds[|ds| - 1] - ZERO)
  }

  function ExponentText(e: int): Text {
    [LOWER_E, if e < 0 then MINUS else PLUS] + NatDigits(if e < 0 then -e else e)
  }

  /** Number::toString for a positive decimal with `k` digits and decimal point `n`. */
  function UnsignedText(ds: Significand, n: int): Text {
    var k := |ds|;
    if k <= n <= 21 then ds + Zeros(n - k)
    else if 0 < n <= 21 then ds[..n] + [DOT] + ds[n..]
    else if -6 < n <= 0 then [ZERO, DOT] + Zeros(-n) + ds
    else if k == 1 then ds + ExponentText(n - 1)
    else ds[..1] + [DOT] + ds[1..] + ExponentText(n - 1)
  }

  function NumberText(x: Number): Text {
    match x
    case Zero => [ZERO]
    case Decimal(negative, digits, point) =>
      (if negative then [MINUS] else []) + UnsignedText(digits, point)
  }

  /** Reads the longest run of digits. */
  function Span(t: Text): (r: (seq<Digit>, Text))
    ensures |r.0| + |r.1| == |t|
  {
    if t == [] || !IsDigit(t[0]) then ([], t)
    else var (ds, rest) := Span(t[1..]); ([t[0]] + ds, rest)
  }

  /** Fraction digits: empty when there is no point, a failure when a point has no digit after it. */
  function ParseFraction(t: Text): (r: Parsed<seq<Digit>>)
    ensures r.Done? ==> |r.rest| <= |t|
  {
    if t == [] || t[0] != DOT then Done([], t)
    else
      var (ds, rest) := Span(t[1..]);
      if ds == [] then Fail else Done(ds, rest)
  }

  function ParseExponent(t: Text): (r: Parsed<int>)
    ensures r.Done? ==> |r.rest| <= |t|
  {
    if t == [] || (t[0] != LOWER_E && t[0] != UPPER_E) then Done(0, t)
    else
      var signed := |t| > 1 && (t[1] == MINUS || t[1] == PLUS);
      var (ds, rest) := Span(if signed then t[2..] else t[1..]);
      if ds == [] then Fail
      else Done(if signed && t[1] == MINUS then 0 - DigitsValue(ds) else DigitsValue(ds), rest)
  }

  /** The number with value `0.ds` times ten to the power `point`. */
  function MakeNumber(negative: bool, ds: seq<Digit>, point: int): Number {
    if ds == [] then Zero
    else if ds[0] == ZERO then MakeNumber(negative, ds[1..], point - 1)
    else if ds[|ds| - 1] == ZERO then MakeNumber(negative, ds[..|ds| - 1], point)
    else Decimal(negative, ds, point)
  }

  function ParseUnsigned(negative: bool, t: Text): (r: Parsed<Number>)
    ensures r.Done? ==> |r.rest| < |t|
  {
    var (whole, t1) := Span(t);
    if whole == [] || (|whole| > 1 && whole[0] == ZERO) then Fail
    else match ParseFraction(t1)
      case Fail => Fail
      case Done(fraction, t2) =>
        match ParseExponent(t2)
        case Fail => Fail
        case Done(e, t3) => Done(MakeNumber(negative, whole + fraction, |whole| + e), t3)
  }

  function ParseNumber(t: Text): (r: Parsed<Number>)
    ensures r.Done? ==> |r.rest| < |t|
  {
    if t != [] && t[0] == MINUS then ParseUnsigned(true, t[1..]) else ParseUnsigned(false, t)
  }

  lemma {:induction false} SpanDigits(ds: seq<Digit>, rest: Text)
    requires rest == [] || !IsDigit(rest[0])
    ensures Span(ds + rest) == (ds, rest)
  {
    if ds == [] {
      assert ds + rest == rest;
    } else {
      var t := ds + rest;
      assert t[1..] == ds[1..] + rest;
      SpanDigits(ds[1..], rest);
      assert ds == [t[0]] + ds[1..];
    }
  }

  lemma {:induction false} MakeNumberLeading(negative: bool, n: nat, ds: seq<Digit>, point: int)
    ensures MakeNumber(negative, Zeros(n) + ds, point) == MakeNumber(negative, ds, point - n)
  {
    if n == 0 {
      assert Zeros(0) + ds == ds;
    } else {
      assert (Zeros(n) + ds)[1..] == Zeros(n - 1) + ds;
      MakeNumberLeading(negative, n - 1, ds, point - 1);
    }
  }

  lemma {:induction false} MakeNumberTrailing(negative: bool, ds: Significand, n: nat, point: int)
    ensures MakeNumber(negative, ds + Zeros(n), point) == Decimal(negative, ds, point)
  {
    var all := ds + Zeros(n);
    if n == 0 {
      assert all == ds;
    } else {
      assert all[..|all| - 1] == ds + Zeros(n - 1);
      MakeNumberTrailing(negative, ds, n - 1, point);
    }
  }

  lemma ExponentRoundTrip(e: int, rest: Text)
    requires EndsNumber(rest)
    ensures ParseExponent(ExponentText(e) + rest) == Done(e, rest)
  {
    var ds := NatDigits(if e < 0 then -e else e);
    var t := ExponentText(e) + rest;
    assert t[2..] == ds + rest;
    SpanDigits(ds, rest);
  }

  function FractionText(ds: seq<Digit>): Text {
    if ds == [] then [] else [DOT] + ds
  }

  lemma FractionRoundTrip(fraction: seq<Digit>, tail: Text)
    requires tail == [] || !(IsDigit(tail[0]) || tail[0] == DOT)
    ensures ParseFraction(FractionText(fraction) + tail) == Done(fraction, tail)
  {
    if fraction == [] {
      assert FractionText(fraction) + tail == tail;
    } else {
      assert (FractionText(fraction) + tail)[1..] == fraction + tail;
      SpanDigits(fraction, tail);
    }
  }

  /** A whole part, an optional fraction and an optional exponent are read as such. */
  lemma PartsRoundTrip(negative: bool, whole: seq<Digit>, fraction: seq<Digit>, e: int, tail: Text, rest: Text,
                       t: Text, digits: seq<Digit>)
    requires whole != [] && (|whole| > 1 ==> whole[0] != ZERO)
    requires tail == [] || !(IsDigit(tail[0]) || tail[0] == DOT)
    requires ParseExponent(tail) == Done(e, rest)
    requires t == whole + (FractionText(fraction) + tail) && digits == whole + fraction
    ensures ParseUnsigned(negative, t) == Done(MakeNumber(negative, digits, |whole| + e), rest)
  {
    var t1 := FractionText(fraction) + tail;
    assert t1 == [] || !IsDigit(t1[0]);
    hide Span, ParseFraction, ParseExponent, MakeNumber, FractionText;
    SpanDigits(whole, t1);
    FractionRoundTrip(fraction, tail);
    assert Span(t) == (whole, t1);
  }

  lemma UnsignedRoundTrip(negative: bool, ds: Significand, n: int, rest: Text)
    requires EndsNumber(rest)
    ensures ParseUnsigned(negative, UnsignedText(ds, n) + rest) == Done(Decimal(negative, ds, n), rest)
  {
    if |ds| <= n <= 21 {
      WholeRoundTrip(negative, ds, n, rest);
    } else if 0 < n <= 21 {
      PointRoundTrip(negative, ds, n, rest);
    } else if -6 < n <= 0 {
      SmallRoundTrip(negative, ds, n, rest);
    } else {
      ScientificRoundTrip(negative, ds, n, rest);
    }
  }

  lemma PointRoundTrip(negative: bool, ds: Significand, n: int, rest: Text)
    requires EndsNumber(rest) && 0 < n <= 21 && n < |ds|
    ensures ParseUnsigned(negative, UnsignedText(ds, n) + rest) == Done(Decimal(negative, ds, n), rest)
  {
    assert ds[..n] + [DOT] + ds[n..] + rest == ds[..n] + (([DOT] + ds[n..]) + rest);
    assert ds[..n] + ds[n..] == ds;
    PartsRoundTrip(negative, ds[..n], ds[n..], 0, rest, rest, UnsignedText(ds, n) + rest, ds);
  }

  lemma ScientificShape(ds: Significand, e: Text, rest: Text)
    ensures (if |ds| == 1 then ds + e else ds[..1] + [DOT] + ds[1..] + e) + rest
         == ds[..1] + (FractionText(ds[1..]) + (e + rest))
  {
    if |ds| == 1 {
      assert ds[..1] == ds;
      assert FractionText(ds[1..]) + (e + rest) == e + rest;
      assert (ds + e) + rest == ds + (e + rest);
    } else {
      var f := [DOT] + ds[1..];
      assert ds[..1] + [DOT] + ds[1..] + e + rest == ds[..1] + (f + (e + rest));
    }
  }

  lemma ScientificRoundTrip(negative: bool, ds: Significand, n: int, rest: Text)
    requires EndsNumber(rest) && (n > 21 || n <= -6)
    ensures ParseUnsigned(negative, UnsignedText(ds, n) + rest) == Done(Decimal(negative, ds, n), rest)
  {
    var e := ExponentText(n - 1);
    var t := UnsignedText(ds, n) + rest;
    ScientificText(ds, n, rest);
    assert e[0] == LOWER_E && (e + rest)[0] == LOWER_E;
    assert MakeNumber(negative, ds, n) == Decimal(negative, ds, n);
    hide UnsignedText, ExponentText, MakeNumber, ParseUnsigned, ParseExponent, FractionText;
    ExponentRoundTrip(n - 1, rest);
    assert ds[..1] + ds[1..] == ds && |ds[..1]| == 1;
    PartsRoundTrip(negative, ds[..1], ds[1..], n - 1, e + rest, rest, t, ds);
  }

  lemma ScientificText(ds: Significand, n: int, rest: Text)
    requires n > 21 || n <= -6
    ensures UnsignedText(ds, n) + rest == ds[..1] + (FractionText(ds[1..]) + (ExponentText(n - 1) + rest))
  {
    hide ExponentText, FractionText;
    ScientificShape(ds, ExponentText(n - 1), rest);
  }

  lemma WholeRoundTrip(negative: bool, ds: Significand, n: int, rest: Text)
    requires EndsNumber(rest) && |ds| <= n <= 21
    ensures ParseUnsigned(negative, UnsignedText(ds, n) + rest) == Done(Decimal(negative, ds, n), rest)
  {
    var all := ds + Zeros(n - |ds|);
    assert all + rest == all + ([] + rest);
    assert all + [] == all;
    PartsRoundTrip(negative, all, [], 0, rest, rest, all + rest, all);
    MakeNumberTrailing(negative, ds, n - |ds|, n);
  }

  lemma SmallRoundTrip(negative: bool, ds: Significand, n: int, rest: Text)
    requires EndsNumber(rest) && -6 < n <= 0
    ensures ParseUnsigned(negative, UnsignedText(ds, n) + rest) == Done(Decimal(negative, ds, n), rest)
  {
    var fraction := Zeros(-n) + ds;
    assert MakeNumber(negative, ds, n) == Decimal(negative, ds, n) && ParseExponent(rest) == Done(0, rest);
    SmallText(ds, n, rest);
    OneMoreZero(-n, ds);
    hide UnsignedText, MakeNumber, ParseUnsigned, ParseExponent, FractionText, Zeros;
    PartsRoundTrip(negative, [ZERO], fraction, 0, rest, rest, UnsignedText(ds, n) + rest, Zeros(1 - n) + ds);
    MakeNumberLeading(negative, 1 - n, ds, 1);
  }

  lemma SmallText(ds: Significand, n: int, rest: Text)
    requires -6 < n <= 0
    ensures UnsignedText(ds, n) + rest == [ZERO] + (FractionText(Zeros(-n) + ds) + rest)
  {
    var fraction := Zeros(-n) + ds;
    assert UnsignedText(ds, n) == [ZERO, DOT] + Zeros(-n) + ds;
    assert FractionText(fraction) == [DOT] + fraction;
    hide UnsignedText, FractionText, Zeros;
    assert [ZERO, DOT] + Zeros(-n) + ds == [ZERO] + ([DOT] + fraction);
    assert [ZERO] + ([DOT] + fraction) + rest == [ZERO] + (([DOT] + fraction) + rest);
  }

  lemma OneMoreZero(n: nat, ds: seq<Digit>)
    ensures [ZERO] + (Zeros(n) + ds) == Zeros(n + 1) + ds
  {
    assert [ZERO] + Zeros(n) == Zeros(n + 1);
  }

  /** Reading a printed number gives the number back and stops where it ended. */
  lemma NumberRoundTrip(x: Number, rest: Text)
    requires EndsNumber(rest)
    ensures ParseNumber(NumberText(x) + rest) == Done(x, rest)
  {
    match x
    case Zero =>
      var t := NumberText(x) + rest;
      assert t == [ZERO] + rest;
      SpanDigits([ZERO], rest);
      assert [ZERO] + [] == Zeros(1) + [];
      MakeNumberLeading(false, 1, [], 1);
    case Decimal(negative, digits, point) =>
      UnsignedRoundTrip(negative, digits, point, rest);
      hide ParseUnsigned, UnsignedText;
      var t := NumberText(x) + rest;
      if negative {
        assert t[1..] == UnsignedText(digits, point) + rest;
      } else {
        assert t == UnsignedText(digits, point) + rest;
      }
  }

  /** The first character of a printed number. */
  lemma NumberTextStart(x: Number)
    ensures NumberText(x) != [] && (NumberText(x)[0] == MINUS || IsDigit(NumberText(x)[0]))
  {
  }
}
