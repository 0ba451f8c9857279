/** What `Number(text)` makes of a text (ECMA-262, section 7.1.4.1), and the integer or real that a
    number is. */
module JsNumbers {
  import opened Options
  import opened Trimming
  import opened Utf16
  import opened Decimals

  const LOWER_X: Unit := 120
  const UPPER_X: Unit := 88
  const LOWER_O: Unit := 111
  const UPPER_O: Unit := 79
  const LOWER_B: Unit := 98
  const UPPER_B: Unit := 66

  /** Digits with a point anywhere among or around them, and an exponent. */
  function DecimalOf(negative: bool, t: Text): Option<Number> {
    var (whole, t1) := Span(t);
    var (fraction, t2) := if t1 != [] && t1[0] == DOT then Span(t1[1..]) else ([], t1);
    if whole + fraction == [] then None
    else match ParseExponent(t2)
      case Done(e, rest) =>
        if rest == [] then Some(MakeNumber(negative, whole + fraction, |whole| + e)) else None
      case Fail => None
  }

  function DigitOf(c: Unit): nat {
    if IsDigit(c) then c - 48
    else if 97 <= c <= 102 then c - 87
    else if 65 <= c <= 70 then c - 55
    else 99
  }

  /** The value of digits in some base. */
  function RadixValue(base: nat, t: Text): Option<nat> {
    if t == [] then Some(0)
    else match RadixValue(base, t[..|t| - 1])
      case Some(n) =>
        var d := DigitOf(t[|t| - 1]);
        if d < base then Some(Times(n, base) + d) else None
      case None => None
  }

  function Times(a: nat, b: nat): nat { a * b }

  function BaseOf(c: Unit): nat {
    if c == LOWER_X || c == UPPER_X then 16
    else if c == LOWER_O || c == UPPER_O then 8
    else if c == LOWER_B || c == UPPER_B then 2
    else 0
  }

  /** The number that a text spells; a blank text spells zero. */
  function NumberOf(text: Text): Option<Number> {
    var t := TrimWhere((c: Unit) => IsSpaceCode(c), text);
    if t == [] then Some(Zero)
    else if t[0] == MINUS then DecimalOf(true, t[1..])
    else if t[0] == PLUS then DecimalOf(false, t[1..])
    else if |t| > 2 && t[0] == ZERO && BaseOf(t[1]) > 0 then
      match RadixValue(BaseOf(t[1]), t[2..])
      case Some(n) => Some(MakeNumber(false, NatDigits(n), |NatDigits(n)|))
      case None => None
    else DecimalOf(false, t)
  }

  /** The integer that a number is, if it is one. */
  function Integer(x: Number): Option<int> {
    match x
    case Zero => Some(0)
    case Decimal(negative, digits, point) =>
      if point < |digits| then None
      else
        var n := DigitsValue(digits + Zeros(point - |digits|));
        Some(if negative then -n else n)
  }

  function TenTo(e: int): real
    decreases if e < 0 then -e else e
  {
    if e == 0 then 1.0 else if e > 0 then TenTo(e - 1) * 10.0 else TenTo(e + 1) / 10.0
  }

  function RealOf(x: Number): real {
    match x
    case Zero => 0.0
    case Decimal(negative, digits, point) =>
      var r := DigitsValue(digits) as real * TenTo(point - |digits|);
      if negative then -r else r
  }

  // ---------------------------------------------------------------- numbers of the language as texts

  lemma {:induction false} SpanLast(t: Text)
    ensures var (ds, rest) := Span(t);
      && ds + rest == t && (rest != [] ==> !IsDigit(rest[0]))
  {
    if t != [] && IsDigit(t[0]) {
      SpanLast(t[1..]);
      Regroup(t, Span(t[1..]).0, Span(t[1..]).1);
    }
  }

  lemma Regroup(t: Text, ds: Text, rest: Text)
    requires t != [] && ds + rest == t[1..]
    ensures [t[0]] + ds + rest == t
  {
    assert [t[0]] + ds + rest == [t[0]] + (ds + rest);
  }

  /** A number of the JSON grammar ends in a digit. */
  lemma EndsInDigit(negative: bool, t: Text)
    requires ParseUnsigned(negative, t).Done? && ParseUnsigned(negative, t).rest == []
    ensures t != [] && IsDigit(t[|t| - 1])
  {
    SpanLast(t);
    var (whole, t1) := Span(t);
    FractionEnds(t1);
    var t2 := ParseFraction(t1).rest;
    ExponentEnds(t2);
    if t2 != [] {
      assert t[|t| - 1] == t2[|t2| - 1];
    } else if t1 != [] {
      assert t[|t| - 1] == t1[|t1| - 1];
    } else {
      assert t == whole;
    }
  }

  lemma FractionEnds(t: Text)
    requires ParseFraction(t).Done?
    ensures var rest := ParseFraction(t).rest;
      && |rest| <= |t| && t[|t| - |rest|..] == rest && (rest == [] && t != [] ==> IsDigit(t[|t| - 1]))
  {
    if t != [] && t[0] == DOT {
      SpanLast(t[1..]);
      var (ds, rest) := Span(t[1..]);
      assert t == [t[0]] + ds + rest;
    }
  }

  lemma ExponentEnds(t: Text)
    requires ParseExponent(t).Done? && ParseExponent(t).rest == []
    ensures t != [] ==> IsDigit(t[|t| - 1])
  {
    if t != [] && (t[0] == LOWER_E || t[0] == UPPER_E) {
      var signed := |t| > 1 && (t[1] == MINUS || t[1] == PLUS);
      var body := if signed then t[2..] else t[1..];
      SpanLast(body);
      assert Span(body).0 == body;
    }
  }

  /** `Number` of a JSON number's text is the number that JSON reads. */
  lemma NumberOfJson(t: Text)
    requires ParseNumber(t).Done? && ParseNumber(t).rest == []
    ensures NumberOf(t) == Some(ParseNumber(t).value)
  {
    var negative := t[0] == MINUS;
    var u := if negative then t[1..] else t;
    EndsInDigit(negative, u);
    assert t[|t| - 1] == u[|u| - 1];
    NotTrimmed(t);
    DecimalOfJson(negative, u);
    hide TrimWhere, DecimalOf, MakeNumber;
    assert |t| > 2 && t[0] == ZERO && !negative ==> Span(t).0 == [ZERO] + Span(t[1..]).0;
  }

  /** A text from a digit or a minus sign to a digit has nothing to trim. */
  lemma NotTrimmed(t: Text)
    requires t != [] && (IsDigit(t[0]) || t[0] == MINUS) && IsDigit(t[|t| - 1])
    ensures TrimWhere((c: Unit) => IsSpaceCode(c), t) == t
  {
  }

  lemma DecimalOfJson(negative: bool, t: Text)
    requires ParseUnsigned(negative, t).Done? && ParseUnsigned(negative, t).rest == []
    ensures DecimalOf(negative, t) == Some(ParseUnsigned(negative, t).value)
  {
    hide MakeNumber;
  }

  /** `Number` undoes Number::toString. */
  lemma NumberOfPrinted(x: Number)
    ensures NumberOf(NumberText(x)) == Some(x)
  {
    hide NumberText, NumberOf, ParseNumber;
    assert NumberText(x) + [] == NumberText(x);
    NumberRoundTrip(x, []);
    NumberOfJson(NumberText(x));
  }
}
