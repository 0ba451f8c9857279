/** The JSON grammar (RFC 8259) as a relation between texts and syntax trees, and the reading of white
    space, strings and numbers against it. */
module JsonGrammar {
  import opened Options
  import opened Utf16
  import opened Decimals
  import opened JsNumbers
  import opened Json

  // ---------------------------------------------------------------- the grammar

  /** Insignificant white space (RFC 8259, section 2). */
  predicate IsBlank(u: Unit) { u == 0x20 || u == 0x09 || u == 0x0A || u == 0x0D }

  ghost predicate Blank(t: Text) { forall u :: u in t ==> IsBlank(u) }

  ghost predicate WritesHex(t: Text, c: Unit) {
    && |t| == 4 && (forall i :: 0 <= i < 4 ==> HexValue(t[i]) >= 0)
    && c == HexValue(t[0]) * 4096 + HexValue(t[1]) * 256 + HexValue(t[2]) * 16 + HexValue(t[3])
  }

  /** The letter behind a backslash and the character that it stands for. */
  ghost predicate ShortEscape(letter: Unit, c: Unit) {
    || (letter == c && letter in {0x22, 0x5C, 0x2F})
    || (letter == 0x62 && c == 0x08) || (letter == 0x66 && c == 0x0C) || (letter == 0x6E && c == 0x0A)
    || (letter == 0x72 && c == 0x0D) || (letter == 0x74 && c == 0x09)
  }

  /** One character of a string (RFC 8259, section 7). */
  ghost predicate WritesUnit(t: Text, c: Unit) {
    || (t == [c] && c >= 0x20 && c != QUOTE && c != BACKSLASH)
    || (|t| == 2 && t[0] == BACKSLASH && ShortEscape(t[1], c))
    || (|t| == 6 && t[0] == BACKSLASH && t[1] == LOWER_U && WritesHex(t[2..], c))
  }

  ghost predicate WritesUnits(t: Text, s: Text)
    decreases |s|
  {
    if s == [] then t == []
    else exists a, b :: t == a + b && WritesUnit(a, s[0]) && WritesUnits(b, s[1..])
  }

  ghost predicate WritesString(t: Text, s: Text) {
    exists body :: t == [QUOTE] + body + [QUOTE] && WritesUnits(body, s)
  }

  ghost predicate WritesExponent(t: Text, e: int) {
    || (t == [] && e == 0)
    || exists mark: Unit, sign: Text, ds: seq<Digit> :: ExponentOf(t, e, mark, sign, ds)
  }

  ghost predicate ExponentOf(t: Text, e: int, mark: Unit, sign: Text, ds: seq<Digit>) {
    && t == [mark] + sign + ds && mark in {LOWER_E, UPPER_E} && sign in {[], [PLUS], [MINUS]} && ds != []
    && e == if sign == [MINUS] then -DigitsValue(ds) else DigitsValue(ds)
  }

  /** A number (RFC 8259, section 6) and its value. */
  ghost predicate WritesNumber(t: Text, x: Number) {
    exists negative: bool, whole: seq<Digit>, fraction: seq<Digit>, tail: Text, e: int ::
      NumberOfParts(t, x, negative, whole, fraction, tail, e)
  }

  ghost predicate NumberOfParts(
      t: Text, x: Number, negative: bool, whole: seq<Digit>, fraction: seq<Digit>, tail: Text, e: int) {
    && whole != [] && (|whole| > 1 ==> whole[0] != ZERO) && WritesExponent(tail, e)
    && t == (if negative then [MINUS] else []) + whole + (if fraction == [] then [] else [DOT] + fraction) + tail
    && x == MakeNumber(negative, whole + fraction, |whole| + e)
  }

  /** The text writes the tree. */
  ghost predicate Writes(t: Text, v: Json)
    decreases |t|, 0
  {
    match v
    case Null => t == NULL_TEXT
    case Bool(flag) => t == if flag then TRUE_TEXT else FALSE_TEXT
    case Num(number) => WritesNumber(t, number)
    case Str(text) => WritesString(t, text)
    case Arr(items) =>
      exists inner :: t == [LBRACKET] + inner + [RBRACKET]
                      && if items == [] then Blank(inner) else WritesItems(inner, items)
    case Obj(fields) =>
      exists inner :: t == [LBRACE] + inner + [RBRACE]
                      && if fields == [] then Blank(inner) else WritesMembers(inner, fields)
  }

  /** With white space around it. */
  ghost predicate WritesPadded(t: Text, v: Json)
    decreases |t|, 1
  {
    exists pre, mid, post :: t == pre + mid + post && Blank(pre) && Writes(mid, v) && Blank(post)
  }

  /** One value or several, with commas between them. */
  ghost predicate WritesItems(t: Text, items: seq<Json>)
    requires items != []
    decreases |t|, 2
  {
    if |items| == 1 then WritesPadded(t, items[0])
    else exists a, b :: t == a + [COMMA] + b && WritesPadded(a, items[0]) && WritesItems(b, items[1..])
  }

  ghost predicate WritesMember(t: Text, f: (Text, Json))
    decreases |t|, 2
  {
    exists pre, key, mid, value ::
      t == pre + key + mid + [COLON] + value
      && Blank(pre) && WritesString(key, f.0) && Blank(mid) && WritesPadded(value, f.1)
  }

  ghost predicate WritesMembers(t: Text, fields: seq<(Text, Json)>)
    requires fields != []
    decreases |t|, 3
  {
    if |fields| == 1 then WritesMember(t, fields[0])
    else exists a, b :: t == a + [COMMA] + b && WritesMember(a, fields[0]) && WritesMembers(b, fields[1..])
  }

  // ---------------------------------------------------------------- white space

  lemma {:induction false} SkipSound(t: Text) returns (pre: Text)
    ensures t == pre + SkipSpace(t) && Blank(pre)
    ensures SkipSpace(t) == [] || !IsBlank(SkipSpace(t)[0])
  {
    if t != [] && IsBlank(t[0]) {
      var rest := SkipSound(t[1..]);
      pre := [t[0]] + rest;
      assert t == [t[0]] + t[1..];
    } else {
      pre := [];
    }
  }

  lemma {:induction false} SkipComplete(pre: Text, t: Text)
    requires Blank(pre) && (t == [] || !IsBlank(t[0]))
    ensures SkipSpace(pre + t) == t
  {
    if pre == [] {
      assert pre + t == t;
    } else {
      assert pre[0] in pre && forall u :: u in pre[1..] ==> u in pre;
      assert (pre + t)[1..] == pre[1..] + t;
      SkipComplete(pre[1..], t);
    }
  }

  // ---------------------------------------------------------------- strings

  lemma EscapeSound(t: Text) returns (a: Text)
    requires ParseEscape(t).Done?
    ensures t == a + ParseEscape(t).rest && WritesUnit([BACKSLASH] + a, ParseEscape(t).value)
  {
    if t[0] == LOWER_U {
      a := t[..5];
      assert ([BACKSLASH] + a)[2..] == t[1..5] && t[1..][..4] == t[1..5];
      assert t == a + t[1..][4..];
      assert forall i :: 0 <= i < 4 ==> t[1..5][i] == t[1..][i];
    } else {
      a := t[..1];
      assert t == a + t[1..];
    }
  }

  lemma MoreUnits(a: Text, c: Unit, b: Text, s: Text)
    requires WritesUnit(a, c) && WritesUnits(b, s)
    ensures WritesUnits(a + b, [c] + s)
  {
    hide WritesUnit;
    assert ([c] + s)[1..] == s;
  }

  lemma {:induction false} UnitsSound(t: Text) returns (body: Text)
    requires ParseUnits(t).Done?
    ensures t == body + [QUOTE] + ParseUnits(t).rest && WritesUnits(body, ParseUnits(t).value)
    decreases |t|
  {
    hide ParseEscape, WritesUnits;
    assert t == [t[0]] + t[1..];
    if t[0] == QUOTE {
      body := [];
      NoUnits();
    } else if t[0] == BACKSLASH {
      var a := EscapeSound(t[1..]);
      var (c, t1) := (ParseEscape(t[1..]).value, ParseEscape(t[1..]).rest);
      var b := UnitsSound(t1);
      body := ([BACKSLASH] + a) + b;
      MoreUnits([BACKSLASH] + a, c, b, ParseUnits(t1).value);
      assert ParseUnits(t) == Done([c] + ParseUnits(t1).value, ParseUnits(t1).rest);
      hide ParseUnits;
      UnitsText(a, b, ParseUnits(t1).rest);
    } else {
      var b := UnitsSound(t[1..]);
      body := [t[0]] + b;
      MoreUnits([t[0]], t[0], b, ParseUnits(t[1..]).value);
      assert ParseUnits(t) == Done([t[0]] + ParseUnits(t[1..]).value, ParseUnits(t[1..]).rest);
      hide ParseUnits;
    }
  }

  lemma NoUnits()
    ensures WritesUnits([], [])
  {
  }

  lemma UnitsText(a: Text, b: Text, rest: Text)
    ensures [BACKSLASH] + (a + (b + [QUOTE] + rest)) == (([BACKSLASH] + a) + b) + [QUOTE] + rest
  {
  }

  lemma EscapeComplete(a: Text, c: Unit, rest: Text)
    requires WritesUnit(a, c) && a[0] == BACKSLASH
    ensures ParseEscape(a[1..] + rest) == Done(c, rest)
  {
    var t := a[1..] + rest;
    if |a| == 2 {
      assert t[1..] == rest;
    } else {
      assert t[1..] == a[2..] + rest && t[1..][4..] == rest;
      assert forall i :: 0 <= i < 4 ==> t[1..][i] == a[2..][i];
    }
  }

  lemma UnitComplete(a: Text, c: Unit, tail: Text)
    requires WritesUnit(a, c)
    ensures ParseUnits(a + tail) == match ParseUnits(tail)
                                    case Done(s, rest) => Done([c] + s, rest)
                                    case Fail => Fail
  {
    if a[0] == BACKSLASH {
      EscapeComplete(a, c, tail);
      assert (a + tail)[1..] == a[1..] + tail;
    } else {
      assert (a + tail)[1..] == tail;
    }
  }

  lemma Split(a: Text, b: Text, c: Text, d: Text)
    ensures a + b + c + d == a + (b + c + d)
  {
  }

  lemma {:induction false} UnitsComplete(body: Text, s: Text, rest: Text)
    requires WritesUnits(body, s)
    ensures ParseUnits(body + [QUOTE] + rest) == Done(s, rest)
    decreases |s|
  {
    if s == [] {
      assert (body + [QUOTE] + rest)[1..] == rest;
    } else {
      hide WritesUnit, ParseUnits;
      var a, b :| body == a + b && WritesUnit(a, s[0]) && WritesUnits(b, s[1..]);
      hide WritesUnits;
      UnitsComplete(b, s[1..], rest);
      UnitComplete(a, s[0], b + [QUOTE] + rest);
      Split(a, b, [QUOTE], rest);
      assert [s[0]] + s[1..] == s;
    }
  }

  // ---------------------------------------------------------------- numbers

  lemma Regrouped(a: Text, b: Text, c: Text, d: Text)
    ensures a + b + (c + d) == (a + b + c) + d
  {
  }

  /** An exponent behind its mark, with the sign if there is one. */
  lemma ExponentRead(t: Text) returns (sign: Text, digits: Text)
    requires t != [] && t[0] in {LOWER_E, UPPER_E} && ParseExponent(t).Done?
    ensures t == [t[0]] + sign + digits && (sign == [] || sign == [PLUS] || sign == [MINUS])
    ensures Span(digits).0 != []
    ensures var (ds, rest) := Span(digits);
      ParseExponent(t) == Done(if sign == [MINUS] then 0 - DigitsValue(ds) else DigitsValue(ds), rest)
  {
    hide Span, DigitsValue;
    if |t| > 1 && (t[1] == MINUS || t[1] == PLUS) {
      sign, digits := [t[1]], t[2..];
    } else {
      sign, digits := [], t[1..];
    }
  }

  lemma ExponentSound(t: Text) returns (tail: Text)
    requires ParseExponent(t).Done?
    ensures t == tail + ParseExponent(t).rest && WritesExponent(tail, ParseExponent(t).value)
  {
    if t == [] || (t[0] != LOWER_E && t[0] != UPPER_E) {
      tail := [];
    } else {
      hide DigitsValue, Span, ParseExponent;
      var sign, digits := ExponentRead(t);
      SpanLast(digits);
      var (ds, rest) := Span(digits);
      tail := [t[0]] + sign + ds;
      Regrouped([t[0]], sign, ds, rest);
      assert ExponentOf(tail, ParseExponent(t).value, t[0], sign, ds);
    }
  }

  lemma FractionSound(t: Text)
    requires ParseFraction(t).Done?
    ensures t == FractionText(ParseFraction(t).value) + ParseFraction(t).rest
  {
    if t != [] && t[0] == DOT {
      SpanLast(t[1..]);
      assert t == [DOT] + t[1..];
    }
  }

  lemma UnsignedSound(negative: bool, t: Text) returns (a: Text)
    requires ParseUnsigned(negative, t).Done?
    ensures t == a + ParseUnsigned(negative, t).rest
    ensures WritesNumber((if negative then [MINUS] else []) + a, ParseUnsigned(negative, t).value)
  {
    SpanLast(t);
    hide Span, ParseFraction, ParseExponent, MakeNumber, FractionText, WritesExponent;
    var (whole, t1) := Span(t);
    FractionSound(t1);
    var fraction, t2 := ParseFraction(t1).value, ParseFraction(t1).rest;
    var tail := ExponentSound(t2);
    var e, rest := ParseExponent(t2).value, ParseExponent(t2).rest;
    a := whole + FractionText(fraction) + tail;
    Regrouped(whole, FractionText(fraction), tail, rest);
    assert t == whole + (FractionText(fraction) + (tail + rest));
    assert t == whole + FractionText(fraction) + (tail + rest);
    NumberShape(negative, whole, fraction, tail, e);
  }

  lemma NumberShape(negative: bool, whole: seq<Digit>, fraction: seq<Digit>, tail: Text, e: int)
    requires whole != [] && (|whole| > 1 ==> whole[0] != ZERO) && WritesExponent(tail, e)
    ensures WritesNumber((if negative then [MINUS] else []) + (whole + FractionText(fraction) + tail),
                         MakeNumber(negative, whole + fraction, |whole| + e))
  {
    hide WritesExponent, MakeNumber;
    var minus: Text := if negative then [MINUS] else [];
    var t := minus + (whole + FractionText(fraction) + tail);
    assert t == minus + whole + (if fraction == [] then [] else [DOT] + fraction) + tail;
    assert NumberOfParts(t, MakeNumber(negative, whole + fraction, |whole| + e), negative, whole, fraction, tail, e);
  }

  lemma NumberSound(t: Text) returns (a: Text)
    requires ParseNumber(t).Done?
    ensures t == a + ParseNumber(t).rest && WritesNumber(a, ParseNumber(t).value)
  {
    if t != [] && t[0] == MINUS {
      var b := UnsignedSound(true, t[1..]);
      a := [MINUS] + b;
      assert t == [t[0]] + t[1..];
    } else {
      a := UnsignedSound(false, t);
      assert [] + a == a;
    }
  }

  lemma ExponentComplete(tail: Text, e: int, rest: Text)
    requires WritesExponent(tail, e) && EndsNumber(rest)
    ensures ParseExponent(tail + rest) == Done(e, rest)
    ensures tail + rest == [] || !(IsDigit((tail + rest)[0]) || (tail + rest)[0] == DOT)
  {
    if tail == [] {
      assert tail + rest == rest;
    } else {
      var mark: Unit, sign: Text, ds: seq<Digit> :| ExponentOf(tail, e, mark, sign, ds);
      hide DigitsValue, Span;
      SpanDigits(ds, rest);
      ExponentText3(mark, sign, ds, rest);
    }
  }

  lemma ExponentText3(mark: Unit, sign: Text, ds: seq<Digit>, rest: Text)
    requires |sign| <= 1 && ds != []
    ensures var t := [mark] + sign + ds + rest; t[0] == mark && t[1..] == sign + (ds + rest)
    ensures var t := [mark] + sign + ds + rest; if sign == [] then t[1..] == ds + rest && t[1] == ds[0]
                                                else t[1] == sign[0] && t[2..] == ds + rest
  {
  }

  lemma NumberComplete(a: Text, x: Number, rest: Text)
    requires WritesNumber(a, x) && EndsNumber(rest)
    ensures a != [] && (a[0] == MINUS || IsDigit(a[0])) && ParseNumber(a + rest) == Done(x, rest)
  {
    var negative: bool, whole: seq<Digit>, fraction: seq<Digit>, tail: Text, e: int :|
      NumberOfParts(a, x, negative, whole, fraction, tail, e);
    ExponentComplete(tail, e, rest);
    var f := FractionText(fraction);
    assert f == if fraction == [] then [] else [DOT] + fraction;
    var t := whole + (f + (tail + rest));
    hide ParseExponent, FractionText, MakeNumber, WritesExponent, ParseUnsigned, DigitsValue, WritesNumber;
    PartsRoundTrip(negative, whole, fraction, e, tail + rest, rest, t, whole + fraction);
    assert t[0] == whole[0];
    if negative {
      SignedText(whole, f, tail, rest);
      assert a == [MINUS] + whole + f + tail;
    } else {
      UnsignedText4(whole, f, tail, rest);
      assert a == whole + f + tail by { assert [] + whole == whole; }
      assert a + rest == t;
    }
  }

  lemma SignedText(whole: Text, f: Text, tail: Text, rest: Text)
    ensures var t := [MINUS] + whole + f + tail + rest; t[0] == MINUS && t[1..] == whole + (f + (tail + rest))
  {
  }

  lemma UnsignedText4(whole: Text, f: Text, tail: Text, rest: Text)
    ensures whole + f + tail + rest == whole + (f + (tail + rest))
  {
  }

  lemma TenToStep(e: int)
    ensures TenTo(e + 1) == TenTo(e) * 10.0
  {
  }

  lemma {:induction false} LeadingZero(ds: seq<Digit>)
    requires ds != [] && ds[0] == ZERO
    ensures DigitsValue(ds) == DigitsValue(ds[1..])
  {
    if |ds| > 1 {
      LeadingZero(ds[..|ds| - 1]);
      assert ds[..|ds| - 1][1..] == ds[1..][..|ds| - 2];
    } else {
      assert ds[..0] == [] == ds[1..];
    }
  }

  /** A whole number times a power of ten, with a sign. */
  function Scaled(negative: bool, n: int, e: int): real {
    var r := n as real * TenTo(e);
    if negative then -r else r
  }

  lemma ScaledStep(negative: bool, n: int, e: int)
    ensures Scaled(negative, n, e + 1) == Scaled(negative, n * 10, e)
  {
    TenToStep(e);
    hide TenTo;
    var x := TenTo(e);
    assert (n * 10) as real == n as real * 10.0;
    assert n as real * (x * 10.0) == (n as real * 10.0) * x;
  }

  lemma ScaledNothing(negative: bool, e: int)
    ensures Scaled(negative, 0, e) == 0.0
  {
  }

  lemma DecimalScaled(x: Number)
    requires x.Decimal?
    ensures RealOf(x) == Scaled(x.negative, DigitsValue(x.digits), x.point - |x.digits|)
  {
  }

  /** The number of some digits with a point is what they say, zeros at the ends or not. */
  lemma {:induction false} MakeNumberValue(negative: bool, ds: seq<Digit>, point: int)
    ensures RealOf(MakeNumber(negative, ds, point)) == Scaled(negative, DigitsValue(ds), point - |ds|)
    decreases |ds|
  {
    hide Scaled, RealOf;
    if ds == [] {
      ScaledNothing(negative, point);
      ZeroIsZero();
    } else if ds[0] == ZERO {
      LeadingZero(ds);
      MakeNumberValue(negative, ds[1..], point - 1);
    } else if ds[|ds| - 1] == ZERO {
      var n := |ds| - 1;
      MakeNumberValue(negative, ds[..n], point);
      ScaledStep(negative, DigitsValue(ds[..n]), point - |ds|);
    } else {
      DecimalScaled(Decimal(negative, ds, point));
    }
  }

  lemma ZeroIsZero()
    ensures RealOf(Zero) == 0.0
  {
  }
}
