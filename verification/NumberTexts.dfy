/** Which texts `Number(text)` reads as a number, and as which (ECMA-262, section 7.1.4.1); `Infinity`
    counts as no number here. */
module NumberTexts {
  import opened Options
  import opened Trimming
  import opened Utf16
  import opened Decimals
  import opened JsNumbers
  import opened JsonGrammar

  // ---------------------------------------------------------------- the grammar

  /** Digits with at most one point among them, at least one digit, and an exponent. */
  ghost predicate SpellsDecimal(t: Text, negative: bool, x: Number) {
    exists whole: seq<Digit>, point: Text, fraction: seq<Digit>, tail: Text, e: int ::
      DecimalOfParts(t, negative, x, whole, point, fraction, tail, e)
  }

  ghost predicate DecimalOfParts(
      t: Text, negative: bool, x: Number, whole: seq<Digit>, point: Text, fraction: seq<Digit>, tail: Text, e: int) {
    && (point == [DOT] || (point == [] && fraction == [])) && whole + fraction != [] && WritesExponent(tail, e)
    && t == whole + (point + (fraction + tail)) && x == MakeNumber(negative, whole + fraction, |whole| + e)
  }

  ghost predicate Marks(mark: Unit, base: nat) {
    || (mark in {0x78, 0x58} && base == 16) || (mark in {0x6F, 0x4F} && base == 8) || (mark in {0x62, 0x42} && base == 2)
  }

  /** Digits of a base behind `0x`, `0o` or `0b`. */
  ghost predicate SpellsRadix(t: Text, x: Number) {
    exists base: nat, n: nat ::
      && |t| > 2 && t[0] == ZERO && Marks(t[1], base) && RadixValue(base, t[2..]) == Some(n)
      && x == MakeNumber(false, NatDigits(n), |NatDigits(n)|)
  }

  ghost predicate Spells(t: Text, x: Number) {
    || (t == [] && x == Zero)
    || SpellsDecimal(t, false, x) || SpellsRadix(t, x)
    || (t != [] && t[0] == PLUS && SpellsDecimal(t[1..], false, x))
    || (t != [] && t[0] == MINUS && SpellsDecimal(t[1..], true, x))
  }

  // ---------------------------------------------------------------- decimals

  lemma DecimalSound(negative: bool, t: Text)
    requires DecimalOf(negative, t).Some?
    ensures SpellsDecimal(t, negative, DecimalOf(negative, t).value)
  {
    SpanLast(t);
    var (whole, t1) := Span(t);
    var point := if t1 != [] && t1[0] == DOT then [DOT] else [];
    if point != [] { SpanLast(t1[1..]); }
    var (fraction, t2) := if point != [] then Span(t1[1..]) else ([], t1);
    hide Span, ParseExponent, MakeNumber, WritesExponent;
    var tail := ExponentSound(t2);
    assert tail + [] == tail;
    var e := ParseExponent(t2).value;
    assert t1 == point + (fraction + t2);
    assert DecimalOfParts(t, negative, DecimalOf(negative, t).value, whole, point, fraction, tail, e);
  }

  lemma DecimalComplete(negative: bool, t: Text, x: Number)
    requires SpellsDecimal(t, negative, x)
    ensures DecimalOf(negative, t) == Some(x) && t != [] && (IsDigit(t[0]) || t[0] == DOT)
    ensures |t| > 1 ==> t[1] !in {0x78, 0x58, 0x6F, 0x4F, 0x62, 0x42}
  {
    var whole: seq<Digit>, point: Text, fraction: seq<Digit>, tail: Text, e: int :|
      DecimalOfParts(t, negative, x, whole, point, fraction, tail, e);
    ExponentComplete(tail, e, []);
    assert tail + [] == tail;
    ExponentFirst(tail, e);
    hide ParseExponent, MakeNumber, WritesExponent, SpellsDecimal;
    PartsRead(negative, whole, point, fraction, tail, e);
    FirstTwo(whole, point, fraction, tail);
  }

  lemma PartsRead(negative: bool, whole: seq<Digit>, point: Text, fraction: seq<Digit>, tail: Text, e: int)
    requires (point == [DOT] || (point == [] && fraction == [])) && whole + fraction != []
    requires ParseExponent(tail) == Done(e, []) && (tail == [] || !(IsDigit(tail[0]) || tail[0] == DOT))
    ensures DecimalOf(negative, whole + (point + (fraction + tail)))
         == Some(MakeNumber(negative, whole + fraction, |whole| + e))
  {
    hide ParseExponent, MakeNumber, Span;
    var t1 := point + (fraction + tail);
    if point == [DOT] {
      assert t1[0] == DOT && t1[1..] == fraction + tail;
      SpanDigits(fraction, tail);
    } else {
      assert t1 == tail;
    }
    SpanDigits(whole, t1);
  }

  /** A decimal begins with a digit or its point, and no letter for a base follows. */
  lemma FirstTwo(whole: seq<Digit>, point: Text, fraction: seq<Digit>, tail: Text)
    requires (point == [DOT] || (point == [] && fraction == [])) && whole + fraction != []
    requires tail != [] ==> tail[0] in {LOWER_E, UPPER_E}
    ensures var t := whole + (point + (fraction + tail));
      && t != [] && (IsDigit(t[0]) || t[0] == DOT)
      && (|t| > 1 ==> IsDigit(t[1]) || t[1] == DOT || t[1] in {LOWER_E, UPPER_E})
  {
    var t := whole + (point + (fraction + tail));
    if whole == [] {
      assert t == [DOT] + (fraction + tail) && t[1] == fraction[0];
    } else if |whole| == 1 && |t| > 1 {
      assert t[1] == (point + (fraction + tail))[0];
    }
  }

  lemma ExponentFirst(tail: Text, e: int)
    requires WritesExponent(tail, e)
    ensures tail != [] ==> tail[0] in {LOWER_E, UPPER_E} && |tail| > 1
    ensures |tail| > 1 ==> IsDigit(tail[1]) || tail[1] in {PLUS, MINUS}
  {
    if tail != [] {
      var mark: Unit, sign: Text, ds: seq<Digit> :| ExponentOf(tail, e, mark, sign, ds);
      hide DigitsValue;
      assert tail[1] == if sign == [] then ds[0] else sign[0];
    }
  }

  lemma DecimalIff(negative: bool, t: Text, x: Number)
    ensures DecimalOf(negative, t) == Some(x) <==> SpellsDecimal(t, negative, x)
  {
    hide DecimalOf, SpellsDecimal;
    if DecimalOf(negative, t) == Some(x) { DecimalSound(negative, t); }
    if SpellsDecimal(t, negative, x) { DecimalComplete(negative, t, x); }
  }

  lemma BaseIff(mark: Unit, base: nat)
    ensures Marks(mark, base) <==> base == BaseOf(mark) > 0
  {
  }

  /** A number is read from exactly the texts that, trimmed, spell it. */
  lemma NumberOfIff(text: Text, x: Number)
    ensures NumberOf(text) == Some(x) <==> Spells(TrimWhere((c: Unit) => IsSpaceCode(c), text), x)
  {
    var t := TrimWhere((c: Unit) => IsSpaceCode(c), text);
    hide DecimalOf, SpellsDecimal, RadixValue, MakeNumber, NatDigits, TrimWhere;
    DecimalIff(false, t, x);
    if SpellsDecimal(t, false, x) { DecimalComplete(false, t, x); }
    if t != [] {
      DecimalIff(true, t[1..], x);
      DecimalIff(false, t[1..], x);
    }
    if |t| > 2 {
      forall base: nat ensures Marks(t[1], base) <==> base == BaseOf(t[1]) > 0 { BaseIff(t[1], base); }
    }
  }
}
