/** Ids as they are sent: `officialId` turns a text that a safe integer prints as into that integer. */
module OfficialIds {
  import opened Options
  import opened Utf16
  import opened Decimals
  import opened JsNumbers
  import opened PlanDocument
  import W = WarningRules

  datatype Id = Numeric(number: Number) | Textual(text: string)

  const MAX_SAFE_INTEGER := 0x1F_FFFF_FFFF_FFFF

  predicate IsSafeInteger(x: Number) {
    match Integer(x)
    case Some(n) => -MAX_SAFE_INTEGER <= n <= MAX_SAFE_INTEGER
    case None => false
  }

  /** `officialId` of an id that is there. */
  function OfficialId(value: string): Id {
    match NumberOf(UnitsOf(value))
    case Some(x) => if IsSafeInteger(x) && NumberText(x) == UnitsOf(value) then Numeric(x) else Textual(value)
    case None => Textual(value)
  }

  /** The texts that are turned into numbers are exactly those that safe integers print as. */
  lemma NumericIff(value: string, x: Number)
    ensures OfficialId(value) == Numeric(x) <==> IsSafeInteger(x) && UnitsOf(value) == NumberText(x)
  {
    hide NumberOf, NumberText, IsSafeInteger;
    NumberOfPrinted(x);
  }

  /** The units of a printed number have only one text. */
  lemma {:induction false} PrintedUnits(a: string, b: string)
    requires UnitsOf(a) == UnitsOf(b) && forall u :: u in UnitsOf(a) ==> u != 0 && u < 0xD800
    ensures a == b
  {
    forall i | 0 <= i < |a| ensures a[i] == b[i] {
      assert UnitsOf(a)[i] in UnitsOf(a);
      assert UnitOf(a[i]) == UnitsOf(a)[i] == UnitsOf(b)[i] == UnitOf(b[i]);
    }
  }

  lemma NumberUnits(x: Number)
    ensures forall u :: u in NumberText(x) ==> u != 0 && u < 0xD800
  {
    match x
    case Zero =>
    case Decimal(negative, digits, point) =>
      UnsignedUnits(digits, point);
  }

  ghost predicate Plain(t: Text) { forall u :: u in t ==> u != 0 && u < 0xD800 }

  lemma PlainConcat(a: Text, b: Text)
    requires Plain(a) && Plain(b)
    ensures Plain(a + b)
  {
  }

  lemma PlainDigits(ds: seq<Digit>)
    ensures Plain(ds)
  {
  }

  lemma UnsignedUnits(ds: Significand, n: int)
    ensures Plain(UnsignedText(ds, n))
  {
    var k := |ds|;
    var e := NatDigits(if n - 1 < 0 then 1 - n else n - 1);
    assert Plain([DOT]) && Plain([ZERO, DOT]) && Plain([LOWER_E, PLUS]) && Plain([LOWER_E, MINUS]);
    hide Plain, NatDigits, Zeros;
    PlainDigits(ds);
    PlainDigits(e);
    if k <= n <= 21 {
      PlainDigits(Zeros(n - k));
      PlainConcat(ds, Zeros(n - k));
    } else if 0 < n <= 21 {
      PlainDigits(ds[..n]);
      PlainDigits(ds[n..]);
      PlainConcat(ds[..n], [DOT]);
      PlainConcat(ds[..n] + [DOT], ds[n..]);
    } else if -6 < n <= 0 {
      PlainDigits(Zeros(-n));
      PlainConcat([ZERO, DOT], Zeros(-n));
      PlainConcat([ZERO, DOT] + Zeros(-n), ds);
    } else {
      PlainConcat([LOWER_E, if n - 1 < 0 then MINUS else PLUS], e);
      PlainDigits(ds[..1]);
      PlainDigits(ds[1..]);
      PlainConcat(ds, ExponentText(n - 1));
      PlainConcat(ds[..1], [DOT]);
      PlainConcat(ds[..1] + [DOT], ds[1..]);
      PlainConcat(ds[..1] + [DOT] + ds[1..], ExponentText(n - 1));
    }
  }

  /** Different ids stay different. */
  lemma OfficialIdInjective(a: string, b: string)
    requires OfficialId(a) == OfficialId(b)
    ensures a == b
  {
    if OfficialId(a).Numeric? {
      var x := OfficialId(a).number;
      NumericIff(a, x);
      NumericIff(b, x);
      NumberUnits(x);
      hide OfficialId, NumberText, UnitsOf;
      PrintedUnits(a, b);
    }
  }

  /** A warning body as it is sent. */
  datatype Sent = Sent(certificateTypeCode: string, skcNames: seq<string>, fieldList: seq<(string, seq<Id>)>)

  function SentIds(ids: seq<string>): seq<Id> {
    seq(|ids|, i requires 0 <= i < |ids| => OfficialId(ids[i]))
  }

  function SentBody(body: W.Body): Sent {
    Sent(body.certificateTypeCode, body.skcNames,
         seq(|body.fieldList|, i requires 0 <= i < |body.fieldList| =>
           (body.fieldList[i].0, SentIds(body.fieldList[i].1))))
  }

  lemma SentIdsInjective(a: seq<string>, b: seq<string>)
    requires SentIds(a) == SentIds(b)
    ensures a == b
  {
    hide OfficialId;
    assert |a| == |SentIds(a)| && |b| == |SentIds(b)|;
    forall i | 0 <= i < |a| ensures a[i] == b[i] {
      assert SentIds(a)[i] == SentIds(b)[i];
      OfficialIdInjective(a[i], b[i]);
    }
  }

  /** What is sent determines the body that was built, so nothing is merged by turning ids into numbers. */
  lemma SentBodyInjective(a: W.Body, b: W.Body)
    requires SentBody(a) == SentBody(b)
    ensures a == b
  {
    hide SentIds;
    var s, t := SentBody(a).fieldList, SentBody(b).fieldList;
    assert |a.fieldList| == |s| && |b.fieldList| == |t|;
    forall i | 0 <= i < |a.fieldList| ensures a.fieldList[i] == b.fieldList[i] {
      assert s[i] == t[i];
      SentIdsInjective(a.fieldList[i].1, b.fieldList[i].1);
    }
  }
}
