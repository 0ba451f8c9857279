/** The parser undoes the printer on every syntax tree. */
module JsonRoundTrip {
  import opened Options
  import opened Utf16
  import opened Decimals
  import opened Json

  lemma HexDigits(c: Unit)
    ensures c / 4096 < 16
    ensures c / 4096 * 4096 + c / 256 % 16 * 256 + c / 16 % 16 * 16 + c % 16 == c
  {
    assert c / 256 == c / 4096 * 16 + c / 256 % 16;
    assert c / 16 == c / 256 * 16 + c / 16 % 16;
  }

  lemma HexRoundTrip(c: Unit, tail: Text)
    ensures ParseHex(HexText(c) + tail) == Done(c, tail)
  {
    var t := HexText(c) + tail;
    assert t[4..] == tail;
    HexDigits(c);
    HexDigitValue(c / 4096);
    HexDigitValue(c / 256 % 16);
    HexDigitValue(c / 16 % 16);
    HexDigitValue(c % 16);
  }

  lemma HexDigitValue(n: nat)
    requires n < 16
    ensures HexValue(HexDigit(n)) == n
  {
  }

  lemma EscapeBodyRoundTrip(c: Unit, tail: Text)
    requires EscapeUnit(c)[0] == BACKSLASH
    ensures ParseEscape(EscapeUnit(c)[1..] + tail) == Done(c, tail)
  {
    var body := EscapeUnit(c)[1..];
    if |body| == 1 {
      assert (body + tail)[1..] == tail;
    } else {
      assert (body + tail)[1..] == HexText(c) + tail;
      HexRoundTrip(c, tail);
    }
  }

  /** One printed unit is read back as one unit. */
  lemma UnitRoundTrip(c: Unit, tail: Text, s: Text, rest: Text)
    requires ParseUnits(tail) == Done(s, rest)
    ensures ParseUnits(EscapeUnit(c) + tail) == Done([c] + s, rest)
  {
    var e := EscapeUnit(c);
    if e[0] == BACKSLASH {
      EscapeBodyRoundTrip(c, tail);
      assert (e + tail)[1..] == e[1..] + tail;
    } else {
      RawRoundTrip(c, tail, s, rest);
    }
  }

  /** A raw unit is read back as itself. */
  lemma RawRoundTrip(c: Unit, tail: Text, s: Text, rest: Text)
    requires c >= 32 && c != QUOTE && c != BACKSLASH
    requires ParseUnits(tail) == Done(s, rest)
    ensures ParseUnits([c] + tail) == Done([c] + s, rest)
  {
    assert ([c] + tail)[1..] == tail;
  }

  lemma PairRoundTrip(s: Text, tail: Text, rest: Text)
    requires |s| > 1 && IsHighSurrogate(s[0]) && IsLowSurrogate(s[1])
    requires ParseUnits(tail) == Done(s[2..], rest)
    ensures ParseUnits(s[..2] + tail) == Done(s, rest)
  {
    RawRoundTrip(s[1], tail, s[2..], rest);
    RawRoundTrip(s[0], [s[1]] + tail, [s[1]] + s[2..], rest);
    assert s[..2] + tail == [s[0]] + ([s[1]] + tail);
    assert s == [s[0]] + ([s[1]] + s[2..]);
  }

  lemma EscapeShape(s: Text, n: nat, close: Text)
    requires 0 < n <= |s|
    requires EscapeText(s) == (if n == 2 then s[..2] else EscapeUnit(s[0])) + EscapeText(s[n..])
    requires n == 1 || n == 2
    ensures EscapeText(s) + close == (if n == 2 then s[..2] else EscapeUnit(s[0])) + (EscapeText(s[n..]) + close)
  {
  }

  lemma {:induction false} EscapeRoundTrip(s: Text, rest: Text)
    ensures ParseUnits(EscapeText(s) + ([QUOTE] + rest)) == Done(s, rest)
  {
    var close := [QUOTE] + rest;
    if s == [] {
      assert EscapeText(s) + close == close && close[1..] == rest;
    } else {
      var n := if |s| > 1 && IsHighSurrogate(s[0]) && IsLowSurrogate(s[1]) then 2 else 1;
      EscapeRoundTrip(s[n..], rest);
      EscapeShape(s, n, close);
      var tail := EscapeText(s[n..]) + close;
      if n == 2 {
        PairRoundTrip(s, tail, rest);
      } else {
        UnitRoundTrip(s[0], tail, s[1..], rest);
        assert s == [s[0]] + s[1..];
      }
    }
  }

  /** Reading a quoted string after its opening quote. */
  lemma QuotedRoundTrip(s: Text, rest: Text)
    ensures (Quoted(s) + rest)[0] == QUOTE && ParseUnits((Quoted(s) + rest)[1..]) == Done(s, rest)
  {
    assert (Quoted(s) + rest)[1..] == EscapeText(s) + ([QUOTE] + rest);
    EscapeRoundTrip(s, rest);
  }

  lemma StringifyStart(v: Json)
    ensures Stringify(v) != []
    ensures Stringify(v)[0] !in {32, 9, 10, 13, RBRACKET, RBRACE, COMMA, COLON}
    ensures v.Num? ==> Stringify(v)[0] == MINUS || IsDigit(Stringify(v)[0])
  {
    if v.Num? { NumberTextStart(v.number); }
  }

  function ItemTexts(items: seq<Json>): seq<Text> {
    seq(|items|, i requires 0 <= i < |items| => Stringify(items[i]))
  }

  function MemberTexts(fields: seq<(Text, Json)>): seq<Text> {
    seq(|fields|, i requires 0 <= i < |fields| => Member(fields[i].0, Stringify(fields[i].1)))
  }

  /** The first character selects the kind of value. */
  lemma DispatchString(t: Text, s: Text, rest: Text)
    requires t != [] && t[0] == QUOTE && ParseUnits(t[1..]) == Done(s, rest)
    ensures ParseValue(t) == Done(Str(s), rest)
  {
    assert SkipSpace(t) == t;
  }

  lemma DispatchNumber(t: Text, n: Number, rest: Text)
    requires t != [] && (t[0] == MINUS || IsDigit(t[0])) && ParseNumber(t) == Done(n, rest)
    ensures ParseValue(t) == Done(Num(n), rest)
  {
    hide ParseNumber;
    assert SkipSpace(t) == t;
  }

  lemma DispatchLiteral(v: Json, word: Text, rest: Text)
    requires (v, word) in {(Null, NULL_TEXT), (Bool(true), TRUE_TEXT), (Bool(false), FALSE_TEXT)}
    ensures ParseValue(word + rest) == Done(v, rest)
  {
    var t := word + rest;
    assert SkipSpace(t) == t;
    assert word <= t && t[|word|..] == rest;
  }

  lemma DispatchArray(t: Text, items: seq<Json>, rest: Text)
    requires t != [] && t[0] == LBRACKET && t[1..] != [] && t[1..][0] !in {32, 9, 10, 13}
    requires if t[1..][0] == RBRACKET then items == [] && rest == t[1..][1..] else ParseItems(t[1..]) == Done(items, rest)
    ensures ParseValue(t) == Done(Arr(items), rest)
  {
    assert SkipSpace(t) == t && SkipSpace(t[1..]) == t[1..];
  }

  lemma DispatchObject(t: Text, fields: seq<(Text, Json)>, rest: Text)
    requires t != [] && t[0] == LBRACE && t[1..] != [] && t[1..][0] !in {32, 9, 10, 13}
    requires if t[1..][0] == RBRACE then fields == [] && rest == t[1..][1..] else ParseMembers(t[1..]) == Done(fields, rest)
    ensures ParseValue(t) == Done(Obj(fields), rest)
  {
    assert SkipSpace(t) == t && SkipSpace(t[1..]) == t[1..];
  }

  /** The parser reads back exactly the printed tree and stops where its text ended. */
  lemma {:induction false} RoundTrip(v: Json, rest: Text)
    requires EndsNumber(rest)
    ensures ParseValue(Stringify(v) + rest) == Done(v, rest)
    decreases v, 1, 0
  {
    match v
    case Null => DispatchLiteral(v, NULL_TEXT, rest);
    case Bool(b) => DispatchLiteral(v, if b then TRUE_TEXT else FALSE_TEXT, rest);
    case Num(n) =>
      NumberRoundTrip(n, rest);
      NumberTextStart(n);
      DispatchNumber(NumberText(n) + rest, n, rest);
    case Str(s) =>
      QuotedRoundTrip(s, rest);
      DispatchString(Quoted(s) + rest, s, rest);
    case Arr(items) => ArrayRoundTrip(v, rest);
    case Obj(fields) => ObjectRoundTrip(v, rest);
  }

  lemma {:induction false} ArrayRoundTrip(v: Json, rest: Text)
    requires v.Arr? && EndsNumber(rest)
    ensures ParseValue(Stringify(v) + rest) == Done(v, rest)
    decreases v, 0, |v.items| + 1
  {
    var close := [RBRACKET] + rest;
    var body := Join(ItemTexts(v.items)) + close;
    var t := [LBRACKET] + body;
    assert Stringify(v) + rest == t by {
      assert Stringify(v) == [LBRACKET] + Join(ItemTexts(v.items)) + [RBRACKET];
    }
    assert t[1..] == body;
    if v.items == [] {
      assert body == close && body[1..] == rest;
    } else {
      ItemsRoundTrip(v, v.items, rest);
      StringifyStart(v.items[0]);
      JoinStart(ItemTexts(v.items), close);
    }
    DispatchArray(t, v.items, rest);
  }

  /** A joined list starts like its first part. */
  lemma JoinStart(parts: seq<Text>, close: Text)
    requires parts != [] && parts[0] != []
    ensures Join(parts) + close != [] && (Join(parts) + close)[0] == parts[0][0]
  {
    assert Join(parts) != [] && Join(parts)[0] == parts[0][0];
  }

  /** What the items parser does after the first item. */
  function AfterItem(x: Json, tail: Text): Parsed<seq<Json>>
    requires tail != []
  {
    if tail[0] == RBRACKET then Done([x], tail[1..])
    else
      var (items, rest) :- ParseItems(tail[1..]);
      Done([x] + items, rest)
  }

  lemma ItemRoundTrip(x: Json, tail: Text)
    requires tail != [] && tail[0] in {COMMA, RBRACKET}
    requires ParseValue(Stringify(x) + tail) == Done(x, tail)
    ensures ParseItems(Stringify(x) + tail) == AfterItem(x, tail)
  {
    assert SkipSpace(tail) == tail;
  }

  lemma JoinShape(parts: seq<Text>, close: Text)
    requires |parts| > 1
    ensures Join(parts) + close == parts[0] + ([COMMA] + (Join(parts[1..]) + close))
  {
  }

  lemma {:induction false} ItemsRoundTrip(owner: Json, items: seq<Json>, rest: Text)
    requires owner.Arr? && items != [] && EndsNumber(rest)
    requires forall x :: x in items ==> x in owner.items
    ensures ParseItems(Join(ItemTexts(items)) + ([RBRACKET] + rest)) == Done(items, rest)
    decreases owner, 0, |items|
  {
    var close := [RBRACKET] + rest;
    var x := items[0];
    assert x in owner.items;
    var tail := close;
    if |items| > 1 {
      var next := Join(ItemTexts(items[1..])) + close;
      tail := [COMMA] + next;
      ItemsRoundTrip(owner, items[1..], rest);
      JoinShape(ItemTexts(items), close);
      assert ItemTexts(items)[1..] == ItemTexts(items[1..]);
      assert tail[1..] == next;
      assert AfterItem(x, tail) == Done([x] + items[1..], rest);
      assert items == [x] + items[1..];
    } else {
      assert tail[1..] == rest;
      assert AfterItem(x, tail) == Done([x], rest);
      assert items == [x];
    }
    assert Join(ItemTexts(items)) + close == Stringify(x) + tail;
    RoundTrip(x, tail);
    ItemRoundTrip(x, tail);
  }

  lemma {:induction false} ObjectRoundTrip(v: Json, rest: Text)
    requires v.Obj? && EndsNumber(rest)
    ensures ParseValue(Stringify(v) + rest) == Done(v, rest)
    decreases v, 0, |v.fields| + 1
  {
    var close := [RBRACE] + rest;
    var body := Join(MemberTexts(v.fields)) + close;
    var t := [LBRACE] + body;
    assert Stringify(v) + rest == t by {
      assert Stringify(v) == [LBRACE] + Join(MemberTexts(v.fields)) + [RBRACE];
    }
    assert t[1..] == body;
    if v.fields == [] {
      assert body == close && body[1..] == rest;
    } else {
      MembersRoundTrip(v, v.fields, rest);
      JoinStart(MemberTexts(v.fields), close);
    }
    DispatchObject(t, v.fields, rest);
  }

  lemma {:induction false} MembersRoundTrip(owner: Json, fields: seq<(Text, Json)>, rest: Text)
    requires owner.Obj? && fields != [] && EndsNumber(rest)
    requires forall f :: f in fields ==> f in owner.fields
    ensures ParseMembers(Join(MemberTexts(fields)) + ([RBRACE] + rest)) == Done(fields, rest)
    decreases owner, 0, |fields|
  {
    var close := [RBRACE] + rest;
    var (k, x) := fields[0];
    assert fields[0] in owner.fields;
    var tail := close;
    if |fields| > 1 {
      var next := Join(MemberTexts(fields[1..])) + close;
      tail := [COMMA] + next;
      MembersRoundTrip(owner, fields[1..], rest);
      JoinShape(MemberTexts(fields), close);
      assert MemberTexts(fields)[1..] == MemberTexts(fields[1..]);
      assert tail[1..] == next;
      assert AfterMember(k, x, tail) == Done([(k, x)] + fields[1..], rest);
      assert fields == [(k, x)] + fields[1..];
    } else {
      assert tail[1..] == rest;
      assert AfterMember(k, x, tail) == Done([(k, x)], rest);
      assert fields == [(k, x)];
    }
    assert Join(MemberTexts(fields)) + close == Member(k, Stringify(x)) + tail;
    RoundTrip(x, tail);
    MemberRoundTrip(k, x, tail);
  }

  /** What the members parser does after the first value. */
  function AfterMember(k: Text, x: Json, tail: Text): Parsed<seq<(Text, Json)>>
    requires tail != []
  {
    if tail[0] == RBRACE then Done([(k, x)], tail[1..])
    else
      var (fields, rest) :- ParseMembers(tail[1..]);
      Done([(k, x)] + fields, rest)
  }

  lemma MembersStep(t: Text, k: Text, t2: Text, x: Json, tail: Text)
    requires t != [] && t[0] == QUOTE && ParseUnits(t[1..]) == Done(k, t2)
    requires t2 != [] && t2[0] == COLON && ParseValue(t2[1..]) == Done(x, tail)
    requires tail != [] && tail[0] in {COMMA, RBRACE}
    ensures ParseMembers(t) == AfterMember(k, x, tail)
  {
    assert SkipSpace(t) == t && SkipSpace(t2) == t2 && SkipSpace(tail) == tail;
  }

  /** Reading the first member of an object, given that its key and value are read back. */
  lemma MemberRoundTrip(k: Text, x: Json, tail: Text)
    requires tail != [] && tail[0] in {COMMA, RBRACE}
    requires ParseValue(Stringify(x) + tail) == Done(x, tail)
    ensures ParseMembers(Member(k, Stringify(x)) + tail) == AfterMember(k, x, tail)
  {
    var value := Stringify(x);
    var t2 := [COLON] + (value + tail);
    assert t2[1..] == value + tail;
    assert Member(k, value) + tail == Quoted(k) + t2;
    QuotedRoundTrip(k, t2);
    MembersStep(Quoted(k) + t2, k, t2, x, tail);
  }

  /** The printed text of a tree evaluates to the value of the tree. */
  lemma ParseStringify(v: Json)
    ensures Parse(Stringify(v)) == Some(Evaluate(v))
  {
    RoundTrip(v, []);
    assert Stringify(v) + [] == Stringify(v);
  }

  /** Distinct trees have distinct texts. */
  lemma StringifyInjective(v: Json, w: Json)
    requires Stringify(v) == Stringify(w)
    ensures v == w
  {
    RoundTrip(v, []);
    RoundTrip(w, []);
  }
}
