/** The parser reads exactly the JSON texts: `ParseValue` against the grammar in both directions. */
module JsonParsing {
  import opened Options
  import opened Utf16
  import opened Decimals
  import opened Json
  import opened JsonGrammar

  // ---------------------------------------------------------------- sound: what is read is written there

  lemma BlankConcat(a: Text, b: Text)
    requires Blank(a) && Blank(b)
    ensures Blank(a + b)
  {
  }

  lemma Prefixed(pre: Text, a: Text, b: Text, c: Text)
    ensures pre + (a + b + c) == (pre + a) + b + c
  {
  }

  /** White space in front is part of the first item. */
  lemma ItemsPadded(pre: Text, t: Text, items: seq<Json>)
    requires Blank(pre) && items != [] && WritesItems(t, items)
    ensures WritesItems(pre + t, items)
  {
    hide Blank, WritesPadded;
    if |items| == 1 {
      PaddedMore(pre, t, items[0]);
    } else {
      var a, b :| t == a + [COMMA] + b && WritesPadded(a, items[0]) && WritesItems(b, items[1..]);
      PaddedMore(pre, a, items[0]);
      Prefixed(pre, a, [COMMA], b);
    }
  }

  lemma PaddedMore(pre: Text, t: Text, v: Json)
    requires Blank(pre) && WritesPadded(t, v)
    ensures WritesPadded(pre + t, v)
  {
    hide Blank, Writes;
    var p, mid, post :| t == p + mid + post && Blank(p) && Writes(mid, v) && Blank(post);
    BlankConcat(pre, p);
    Prefixed(pre, p, mid, post);
  }

  lemma MembersPadded(pre: Text, t: Text, fields: seq<(Text, Json)>)
    requires Blank(pre) && fields != [] && WritesMembers(t, fields)
    ensures WritesMembers(pre + t, fields)
  {
    hide WritesMember, Blank;
    if |fields| == 1 {
      MemberMore(pre, t, fields[0]);
    } else {
      var a, b :| t == a + [COMMA] + b && WritesMember(a, fields[0]) && WritesMembers(b, fields[1..]);
      MemberMore(pre, a, fields[0]);
      Prefixed(pre, a, [COMMA], b);
    }
  }

  lemma MemberMore(pre: Text, t: Text, f: (Text, Json))
    requires Blank(pre) && WritesMember(t, f)
    ensures WritesMember(pre + t, f)
  {
    hide WritesString, WritesPadded, Blank;
    var p, key, mid, value :| t == p + key + mid + [COLON] + value
      && Blank(p) && WritesString(key, f.0) && Blank(mid) && WritesPadded(value, f.1);
    BlankConcat(pre, p);
    Regrouped5(pre, p, key, mid, [COLON] + value);
    assert t == p + key + mid + ([COLON] + value);
    assert pre + t == (pre + p) + key + mid + [COLON] + value;
  }

  lemma Regrouped5(pre: Text, p: Text, key: Text, mid: Text, value: Text)
    ensures pre + (p + key + mid + value) == (pre + p) + key + mid + value
  {
  }

  /** What `ParseValue` reads behind a brace. */
  function AfterBrace(t: Text): Parsed<Json> {
    var t1 := SkipSpace(t);
    if t1 != [] && t1[0] == RBRACE then Done(Obj([]), t1[1..])
    else
      var (fields, rest) :- ParseMembers(t1);
      Done(Obj(fields), rest)
  }

  function AfterBracket(t: Text): Parsed<Json> {
    var t1 := SkipSpace(t);
    if t1 != [] && t1[0] == RBRACKET then Done(Arr([]), t1[1..])
    else
      var (items, rest) :- ParseItems(t1);
      Done(Arr(items), rest)
  }

  /** How a value is read that begins here. */
  lemma ValueAt(pre: Text, t: Text)
    requires Blank(pre) && t != [] && !IsBlank(t[0])
    ensures var r := ParseValue(pre + t);
      if t[0] == LBRACE then r == AfterBrace(t[1..])
      else if t[0] == LBRACKET then r == AfterBracket(t[1..])
      else if t[0] == QUOTE then
        r == match ParseUnits(t[1..]) case Done(s, rest) => Done(Str(s), rest) case Fail => Fail
      else if t[0] == TRUE_TEXT[0] then r == ParseLiteral(Bool(true), TRUE_TEXT, t)
      else if t[0] == FALSE_TEXT[0] then r == ParseLiteral(Bool(false), FALSE_TEXT, t)
      else if t[0] == NULL_TEXT[0] then r == ParseLiteral(Null, NULL_TEXT, t)
      else r == match ParseNumber(t) case Done(x, rest) => Done(Num(x), rest) case Fail => Fail
  {
    SkipComplete(pre, t);
    hide SkipSpace, ParseMembers, ParseItems, ParseUnits, ParseNumber, ParseLiteral;
  }

  /** A value that is read is written there, behind white space. */
  lemma {:induction false} ValueSound(t0: Text) returns (pre: Text, mid: Text)
    requires ParseValue(t0).Done?
    ensures t0 == pre + mid + ParseValue(t0).rest && Blank(pre) && Writes(mid, ParseValue(t0).value)
    decreases |t0|, 2
  {
    hide ParseValue, SkipSpace, Writes, Blank;
    SomethingThere(t0);
    pre := SkipSound(t0);
    mid := BareSound(pre, SkipSpace(t0));
    Split([], pre, mid, ParseValue(t0).rest);
    assert [] + pre == pre;
  }

  lemma SomethingThere(t: Text)
    requires ParseValue(t).Done?
    ensures SkipSpace(t) != []
  {
    hide SkipSpace, ParseItems, ParseMembers, ParseUnits, ParseNumber, ParseLiteral;
  }

  lemma ObjectWritten(inner: Text, fields: seq<(Text, Json)>)
    requires if fields == [] then Blank(inner) else WritesMembers(inner, fields)
    ensures Writes([LBRACE] + inner + [RBRACE], Obj(fields))
  {
    hide Blank, WritesMembers;
  }

  lemma ArrayWritten(inner: Text, items: seq<Json>)
    requires if items == [] then Blank(inner) else WritesItems(inner, items)
    ensures Writes([LBRACKET] + inner + [RBRACKET], Arr(items))
  {
    hide Blank, WritesItems;
  }

  lemma StringWritten(body: Text, text: Text)
    requires WritesUnits(body, text)
    ensures Writes([QUOTE] + body + [QUOTE], Str(text))
  {
    hide WritesUnits;
  }

  lemma LiteralSound(v: Json, word: Text, t: Text)
    requires word != [] && ParseLiteral(v, word, t).Done?
    ensures ParseLiteral(v, word, t).value == v && t == word + ParseLiteral(v, word, t).rest
  {
  }

  lemma {:induction false} BareSound(pre: Text, t: Text) returns (mid: Text)
    requires Blank(pre) && t != [] && !IsBlank(t[0]) && ParseValue(pre + t).Done?
    ensures t == mid + ParseValue(pre + t).rest && Writes(mid, ParseValue(pre + t).value)
    decreases |t|, 1
  {
    ValueAt(pre, t);
    hide ParseValue, AfterBrace, AfterBracket, ParseUnits, ParseNumber, ParseLiteral;
    hide WritesUnits, WritesItems, WritesMembers, Blank, WritesNumber;
    var v, rest := ParseValue(pre + t).value, ParseValue(pre + t).rest;
    if t[0] == TRUE_TEXT[0] {
      mid := TRUE_TEXT;
      LiteralSound(Bool(true), TRUE_TEXT, t);
    } else if t[0] == FALSE_TEXT[0] {
      mid := FALSE_TEXT;
      LiteralSound(Bool(false), FALSE_TEXT, t);
    } else if t[0] == NULL_TEXT[0] {
      mid := NULL_TEXT;
      LiteralSound(Null, NULL_TEXT, t);
    } else if t[0] != LBRACE && t[0] != LBRACKET && t[0] != QUOTE {
      mid := NumberSound(t);
    } else {
      hide Writes;
      assert t == [t[0]] + t[1..];
      if t[0] == LBRACE {
        var inner := ObjectSound(t[1..]);
        mid := [LBRACE] + inner + [RBRACE];
        Bracketed(LBRACE, inner, RBRACE, rest);
        ObjectWritten(inner, v.fields);
      } else if t[0] == LBRACKET {
        var inner := ArraySound(t[1..]);
        mid := [LBRACKET] + inner + [RBRACKET];
        Bracketed(LBRACKET, inner, RBRACKET, rest);
        ArrayWritten(inner, v.items);
      } else {
        var body := UnitsSound(t[1..]);
        mid := [QUOTE] + body + [QUOTE];
        Bracketed(QUOTE, body, QUOTE, rest);
        StringWritten(body, v.text);
      }
    }
  }

  lemma Bracketed(open: Unit, inner: Text, close: Unit, rest: Text)
    ensures [open] + (inner + [close] + rest) == ([open] + inner + [close]) + rest
  {
  }

  lemma {:induction false} ObjectSound(t: Text) returns (inner: Text)
    requires AfterBrace(t).Done?
    ensures AfterBrace(t).value.Obj?
    ensures var fields := AfterBrace(t).value.fields;
      t == inner + [RBRACE] + AfterBrace(t).rest && if fields == [] then Blank(inner) else WritesMembers(inner, fields)
    decreases |t|, 5
  {
    hide SkipSpace, ParseMembers, WritesMembers, Blank;
    var pre := SkipSound(t);
    var t1 := SkipSpace(t);
    if t1 != [] && t1[0] == RBRACE {
      inner := pre;
      assert t1 == [RBRACE] + t1[1..];
    } else {
      var b := MembersSound(t1);
      MembersPadded(pre, b, ParseMembers(t1).value);
      inner := pre + b;
      Prefixed(pre, b, [RBRACE], ParseMembers(t1).rest);
    }
  }

  lemma {:induction false} ArraySound(t: Text) returns (inner: Text)
    requires AfterBracket(t).Done?
    ensures AfterBracket(t).value.Arr?
    ensures var items := AfterBracket(t).value.items;
      t == inner + [RBRACKET] + AfterBracket(t).rest && if items == [] then Blank(inner) else WritesItems(inner, items)
    decreases |t|, 5
  {
    hide SkipSpace, ParseItems, WritesItems, Blank;
    var pre := SkipSound(t);
    var t1 := SkipSpace(t);
    if t1 != [] && t1[0] == RBRACKET {
      inner := pre;
      assert t1 == [RBRACKET] + t1[1..];
    } else {
      var b := ItemsSound(t1);
      ItemsPadded(pre, b, ParseItems(t1).value);
      inner := pre + b;
      Prefixed(pre, b, [RBRACKET], ParseItems(t1).rest);
    }
  }

  /** One value with the white space around it. */
  lemma {:induction false} PaddedSound(t: Text) returns (a: Text)
    requires ParseValue(t).Done?
    ensures t == a + SkipSpace(ParseValue(t).rest) && WritesPadded(a, ParseValue(t).value)
    decreases |t|, 3
  {
    var pre, mid := ValueSound(t);
    var post := SkipSound(ParseValue(t).rest);
    a := pre + mid + post;
    hide ParseValue, SkipSpace, Writes, Blank;
    Regrouped(pre, mid, post, SkipSpace(ParseValue(t).rest));
  }

  lemma ItemsStep(t: Text)
    requires ParseItems(t).Done?
    ensures ParseValue(t).Done?
    ensures var v := ParseValue(t).value; var t2 := SkipSpace(ParseValue(t).rest);
      && t2 != [] && |t2| < |t|
      && if t2[0] == RBRACKET then ParseItems(t) == Done([v], t2[1..])
         else
           && t2[0] == COMMA && ParseItems(t2[1..]).Done?
           && ParseItems(t) == Done([v] + ParseItems(t2[1..]).value, ParseItems(t2[1..]).rest)
  {
    hide ParseValue, SkipSpace;
  }

  lemma OneItem(a: Text, v: Json)
    requires WritesPadded(a, v)
    ensures WritesItems(a, [v])
  {
  }

  lemma MoreItems(a: Text, v: Json, b: Text, more: seq<Json>)
    requires WritesPadded(a, v) && more != [] && WritesItems(b, more)
    ensures WritesItems(a + [COMMA] + b, [v] + more)
  {
    hide WritesPadded;
    assert ([v] + more)[1..] == more;
  }

  lemma {:induction false} ItemsSound(t: Text) returns (inner: Text)
    requires ParseItems(t).Done?
    ensures var items := ParseItems(t).value;
      items != [] && WritesItems(inner, items) && t == inner + [RBRACKET] + ParseItems(t).rest
    decreases |t|, 4
  {
    hide ParseItems, ParseValue, SkipSpace, WritesPadded, WritesItems;
    ItemsStep(t);
    var a := PaddedSound(t);
    var v, t2 := ParseValue(t).value, SkipSpace(ParseValue(t).rest);
    assert t2 == [t2[0]] + t2[1..];
    if t2[0] == RBRACKET {
      inner := a;
      OneItem(a, v);
      assert t == a + ([RBRACKET] + t2[1..]);
    } else {
      var b := ItemsSound(t2[1..]);
      inner := a + [COMMA] + b;
      MoreItems(a, v, b, ParseItems(t2[1..]).value);
      Comma(t, a, t2, b, [RBRACKET], ParseItems(t2[1..]).rest);
    }
  }

  lemma Comma(t: Text, a: Text, t2: Text, b: Text, close: Text, rest: Text)
    requires t == a + t2 && t2 == [COMMA] + (b + close + rest)
    ensures t == (a + [COMMA] + b) + close + rest
  {
  }

  lemma MembersStep(t: Text)
    requires ParseMembers(t).Done?
    ensures var t1 := SkipSpace(t); t1 != [] && t1[0] == QUOTE && ParseUnits(t1[1..]).Done?
    ensures var (k, t2) := (ParseUnits(SkipSpace(t)[1..]).value, ParseUnits(SkipSpace(t)[1..]).rest); var t3 := SkipSpace(t2);
      t3 != [] && t3[0] == COLON && |t3| < |t| && ParseValue(t3[1..]).Done?
    ensures var k := ParseUnits(SkipSpace(t)[1..]).value; var t3 := SkipSpace(ParseUnits(SkipSpace(t)[1..]).rest);
            var v := ParseValue(t3[1..]).value; var t5 := SkipSpace(ParseValue(t3[1..]).rest);
      && t5 != [] && |t5| < |t|
      && if t5[0] == RBRACE then ParseMembers(t) == Done([(k, v)], t5[1..])
         else
           && t5[0] == COMMA && ParseMembers(t5[1..]).Done?
           && ParseMembers(t) == Done([(k, v)] + ParseMembers(t5[1..]).value, ParseMembers(t5[1..]).rest)
  {
    hide ParseValue, SkipSpace, ParseUnits;
  }

  lemma OneMember(a: Text, f: (Text, Json))
    requires WritesMember(a, f)
    ensures WritesMembers(a, [f])
  {
  }

  lemma MoreMembers(a: Text, f: (Text, Json), b: Text, more: seq<(Text, Json)>)
    requires WritesMember(a, f) && more != [] && WritesMembers(b, more)
    ensures WritesMembers(a + [COMMA] + b, [f] + more)
  {
    hide WritesMember;
    assert ([f] + more)[1..] == more;
  }

  /** One member with the white space around it. */
  lemma {:induction false} MemberSound(t: Text) returns (a: Text)
    requires ParseMembers(t).Done?
    ensures var k := ParseUnits(SkipSpace(t)[1..]).value; var t3 := SkipSpace(ParseUnits(SkipSpace(t)[1..]).rest);
            var v := ParseValue(t3[1..]).value; var t5 := SkipSpace(ParseValue(t3[1..]).rest);
      t == a + t5 && WritesMember(a, (k, v))
    decreases |t|, 3
  {
    hide ParseMembers, ParseUnits, ParseValue, SkipSpace, WritesUnits, WritesPadded, Blank, WritesMember;
    MembersStep(t);
    var pre := SkipSound(t);
    var t1 := SkipSpace(t);
    var body := UnitsSound(t1[1..]);
    var k, t2 := ParseUnits(t1[1..]).value, ParseUnits(t1[1..]).rest;
    var mid := SkipSound(t2);
    var t3 := SkipSpace(t2);
    var value := PaddedSound(t3[1..]);
    var v, t5 := ParseValue(t3[1..]).value, SkipSpace(ParseValue(t3[1..]).rest);
    assert t1 == [QUOTE] + t1[1..] && t3 == [COLON] + t3[1..];
    a := pre + ([QUOTE] + body + [QUOTE]) + mid + [COLON] + value;
    MemberText(t, pre, body, mid, value, t1, t2, t3, t5);
    MemberWritten(pre, body, mid, value, k, v);
  }

  lemma MemberWritten(pre: Text, body: Text, mid: Text, value: Text, k: Text, v: Json)
    requires Blank(pre) && WritesUnits(body, k) && Blank(mid) && WritesPadded(value, v)
    ensures WritesMember(pre + ([QUOTE] + body + [QUOTE]) + mid + [COLON] + value, (k, v))
  {
    hide Blank, WritesUnits, WritesPadded;
    assert WritesString([QUOTE] + body + [QUOTE], k);
    hide WritesString;
  }

  lemma MemberText(t: Text, pre: Text, body: Text, mid: Text, value: Text, t1: Text, t2: Text, t3: Text, t5: Text)
    requires t == pre + t1 && t1 == [QUOTE] + (body + [QUOTE] + t2) && t2 == mid + t3 && t3 == [COLON] + (value + t5)
    ensures t == pre + ([QUOTE] + body + [QUOTE]) + mid + [COLON] + value + t5
  {
    assert t1 == ([QUOTE] + body + [QUOTE]) + (mid + ([COLON] + (value + t5)));
  }

  lemma {:induction false} MembersSound(t: Text) returns (inner: Text)
    requires ParseMembers(t).Done?
    ensures var fields := ParseMembers(t).value;
      fields != [] && WritesMembers(inner, fields) && t == inner + [RBRACE] + ParseMembers(t).rest
    decreases |t|, 4
  {
    hide ParseMembers, ParseUnits, ParseValue, SkipSpace, WritesMember, WritesMembers;
    MembersStep(t);
    var a := MemberSound(t);
    var k, t3 := ParseUnits(SkipSpace(t)[1..]).value, SkipSpace(ParseUnits(SkipSpace(t)[1..]).rest);
    var v, t5 := ParseValue(t3[1..]).value, SkipSpace(ParseValue(t3[1..]).rest);
    assert t5 == [t5[0]] + t5[1..];
    if t5[0] == RBRACE {
      inner := a;
      OneMember(a, (k, v));
      assert t == a + ([RBRACE] + t5[1..]);
    } else {
      var b := MembersSound(t5[1..]);
      inner := a + [COMMA] + b;
      MoreMembers(a, (k, v), b, ParseMembers(t5[1..]).value);
      Comma(t, a, t5, b, [RBRACE], ParseMembers(t5[1..]).rest);
    }
  }

  // ---------------------------------------------------------------- complete: what is written is read

  lemma SkipTwice(t: Text)
    ensures SkipSpace(SkipSpace(t)) == SkipSpace(t)
  {
    var pre := SkipSound(t);
  }

  /** No value begins with a closing bracket. */
  lemma ItemsBehindSpace(t: Text)
    requires ParseItems(t).Done?
    ensures ParseItems(SkipSpace(t)) == ParseItems(t) && SkipSpace(t) != [] && SkipSpace(t)[0] != RBRACKET
  {
    SkipTwice(t);
    SkipValue(t);
    ClosingFails(t);
    hide ParseValue;
  }

  lemma SkipValue(t: Text)
    ensures ParseValue(SkipSpace(t)) == ParseValue(t)
  {
    SkipTwice(t);
    hide SkipSpace, ParseMembers, ParseItems, ParseUnits, ParseNumber, ParseLiteral;
  }

  lemma ClosingFails(t: Text)
    requires ParseValue(t).Done?
    ensures SkipSpace(t) != [] && SkipSpace(t)[0] != RBRACKET
  {
    hide SkipSpace, ParseMembers, ParseItems, ParseUnits;
    var u := SkipSpace(t);
    if u != [] && u[0] == RBRACKET { assert Span(u).0 == []; }
  }

  lemma MembersBehindSpace(t: Text)
    requires ParseMembers(t).Done?
    ensures ParseMembers(SkipSpace(t)) == ParseMembers(t) && SkipSpace(t) != [] && SkipSpace(t)[0] != RBRACE
  {
    SkipTwice(t);
    hide SkipSpace, ParseValue, ParseUnits;
  }

  /** A value that is written is read, whatever follows; a number must be over there. */
  lemma {:induction false} ValueComplete(pre: Text, mid: Text, v: Json, rest: Text)
    requires Blank(pre) && Writes(mid, v) && (v.Num? ==> EndsNumber(rest))
    ensures ParseValue(pre + (mid + rest)) == Done(v, rest)
    decreases |mid|, 0
  {
    var t := mid + rest;
    hide ParseValue, AfterBrace, AfterBracket, ParseUnits, ParseNumber, WritesUnits, WritesItems, WritesMembers, Blank;
    hide WritesNumber, EndsNumber;
    match v
    case Null => LiteralComplete(pre, v, mid, rest);
    case Bool(flag) => LiteralComplete(pre, v, mid, rest);
    case Num(number) =>
      NumberComplete(mid, number, rest);
      ValueAt(pre, t);
    case Str(text) =>
      var body :| mid == [QUOTE] + body + [QUOTE] && WritesUnits(body, text);
      UnitsComplete(body, text, rest);
      Opened(QUOTE, body, QUOTE, rest);
      assert body + ([QUOTE] + rest) == body + [QUOTE] + rest;
      ValueAt(pre, t);
    case Arr(items) =>
      var inner :| mid == [LBRACKET] + inner + [RBRACKET]
                   && if items == [] then Blank(inner) else WritesItems(inner, items);
      ArrayComplete(inner, items, rest);
      Opened(LBRACKET, inner, RBRACKET, rest);
      ValueAt(pre, t);
    case Obj(fields) =>
      var inner :| mid == [LBRACE] + inner + [RBRACE]
                   && if fields == [] then Blank(inner) else WritesMembers(inner, fields);
      ObjectComplete(inner, fields, rest);
      Opened(LBRACE, inner, RBRACE, rest);
      ValueAt(pre, t);
  }

  lemma Opened(open: Unit, inner: Text, close: Unit, rest: Text)
    ensures var t := [open] + inner + [close] + rest; t[0] == open && t[1..] == inner + ([close] + rest)
  {
  }

  lemma LiteralComplete(pre: Text, v: Json, mid: Text, rest: Text)
    requires Blank(pre) && Writes(mid, v) && (v.Null? || v.Bool?)
    ensures ParseValue(pre + (mid + rest)) == Done(v, rest)
  {
    assert (mid + rest)[|mid|..] == rest && mid <= mid + rest;
    assert (mid + rest)[0] == mid[0];
    ValueAt(pre, mid + rest);
  }

  lemma {:induction false} ArrayComplete(inner: Text, items: seq<Json>, rest: Text)
    requires if items == [] then Blank(inner) else WritesItems(inner, items)
    ensures AfterBracket(inner + ([RBRACKET] + rest)) == Done(Arr(items), rest)
    decreases |inner|, 5
  {
    var tail := [RBRACKET] + rest;
    assert tail[1..] == rest;
    if items == [] {
      SkipComplete(inner, tail);
    } else {
      ItemsComplete(inner, items, rest);
      ItemsBehindSpace(inner + tail);
    }
  }

  lemma {:induction false} ObjectComplete(inner: Text, fields: seq<(Text, Json)>, rest: Text)
    requires if fields == [] then Blank(inner) else WritesMembers(inner, fields)
    ensures AfterBrace(inner + ([RBRACE] + rest)) == Done(Obj(fields), rest)
    decreases |inner|, 5
  {
    var tail := [RBRACE] + rest;
    assert tail[1..] == rest;
    if fields == [] {
      SkipComplete(inner, tail);
    } else {
      MembersComplete(inner, fields, rest);
      MembersBehindSpace(inner + tail);
    }
  }

  /** A padded value is read up to what follows it, a closing bracket, a comma or the end. */
  lemma {:induction false} PaddedComplete(a: Text, v: Json, tail: Text)
    requires WritesPadded(a, v) && (tail == [] || tail[0] in {COMMA, RBRACKET, RBRACE})
    ensures var r := ParseValue(a + tail); r.Done? && r.value == v && SkipSpace(r.rest) == tail
    decreases |a|, 1
  {
    hide ParseValue, SkipSpace, Writes, Blank, EndsNumber;
    var pre, mid, post :| a == pre + mid + post && Blank(pre) && Writes(mid, v) && Blank(post);
    hide WritesPadded;
    EndsBehindBlank(post, tail);
    SkipComplete(post, tail);
    ValueComplete(pre, mid, v, post + tail);
    TailOfPadded(pre, mid, post, tail);
  }

  lemma TailOfPadded(pre: Text, mid: Text, post: Text, tail: Text)
    ensures pre + mid + post + tail == pre + (mid + (post + tail))
  {
  }

  lemma EndsBehindBlank(post: Text, tail: Text)
    requires Blank(post) && (tail == [] || tail[0] in {COMMA, RBRACKET, RBRACE})
    ensures EndsNumber(post + tail)
  {
    if post != [] { assert post[0] in post && (post + tail)[0] == post[0]; } else { assert post + tail == tail; }
  }

  lemma {:induction false} ItemsComplete(inner: Text, items: seq<Json>, rest: Text)
    requires items != [] && WritesItems(inner, items)
    ensures ParseItems(inner + ([RBRACKET] + rest)) == Done(items, rest)
    decreases |inner|, 4
  {
    hide WritesPadded, ParseValue, SkipSpace;
    if |items| == 1 {
      var tail := [RBRACKET] + rest;
      PaddedComplete(inner, items[0], tail);
      assert items == [items[0]] && tail[1..] == rest;
    } else {
      var a, b :| inner == a + [COMMA] + b && WritesPadded(a, items[0]) && WritesItems(b, items[1..]);
      hide WritesItems;
      ItemsComplete(b, items[1..], rest);
      var tail := [COMMA] + (b + ([RBRACKET] + rest));
      PaddedComplete(a, items[0], tail);
      assert inner + ([RBRACKET] + rest) == a + tail && tail[1..] == b + ([RBRACKET] + rest);
      assert items == [items[0]] + items[1..];
    }
  }

  /** A member is read up to what follows it. */
  lemma {:induction false} MemberComplete(a: Text, f: (Text, Json), tail: Text)
    requires WritesMember(a, f) && tail != [] && tail[0] in {COMMA, RBRACE}
    ensures ParseMembers(a + tail) ==
      if tail[0] == RBRACE then Done([f], tail[1..])
      else match ParseMembers(tail[1..]) case Done(fields, rest) => Done([f] + fields, rest) case Fail => Fail
    decreases |a|, 3
  {
    hide WritesPadded, WritesUnits, ParseMembers, Blank;
    var pre, key, mid, value :| a == pre + key + mid + [COLON] + value
      && Blank(pre) && WritesString(key, f.0) && Blank(mid) && WritesPadded(value, f.1);
    var body :| key == [QUOTE] + body + [QUOTE] && WritesUnits(body, f.0);
    MemberParts(a, pre, body, mid, value, tail);
    PartsComplete(pre, body, mid, value, f, tail);
  }

  lemma {:induction false} PartsComplete(pre: Text, body: Text, mid: Text, value: Text, f: (Text, Json), tail: Text)
    requires Blank(pre) && WritesUnits(body, f.0) && Blank(mid) && WritesPadded(value, f.1)
    requires tail != [] && tail[0] in {COMMA, RBRACE}
    ensures ParseMembers(pre + ([QUOTE] + (body + [QUOTE] + (mid + ([COLON] + (value + tail)))))) ==
      if tail[0] == RBRACE then Done([f], tail[1..])
      else match ParseMembers(tail[1..]) case Done(fields, rest) => Done([f] + fields, rest) case Fail => Fail
    decreases |value|, 2
  {
    hide WritesPadded, WritesUnits, ParseValue, ParseUnits, SkipSpace, ParseMembers, Blank;
    var t3 := [COLON] + (value + tail);
    var t2 := mid + t3;
    var t1 := [QUOTE] + (body + [QUOTE] + t2);
    SkipComplete(pre, t1);
    UnitsComplete(body, f.0, t2);
    SkipComplete(mid, t3);
    PaddedComplete(value, f.1, tail);
    Behind(QUOTE, body + [QUOTE] + t2);
    Behind(COLON, value + tail);
    MembersRead(pre + t1, t1, f.0, t2, t3, f.1, tail);
  }

  lemma Behind(c: Unit, t: Text)
    ensures ([c] + t)[0] == c && ([c] + t)[1..] == t
  {
  }

  lemma MemberParts(a: Text, pre: Text, body: Text, mid: Text, value: Text, tail: Text)
    requires a == pre + ([QUOTE] + body + [QUOTE]) + mid + [COLON] + value
    ensures a + tail == pre + ([QUOTE] + (body + [QUOTE] + (mid + ([COLON] + (value + tail)))))
  {
    assert ([QUOTE] + body + [QUOTE]) + (mid + ([COLON] + (value + tail)))
        == [QUOTE] + (body + [QUOTE] + (mid + ([COLON] + (value + tail))));
  }

  lemma MembersRead(t: Text, t1: Text, k: Text, t2: Text, t3: Text, v: Json, t5: Text)
    requires SkipSpace(t) == t1 && t1 != [] && t1[0] == QUOTE && ParseUnits(t1[1..]) == Done(k, t2)
    requires SkipSpace(t2) == t3 && t3 != [] && t3[0] == COLON && ParseValue(t3[1..]).Done?
    requires ParseValue(t3[1..]).value == v && SkipSpace(ParseValue(t3[1..]).rest) == t5
    requires t5 != [] && t5[0] in {COMMA, RBRACE}
    ensures ParseMembers(t) ==
      if t5[0] == RBRACE then Done([(k, v)], t5[1..])
      else match ParseMembers(t5[1..]) case Done(fields, rest) => Done([(k, v)] + fields, rest) case Fail => Fail
  {
    hide SkipSpace, ParseUnits, ParseValue;
  }

  lemma {:induction false} MembersComplete(inner: Text, fields: seq<(Text, Json)>, rest: Text)
    requires fields != [] && WritesMembers(inner, fields)
    ensures ParseMembers(inner + ([RBRACE] + rest)) == Done(fields, rest)
    decreases |inner|, 4
  {
    hide WritesMember, ParseMembers;
    if |fields| == 1 {
      var tail := [RBRACE] + rest;
      MemberComplete(inner, fields[0], tail);
      assert fields == [fields[0]] && tail[1..] == rest;
    } else {
      var a, b :| inner == a + [COMMA] + b && WritesMember(a, fields[0]) && WritesMembers(b, fields[1..]);
      hide WritesMembers;
      MembersComplete(b, fields[1..], rest);
      var tail := [COMMA] + (b + ([RBRACE] + rest));
      MemberComplete(a, fields[0], tail);
      assert inner + ([RBRACE] + rest) == a + tail && tail[1..] == b + ([RBRACE] + rest);
      assert fields == [fields[0]] + fields[1..];
    }
  }

  // ---------------------------------------------------------------- main result

  /** Reading a value finds a text that writes it, and every text that writes a value is read as it. */
  lemma ParseValueIff(t: Text, v: Json)
    ensures (ParseValue(t).Done? && ParseValue(t).value == v && SkipSpace(ParseValue(t).rest) == []) <==> WritesPadded(t, v)
  {
    hide ParseValue, SkipSpace;
    if ParseValue(t).Done? && ParseValue(t).value == v && SkipSpace(ParseValue(t).rest) == [] {
      var a := PaddedSound(t);
      assert a + [] == a;
    }
    if WritesPadded(t, v) {
      PaddedComplete(t, v, []);
      assert t + [] == t;
    }
  }

  /** `JSON.parse` accepts exactly the JSON texts, and gives the value of the tree that the text writes. */
  lemma ParseIff(t: Text, x: Json)
    ensures Parse(t) == Some(x) <==> exists v :: WritesPadded(t, v) && Evaluate(v) == x
  {
    hide ParseValue, SkipSpace, WritesPadded, Evaluate;
    if ParseValue(t).Done? { ParseValueIff(t, ParseValue(t).value); }
    forall v ensures WritesPadded(t, v) ==> ParseValue(t).Done? && ParseValue(t).value == v && SkipSpace(ParseValue(t).rest) == [] {
      ParseValueIff(t, v);
    }
  }

  /** A text writes one tree at most. */
  lemma WrittenTreeUnique(t: Text, v: Json, w: Json)
    requires WritesPadded(t, v) && WritesPadded(t, w)
    ensures v == w
  {
    ParseValueIff(t, v);
    ParseValueIff(t, w);
  }

  lemma NoBlankFirst(pre: Text, mid: Text, post: Text)
    requires Blank(pre)
    ensures pre == [] || IsBlank((pre + mid + post)[0])
    ensures pre == [] && mid != [] ==> (pre + mid + post)[0] == mid[0]
  {
    if pre != [] { assert pre[0] in pre; }
  }

  lemma ValueTells(t: Text, v: Json)
    requires Writes(t, v)
    ensures t != [] && !IsBlank(t[0]) && (t[0] == LBRACE <==> v.Obj?) && (t[0] == LBRACKET <==> v.Arr?)
  {
    if v.Num? { NumberComplete(t, v.number, []); }
    hide WritesNumber, WritesUnits, WritesItems, WritesMembers, Blank, ParseNumber;
  }

  /** The first character tells objects and arrays from the rest. */
  lemma FirstTells(t: Text, v: Json)
    requires WritesPadded(t, v) && t != [] && !IsBlank(t[0])
    ensures (t[0] == LBRACE <==> v.Obj?) && (t[0] == LBRACKET <==> v.Arr?)
  {
    hide Writes, Blank;
    var pre, mid, post :| t == pre + mid + post && Blank(pre) && Writes(mid, v) && Blank(post);
    hide WritesPadded, IsBlank;
    NoBlankFirst(pre, mid, post);
    ValueTells(mid, v);
  }

  /** No tree is written by nothing. */
  lemma SomethingWritten(t: Text, v: Json)
    requires WritesPadded(t, v)
    ensures t != []
  {
    hide Writes, Blank;
    var pre, mid, post :| t == pre + mid + post && Blank(pre) && Writes(mid, v) && Blank(post);
    ValueTells(mid, v);
  }
}
