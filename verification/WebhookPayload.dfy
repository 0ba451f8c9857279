/** Webhook payload normalization, which re-enters embedded JSON text, and the dedupe key
    made from a normalized payload. */
module WebhookPayload {
  import opened Trimming
  import opened Utf16
  import opened Json
  import opened JsonCanonical
  import opened JsonGrammar
  import opened JsonParsing

  const DATA_KEY: Text := [100, 97, 116, 97]

  function Trim(t: Text): (r: Text)
    ensures |r| <= |t|
  {
    TrimWhere((c: Unit) => IsSpaceCode(c), t)
  }

  function ParseJsonString(v: Json): Json {
    if !v.Str? then v
    else
      var trimmed := Trim(v.text);
      if trimmed == [] || (trimmed[0] != LBRACE && trimmed[0] != LBRACKET) then v
      else match Parse(trimmed)
        case None => v
        case Some(w) => w
  }

  /** A text is re-entered exactly when, trimmed, it is the JSON text of an object or an array; it then
      becomes the value of that text. */
  lemma ReenteredIff(v: Json, w: Json)
    requires v.Str?
    ensures (ParseJsonString(v) == w && w != v) <==>
      exists tree: Json :: (tree.Obj? || tree.Arr?) && WritesPadded(Trim(v.text), tree) && Evaluate(tree) == w
  {
    hide WritesPadded, Parse;
    var t := Trim(v.text);
    ParseIff(t, w);
    TrimmedStart(v.text);
    forall tree | WritesPadded(t, tree) ensures t != [] && (t[0] == LBRACE <==> tree.Obj?) && (t[0] == LBRACKET <==> tree.Arr?) {
      SomethingWritten(t, tree);
      FirstTells(t, tree);
    }
  }

  lemma TrimmedStart(t: Text)
    ensures Trim(t) != [] ==> !IsBlank(Trim(t)[0])
  {
  }

  // ---------------------------------------------------------------- the text left to read

  function Sum(ws: seq<nat>): nat {
    if ws == [] then 0 else ws[0] + Sum(ws[1..])
  }

  /** How much string content a value still holds, counting one for every value. */
  function Weight(v: Json): nat
    decreases v
  {
    match v
    case Str(s) => |s| + 1
    case Arr(items) => 1 + Sum(seq(|items|, i requires 0 <= i < |items| => Weight(items[i])))
    case Obj(fields) => 1 + Sum(seq(|fields|, i requires 0 <= i < |fields| => Weight(fields[i].1)))
    case _ => 1
  }

  function Weights(items: seq<Json>): seq<nat> {
    seq(|items|, i requires 0 <= i < |items| => Weight(items[i]))
  }

  function FieldWeights(fields: seq<(Text, Json)>): seq<nat> {
    seq(|fields|, i requires 0 <= i < |fields| => Weight(fields[i].1))
  }

  lemma {:induction false} SumMember(ws: seq<nat>, i: nat)
    requires i < |ws|
    ensures ws[i] <= Sum(ws)
  {
    if i > 0 { SumMember(ws[1..], i - 1); }
  }

  lemma ItemLighter(v: Json, i: nat)
    requires v.Arr? && i < |v.items|
    ensures Weight(v.items[i]) < Weight(v)
  {
    SumMember(Weights(v.items), i);
  }

  lemma FieldLighter(v: Json, i: nat)
    requires v.Obj? && i < |v.fields|
    ensures Weight(v.fields[i].1) < Weight(v)
  {
    SumMember(FieldWeights(v.fields), i);
  }

  /** Parsing a value takes at least its weight from the text. */
  lemma {:induction false} ParseValueWeight(t: Text)
    requires ParseValue(t).Done?
    ensures var r := ParseValue(t);
            Weight(r.value) + |r.rest| <= |t| && (r.value.Arr? || r.value.Obj? ==> Weight(r.value) + |r.rest| < |t|)
    decreases |t|, 0
  {
    var t0 := SkipSpace(t);
    if t0[0] == LBRACE {
      var t1 := SkipSpace(t0[1..]);
      if t1 == [] || t1[0] != RBRACE { ParseMembersWeight(t1); }
    } else if t0[0] == LBRACKET {
      var t1 := SkipSpace(t0[1..]);
      if t1 == [] || t1[0] != RBRACKET { ParseItemsWeight(t1); }
    }
  }

  lemma {:induction false} ParseItemsWeight(t: Text)
    requires ParseItems(t).Done?
    ensures var r := ParseItems(t); Sum(Weights(r.value)) + 1 + |r.rest| <= |t|
    decreases |t|, 1
  {
    hide ParseValue;
    ParseValueWeight(t);
    var x := ParseValue(t).value;
    var t2 := SkipSpace(ParseValue(t).rest);
    if t2[0] == COMMA {
      ParseItemsWeight(t2[1..]);
      var xs := ParseItems(t2[1..]).value;
      assert Weights([x] + xs)[1..] == Weights(xs);
    } else {
      assert Weights([x])[1..] == [];
    }
  }

  lemma {:induction false} ParseMembersWeight(t: Text)
    requires ParseMembers(t).Done?
    ensures var r := ParseMembers(t); Sum(FieldWeights(r.value)) + 1 + |r.rest| <= |t|
    decreases |t|, 1
  {
    hide ParseValue, ParseUnits, Weight, FieldWeights;
    var t1 := SkipSpace(t);
    var k := ParseUnits(t1[1..]).value;
    var t3 := SkipSpace(ParseUnits(t1[1..]).rest);
    ParseValueWeight(t3[1..]);
    var x := ParseValue(t3[1..]).value;
    var t5 := SkipSpace(ParseValue(t3[1..]).rest);
    if t5[0] == COMMA {
      ParseMembersWeight(t5[1..]);
      FirstFieldWeight(k, x, ParseMembers(t5[1..]).value);
    } else {
      FirstFieldWeight(k, x, []);
      NoFieldWeight();
      assert [(k, x)] + [] == [(k, x)];
    }
  }

  lemma FirstFieldWeight(k: Text, x: Json, fields: seq<(Text, Json)>)
    ensures Sum(FieldWeights([(k, x)] + fields)) == Weight(x) + Sum(FieldWeights(fields))
  {
    assert FieldWeights([(k, x)] + fields)[1..] == FieldWeights(fields);
  }

  lemma NoFieldWeight()
    ensures Sum(FieldWeights([])) == 0
  {
  }

  lemma {:induction false} SetPropertyWeight(fields: seq<(Text, Json)>, k: Text, v: Json)
    ensures Sum(FieldWeights(SetProperty(fields, k, v))) <= Sum(FieldWeights(fields)) + Weight(v)
  {
    var r := SetProperty(fields, k, v);
    assert fields != [] ==> FieldWeights(fields)[1..] == FieldWeights(fields[1..]);
    if fields == [] {
      assert FieldWeights(r)[1..] == [];
    } else if fields[0].0 == k {
      assert FieldWeights(r)[1..] == FieldWeights(fields[1..]);
    } else if MustPrecede(k, fields[0].0) {
      assert FieldWeights(r)[1..] == FieldWeights(fields);
    } else {
      SetPropertyWeight(fields[1..], k, v);
      assert FieldWeights(r)[1..] == FieldWeights(SetProperty(fields[1..], k, v));
    }
  }

  lemma {:induction false} SumLast(ws: seq<nat>)
    requires ws != []
    ensures Sum(ws) == Sum(ws[..|ws| - 1]) + ws[|ws| - 1]
  {
    if |ws| > 1 {
      SumLast(ws[1..]);
      assert ws[1..][..|ws| - 2] == ws[..|ws| - 1][1..];
    }
  }

  lemma {:induction false} FromEntriesWeight(es: seq<(Text, Json)>)
    ensures Sum(FieldWeights(FromEntries(es))) <= Sum(FieldWeights(es))
  {
    if es != [] {
      var n := |es| - 1;
      FromEntriesWeight(es[..n]);
      SetPropertyWeight(FromEntries(es[..n]), es[n].0, es[n].1);
      SumLast(FieldWeights(es));
      assert FieldWeights(es)[..n] == FieldWeights(es[..n]);
    }
  }

  lemma {:induction false} SumMonotone(a: seq<nat>, b: seq<nat>)
    requires |a| == |b| && forall i :: 0 <= i < |a| ==> a[i] <= b[i]
    ensures Sum(a) <= Sum(b)
  {
    if a != [] { SumMonotone(a[1..], b[1..]); }
  }

  lemma {:induction false} EvaluateWeight(v: Json)
    ensures Weight(Evaluate(v)) <= Weight(v)
    decreases v
  {
    match v
    case Arr(items) =>
      forall i | 0 <= i < |items| ensures Weight(Evaluate(items[i])) <= Weight(items[i]) { EvaluateWeight(items[i]); }
      SumMonotone(Weights(Evaluate(v).items), Weights(items));
    case Obj(fields) =>
      var es := seq(|fields|, i requires 0 <= i < |fields| => (fields[i].0, Evaluate(fields[i].1)));
      forall i | 0 <= i < |fields| ensures Weight(es[i].1) <= Weight(fields[i].1) { EvaluateWeight(fields[i].1); }
      SumMonotone(FieldWeights(es), FieldWeights(fields));
      FromEntriesWeight(es);
    case _ =>
  }

  /** Re-entering a string never gains weight; when it yields a container it loses some. */
  lemma ParseJsonStringWeight(v: Json)
    ensures Weight(ParseJsonString(v)) <= Weight(v)
    ensures v.Str? && ParseJsonString(v) != v ==> ParseJsonString(v).Arr? || ParseJsonString(v).Obj?
  {
    if v.Str? && ParseJsonString(v) != v {
      var t := Trim(v.text);
      ParseValueWeight(t);
      EvaluateWeight(ParseValue(t).value);
    }
  }

  // ---------------------------------------------------------------- normalization

  /** `normalizeSheinWebhookPayload` */
  function Normalize(input: Json): Json
    decreases Weight(input)
  {
    var parsed := ParseJsonString(input);
    ParseJsonStringWeight(input);
    match parsed
    case Arr(items) =>
      Arr(seq(|items|, i requires 0 <= i < |items| => ItemLighter(parsed, i); Normalize(items[i])))
    case Obj(fields) =>
      Obj(FromEntries(seq(|fields|, i requires 0 <= i < |fields| =>
        FieldLighter(parsed, i); ParseJsonStringWeight(fields[i].1);
        (fields[i].0, if fields[i].0 == DATA_KEY then Normalize(ParseJsonString(fields[i].1)) else fields[i].1))))
    case _ => parsed
  }

  /** The fields a normalized object is made of. */
  function NormalFields(fields: seq<(Text, Json)>): seq<(Text, Json)> {
    seq(|fields|, i requires 0 <= i < |fields| =>
      (fields[i].0, if fields[i].0 == DATA_KEY then Normalize(ParseJsonString(fields[i].1)) else fields[i].1))
  }

  lemma ParseJsonStringValue(v: Json)
    requires IsValue(v)
    ensures IsValue(ParseJsonString(v))
  {
    if v.Str? && ParseJsonString(v) != v {
      EvaluateIsValue(ParseValue(Trim(v.text)).value);
    }
  }

  /** An object keeps its keys, their order, and every value but that of `data`. */
  lemma NormalizeObject(v: Json)
    requires v.Obj? && IsValue(v)
    ensures Normalize(v) == Obj(NormalFields(v.fields))
  {
    FromEntriesFixed(NormalFields(v.fields));
  }

  /** A normalized value is left alone by the string parser. */
  lemma NormalizedNotText(v: Json)
    ensures ParseJsonString(Normalize(v)) == Normalize(v)
  {
    ParseJsonStringWeight(v);
  }

  lemma {:induction false} NormalizeIsValue(v: Json)
    requires IsValue(v)
    ensures IsValue(Normalize(v))
    decreases Weight(v)
  {
    ParseJsonStringWeight(v);
    ParseJsonStringValue(v);
    var p := ParseJsonString(v);
    if p.Arr? {
      forall i | 0 <= i < |p.items| ensures IsValue(Normalize(p.items[i])) {
        ItemLighter(p, i);
        NormalizeIsValue(p.items[i]);
      }
    } else if p.Obj? {
      forall i | 0 <= i < |p.fields| ensures IsValue(NormalFields(p.fields)[i].1) {
        FieldLighter(p, i);
        ParseJsonStringWeight(p.fields[i].1);
        ParseJsonStringValue(p.fields[i].1);
        NormalizeIsValue(ParseJsonString(p.fields[i].1));
      }
      FromEntriesFixed(NormalFields(p.fields));
    }
  }

  /** Normalizing twice is normalizing once. */
  lemma {:induction false} NormalizeIdempotent(v: Json)
    requires IsValue(v)
    ensures Normalize(Normalize(v)) == Normalize(v)
    decreases Weight(v)
  {
    ParseJsonStringWeight(v);
    ParseJsonStringValue(v);
    NormalizedNotText(v);
    var p := ParseJsonString(v);
    if p.Arr? {
      var items := Normalize(v).items;
      forall i | 0 <= i < |items| ensures Normalize(items[i]) == items[i] {
        ItemLighter(p, i);
        NormalizeIdempotent(p.items[i]);
      }
      assert Normalize(Normalize(v)).items == items;
    } else if p.Obj? {
      NormalizeIsValue(v);
      FromEntriesFixed(NormalFields(p.fields));
      var fields := NormalFields(p.fields);
      assert Normalize(v) == Obj(fields);
      forall i | 0 <= i < |fields| && fields[i].0 == DATA_KEY
        ensures Normalize(ParseJsonString(fields[i].1)) == fields[i].1
      {
        FieldLighter(p, i);
        ParseJsonStringWeight(p.fields[i].1);
        ParseJsonStringValue(p.fields[i].1);
        NormalizeIdempotent(ParseJsonString(p.fields[i].1));
        NormalizedNotText(ParseJsonString(p.fields[i].1));
      }
      NormalizeObject(Normalize(v));
      assert NormalFields(fields) == fields;
    }
  }

  lemma ContainerText(v: Json)
    requires IsValue(v) && (v.Arr? || v.Obj?)
    ensures ParseJsonString(Str(Stringify(v))) == v
  {
    var t := Stringify(v);
    assert t[|t| - 1] == RBRACKET || t[|t| - 1] == RBRACE;
    assert Trim(t) == t;
    ParseStringifyValue(v);
  }

  /** A payload is the same whether it arrives as a container or as that container's text. */
  lemma NormalizeText(v: Json)
    requires IsValue(v) && (v.Arr? || v.Obj?)
    ensures Normalize(Str(Stringify(v))) == Normalize(v)
  {
    ContainerText(v);
  }

  /** The same holds for the value of the `data` field. */
  lemma NormalizeDataText(fields: seq<(Text, Json)>, i: nat)
    requires IsValue(Obj(fields)) && i < |fields|
    requires fields[i].0 == DATA_KEY && (fields[i].1.Arr? || fields[i].1.Obj?)
    ensures Normalize(Obj(fields[i := (DATA_KEY, Str(Stringify(fields[i].1)))])) == Normalize(Obj(fields))
  {
    var texts := fields[i := (DATA_KEY, Str(Stringify(fields[i].1)))];
    ContainerText(fields[i].1);
    assert IsValue(Obj(texts)) by {
      forall j | 0 <= j < |texts| ensures IsValue(texts[j].1) && texts[j].0 == fields[j].0 {}
    }
    NormalizeObject(Obj(fields));
    NormalizeObject(Obj(texts));
    assert NormalFields(texts) == NormalFields(fields);
  }
}
