/** JSON values as JavaScript holds them, `JSON.stringify`, the key-sorting printers of the
    repository, and `JSON.parse`. */
module Json {
  import opened Options
  import opened Utf16
  import opened Decimals

  /** An object lists its properties in enumeration order. */
  datatype Json =
    | Null
    | Bool(flag: bool)
    | Num(number: Number)
    | Str(text: Text)
    | Arr(items: seq<Json>)
    | Obj(fields: seq<(Text, Json)>)

  const QUOTE: Unit := 34
  const BACKSLASH: Unit := 92
  const COMMA: Unit := 44
  const COLON: Unit := 58
  const LBRACKET: Unit := 91
  const RBRACKET: Unit := 93
  const LBRACE: Unit := 123
  const RBRACE: Unit := 125
  const LOWER_U: Unit := 117
  const NULL_TEXT: Text := [110, 117, 108, 108]
  const TRUE_TEXT: Text := [116, 114, 117, 101]
  const FALSE_TEXT: Text := [102, 97, 108, 115, 101]

  // ---------------------------------------------------------------- properties of objects

  /** An array index: a canonical decimal below 2^32 - 1. Such keys are enumerated first,
      in ascending order. */
  predicate IsIndex(k: Text) {
    && k != []
    && (forall i :: 0 <= i < |k| ==> IsDigit(k[i]))
    && (|k| > 1 ==> k[0] != ZERO)
    && DigitsValue(k) < 0xFFFF_FFFF
  }

  /** Enumeration puts key `a` before key `b` whatever the order of insertion. */
  predicate MustPrecede(a: Text, b: Text) {
    IsIndex(a) && (!IsIndex(b) || DigitsValue(a) < DigitsValue(b))
  }

  /** Assigns a property: an existing key keeps its place, a new index key goes to its
      numeric place, any other new key goes last. */
  function SetProperty<V>(fields: seq<(Text, V)>, k: Text, v: V): seq<(Text, V)> {
    if fields == [] then [(k, v)]
    else if fields[0].0 == k then [(k, v)] + fields[1..]
    else if MustPrecede(k, fields[0].0) then [(k, v)] + fields
    else [fields[0]] + SetProperty(fields[1..], k, v)
  }

  /** `Object.fromEntries`: assigns the entries in turn. */
  function FromEntries<V>(entries: seq<(Text, V)>): seq<(Text, V)> {
    if entries == [] then []
    else
      var last := entries[|entries| - 1];
      SetProperty(FromEntries(entries[..|entries| - 1]), last.0, last.1)
  }

  /** Entries sorted by key, as by `Object.keys(value).sort()`. */
  function SortByKey<V>(entries: seq<(Text, V)>): (r: seq<(Text, V)>)
    ensures |r| == |entries|
    ensures forall i :: 0 <= i < |r| ==> r[i] in entries
  {
    if entries == [] then [] else InsertByKey(entries[0], SortByKey(entries[1..]))
  }

  function InsertByKey<V>(e: (Text, V), sorted: seq<(Text, V)>): (r: seq<(Text, V)>)
    ensures |r| == |sorted| + 1
    ensures forall i :: 0 <= i < |r| ==> r[i] == e || r[i] in sorted
  {
    if sorted == [] || TextLess(e.0, sorted[0].0) then [e] + sorted
    else [sorted[0]] + InsertByKey(e, sorted[1..])
  }

  // ---------------------------------------------------------------- printing

  predicate IsHighSurrogate(c: Unit) { 0xD800 <= c < 0xDC00 }

  predicate IsLowSurrogate(c: Unit) { 0xDC00 <= c < 0xE000 }

  function HexDigit(n: nat): Unit
    requires n < 16
  {
    if n < 10 then 48 + n else 87 + n
  }

  function HexText(c: Unit): Text {
    [HexDigit(c / 4096), HexDigit(c / 256 % 16), HexDigit(c / 16 % 16), HexDigit(c % 16)]
  }

  /** One code unit inside a string literal. */
  function EscapeUnit(c: Unit): Text {
    if c == 8 then [BACKSLASH, 98]
    else if c == 9 then [BACKSLASH, 116]
    else if c == 10 then [BACKSLASH, 110]
    else if c == 12 then [BACKSLASH, 102]
    else if c == 13 then [BACKSLASH, 114]
    else if c == QUOTE || c == BACKSLASH then [BACKSLASH, c]
    else if c < 32 || IsHighSurrogate(c) || IsLowSurrogate(c) then [BACKSLASH, LOWER_U] + HexText(c)
    else [c]
  }

  /** A surrogate pair is printed as it is; a lone surrogate is escaped. */
  function EscapeText(s: Text): Text {
    if s == [] then []
    else if |s| > 1 && IsHighSurrogate(s[0]) && IsLowSurrogate(s[1]) then s[..2] + EscapeText(s[2..])
    else EscapeUnit(s[0]) + EscapeText(s[1..])
  }

  function Quoted(s: Text): Text {
    [QUOTE] + EscapeText(s) + [QUOTE]
  }

  function Join(parts: seq<Text>): Text {
    if parts == [] then []
    else if |parts| == 1 then parts[0]
    else parts[0] + [COMMA] + Join(parts[1..])
  }

  function Member(k: Text, t: Text): Text {
    Quoted(k) + [COLON] + t
  }

  /** `JSON.stringify` */
  function Stringify(v: Json): Text
    decreases v
  {
    match v
    case Null => NULL_TEXT
    case Bool(b) => if b then TRUE_TEXT else FALSE_TEXT
    case Num(n) => NumberText(n)
    case Str(s) => Quoted(s)
    case Arr(items) =>
      [LBRACKET] + Join(seq(|items|, i requires 0 <= i < |items| => Stringify(items[i]))) + [RBRACKET]
    case Obj(fields) =>
      [LBRACE]
      + Join(seq(|fields|, i requires 0 <= i < |fields| => Member(fields[i].0, Stringify(fields[i].1))))
      + [RBRACE]
  }

  /** `stableJson`: prints every object with its keys sorted. */
  function StableJson(v: Json): Text
    decreases v
  {
    match v
    case Arr(items) =>
      [LBRACKET] + Join(seq(|items|, i requires 0 <= i < |items| => StableJson(items[i]))) + [RBRACKET]
    case Obj(fields) =>
      var s := SortByKey(fields);
      [LBRACE]
      + Join(seq(|s|, i requires 0 <= i < |s| => Member(s[i].0, StableJson(s[i].1))))
      + [RBRACE]
    case _ => Stringify(v)
  }

  /** `canonicalize`: rebuilds every object from its sorted entries. */
  function Canonicalize(v: Json): Json
    decreases v
  {
    match v
    case Arr(items) => Arr(seq(|items|, i requires 0 <= i < |items| => Canonicalize(items[i])))
    case Obj(fields) =>
      var s := SortByKey(fields);
      Obj(FromEntries(seq(|s|, i requires 0 <= i < |s| => (s[i].0, Canonicalize(s[i].1)))))
    case _ => v
  }

  // ---------------------------------------------------------------- parsing

  function SkipSpace(t: Text): (r: Text)
    ensures |r| <= |t|
  {
    if t != [] && (t[0] == 32 || t[0] == 9 || t[0] == 10 || t[0] == 13) then SkipSpace(t[1..]) else t
  }

  function HexValue(c: Unit): (n: int)
    ensures n < 16
  {
    if 48 <= c <= 57 then c - 48
    else if 97 <= c <= 102 then c - 87
    else if 65 <= c <= 70 then c - 55
    else -1
  }

  function ParseHex(t: Text): Parsed<Unit> {
    if |t| < 4 then Fail
    else
      var (a, b, c, d) := (HexValue(t[0]), HexValue(t[1]), HexValue(t[2]), HexValue(t[3]));
      if a < 0 || b < 0 || c < 0 || d < 0 then Fail
      else Done(a * 4096 + b * 256 + c * 16 + d, t[4..])
  }

  /** What follows a backslash (RFC 8259, section 7). */
  function ParseEscape(t: Text): (r: Parsed<Unit>)
    ensures r.Done? ==> |r.rest| < |t|
  {
    if t == [] then Fail
    else if t[0] == QUOTE || t[0] == BACKSLASH || t[0] == 47 then Done(t[0], t[1..])
    else if t[0] == 98 then Done(8, t[1..])
    else if t[0] == 102 then Done(12, t[1..])
    else if t[0] == 110 then Done(10, t[1..])
    else if t[0] == 114 then Done(13, t[1..])
    else if t[0] == 116 then Done(9, t[1..])
    else if t[0] == LOWER_U then ParseHex(t[1..])
    else Fail
  }

  /** The rest of a string literal after its opening quote. */
  function ParseUnits(t: Text): (r: Parsed<Text>)
    ensures r.Done? ==> |r.value| + 1 + |r.rest| <= |t|
  {
    if t == [] || t[0] < 32 then Fail
    else if t[0] == QUOTE then Done([], t[1..])
    else if t[0] == BACKSLASH then
      var (c, t1) :- ParseEscape(t[1..]);
      var (s, rest) :- ParseUnits(t1);
      Done([c] + s, rest)
    else
      var (s, rest) :- ParseUnits(t[1..]);
      Done([t[0]] + s, rest)
  }

  function ParseLiteral(v: Json, word: Text, t: Text): (r: Parsed<Json>)
    requires word != []
    ensures r.Done? ==> |r.rest| < |t|
  {
    if word <= t then Done(v, t[|word|..]) else Fail
  }

  /** Reads one value; objects keep their members in text order. */
  function ParseValue(t0: Text): (r: Parsed<Json>)
    ensures r.Done? ==> |r.rest| < |t0|
    decreases |t0|, 0
  {
    var t := SkipSpace(t0);
    if t == [] then Fail
    else if t[0] == LBRACE then
      var t1 := SkipSpace(t[1..]);
      if t1 != [] && t1[0] == RBRACE then Done(Obj([]), t1[1..])
      else
        var (fields, rest) :- ParseMembers(t1);
        Done(Obj(fields), rest)
    else if t[0] == LBRACKET then
      var t1 := SkipSpace(t[1..]);
      if t1 != [] && t1[0] == RBRACKET then Done(Arr([]), t1[1..])
      else
        var (items, rest) :- ParseItems(t1);
        Done(Arr(items), rest)
    else if t[0] == QUOTE then
      var (s, rest) :- ParseUnits(t[1..]);
      Done(Str(s), rest)
    else if t[0] == TRUE_TEXT[0] then ParseLiteral(Bool(true), TRUE_TEXT, t)
    else if t[0] == FALSE_TEXT[0] then ParseLiteral(Bool(false), FALSE_TEXT, t)
    else if t[0] == NULL_TEXT[0] then ParseLiteral(Null, NULL_TEXT, t)
    else
      var (n, rest) :- ParseNumber(t);
      Done(Num(n), rest)
  }

  /** One or more array items and the closing bracket. */
  function ParseItems(t: Text): (r: Parsed<seq<Json>>)
    ensures r.Done? ==> |r.rest| < |t|
    decreases |t|, 1
  {
    var (v, t1) :- ParseValue(t);
    var t2 := SkipSpace(t1);
    if t2 == [] then Fail
    else if t2[0] == RBRACKET then Done([v], t2[1..])
    else if t2[0] == COMMA then
      var (vs, rest) :- ParseItems(t2[1..]);
      Done([v] + vs, rest)
    else Fail
  }

  /** One or more object members and the closing brace. */
  function ParseMembers(t: Text): (r: Parsed<seq<(Text, Json)>>)
    ensures r.Done? ==> |r.rest| < |t|
    decreases |t|, 1
  {
    var t1 := SkipSpace(t);
    if t1 == [] || t1[0] != QUOTE then Fail
    else
      var (k, t2) :- ParseUnits(t1[1..]);
      var t3 := SkipSpace(t2);
      if t3 == [] || t3[0] != COLON then Fail
      else
        var (v, t4) :- ParseValue(t3[1..]);
        var t5 := SkipSpace(t4);
        if t5 == [] then Fail
        else if t5[0] == RBRACE then Done([(k, v)], t5[1..])
        else if t5[0] == COMMA then
          var (fields, rest) :- ParseMembers(t5[1..]);
          Done([(k, v)] + fields, rest)
        else Fail
  }

  /** Builds the JavaScript value of a syntax tree: the members of each object are assigned in turn. */
  function Evaluate(v: Json): Json
    decreases v
  {
    match v
    case Arr(items) => Arr(seq(|items|, i requires 0 <= i < |items| => Evaluate(items[i])))
    case Obj(fields) =>
      Obj(FromEntries(seq(|fields|, i requires 0 <= i < |fields| => (fields[i].0, Evaluate(fields[i].1)))))
    case _ => v
  }

  /** `JSON.parse`; `None` is the SyntaxError. */
  function Parse(t: Text): Option<Json> {
    match ParseValue(t)
    case Done(v, rest) => if SkipSpace(rest) == [] then Some(Evaluate(v)) else None
    case Fail => None
  }
}
