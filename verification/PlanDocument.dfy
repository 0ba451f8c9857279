/** Plans as JSON documents: what the executor reads of them, by looking properties up. The order in
    which an object lists its properties has no part in it. */
module PlanDocument {
  import opened Options
  import opened Utf16
  import opened Decimals
  import opened JsNumbers
  import opened Json
  import opened JsonCanonical
  import opened Preflight
  import W = WarningRules

  // ---------------------------------------------------------------- values without key order

  /** A value as property lookups see it. */
  datatype View = Leaf(value: Json) | List(items: seq<View>) | Record(fields: map<Text, View>)

  function ViewOf(v: Json): View
    decreases v
  {
    match v
    case Arr(items) => List(seq(|items|, i requires 0 <= i < |items| => ViewOf(items[i])))
    case Obj(fields) =>
      Record(MapOf(seq(|fields|, i requires 0 <= i < |fields| => (fields[i].0, ViewOf(fields[i].1)))))
    case _ => Leaf(v)
  }

  function MapOf<V>(es: seq<(Text, V)>): map<Text, V> {
    if es == [] then map[] else MapOf(es[..|es| - 1])[es[|es| - 1].0 := es[|es| - 1].1]
  }

  /** Under distinct keys a lookup finds exactly the entries. */
  lemma {:induction false} MapOfEntries<V>(es: seq<(Text, V)>, k: Text, v: V)
    requires DistinctKeys(es)
    ensures (k in MapOf(es) && MapOf(es)[k] == v) <==> (k, v) in es
    ensures k in MapOf(es) ==> (k, MapOf(es)[k]) in es
  {
    if es != [] {
      var n := |es| - 1;
      assert es == es[..n] + [es[n]];
      MapOfEntries(es[..n], k, v);
      assert forall x :: x in es[..n] ==> x.0 != es[n].0;
    }
  }

  /** The views of two field lists agree when one lists the entries of the other in any order. */
  lemma SameEntriesSameMap<V>(a: seq<(Text, V)>, b: seq<(Text, V)>)
    requires DistinctKeys(a) && DistinctKeys(b) && forall x :: x in a <==> x in b
    ensures MapOf(a) == MapOf(b)
  {
    forall k ensures k in MapOf(a) <==> k in MapOf(b) {
      if k in MapOf(a) {
        MapOfEntries(a, k, MapOf(a)[k]);
        MapOfEntries(b, k, MapOf(a)[k]);
      }
      if k in MapOf(b) {
        MapOfEntries(b, k, MapOf(b)[k]);
        MapOfEntries(a, k, MapOf(b)[k]);
      }
    }
    forall k | k in MapOf(a) ensures k in MapOf(b) && MapOf(a)[k] == MapOf(b)[k] {
      MapOfEntries(a, k, MapOf(a)[k]);
      MapOfEntries(b, k, MapOf(a)[k]);
    }
  }

  function FieldViews(fields: seq<(Text, Json)>): seq<(Text, View)> {
    seq(|fields|, i requires 0 <= i < |fields| => (fields[i].0, ViewOf(fields[i].1)))
  }

  /** Sorting the keys of a value does not change what lookups find. */
  lemma {:induction false} SortedView(v: Json)
    requires WellFormed(v)
    ensures ViewOf(SortKeys(v)) == ViewOf(v)
    decreases v
  {
    match v
    case Arr(items) =>
      forall i | 0 <= i < |items| ensures ViewOf(SortKeys(items[i])) == ViewOf(items[i]) { SortedView(items[i]); }
      assert ViewOf(SortKeys(v)).items == ViewOf(v).items;
    case Obj(fields) =>
      var s := SortByKey(fields);
      SortByKeySorted(fields);
      SortedDistinct(s, s);
      var t := SortKeys(v).fields;
      forall i | 0 <= i < |s| ensures ViewOf(t[i].1) == ViewOf(s[i].1) {
        assert s[i] in fields;
        SortedView(s[i].1);
      }
      assert FieldViews(t) == FieldViews(s);
      SameFieldViews(fields, s);
      assert ViewOf(SortKeys(v)) == Record(MapOf(FieldViews(t)));
    case _ =>
  }

  lemma SameFieldViews(a: seq<(Text, Json)>, b: seq<(Text, Json)>)
    requires DistinctKeys(a) && DistinctKeys(b) && forall x :: x in a <==> x in b
    ensures MapOf(FieldViews(a)) == MapOf(FieldViews(b))
  {
    hide ViewOf;
    forall x ensures x in FieldViews(a) <==> x in FieldViews(b) {
      ViewMember(a, b, x);
      ViewMember(b, a, x);
    }
    SameEntriesSameMap(FieldViews(a), FieldViews(b));
  }

  lemma ViewMember(a: seq<(Text, Json)>, b: seq<(Text, Json)>, x: (Text, View))
    requires forall y :: y in a ==> y in b
    ensures x in FieldViews(a) ==> x in FieldViews(b)
  {
    hide ViewOf;
    if x in FieldViews(a) {
      var i :| 0 <= i < |a| && FieldViews(a)[i] == x;
      assert a[i] in b;
      var j :| 0 <= j < |b| && b[j] == a[i];
      assert FieldViews(b)[j] == x;
    }
  }

  /** Values that are equal up to key order have the same properties, all the way down. */
  lemma SameGivesView(v: Json, w: Json)
    requires WellFormed(v) && WellFormed(w) && Same(v, w)
    ensures ViewOf(v) == ViewOf(w)
  {
    SameGivesSorted(v, w);
    SortedView(v);
    SortedView(w);
  }

  // ---------------------------------------------------------------- JavaScript conversions

  /** A property, if the value is an object that has it. */
  function Get(v: Option<View>, key: string): Option<View> {
    match v
    case Some(Record(fields)) => if UnitsOf(key) in fields then Some(fields[UnitsOf(key)]) else None
    case _ => None
  }

  /** A unit as a character; the surrogates, which are no characters, become private-use ones. */
  function CharOf(u: Unit): char {
    if 0xD800 <= u < 0xE000 then (0xF_0000 + (u - 0xD800)) as char else u as char
  }

  function UnitOf(c: char): Unit {
    var n := c as int;
    if 0xF_0000 <= n < 0xF_0800 then n - 0xF_0000 + 0xD800 else if n < 0x1_0000 then n else 0
  }

  function Chars(t: Text): string { seq(|t|, i requires 0 <= i < |t| => CharOf(t[i])) }

  function UnitsOf(s: string): Text { seq(|s|, i requires 0 <= i < |s| => UnitOf(s[i])) }

  /** Texts and their characters determine each other. */
  lemma CharsKeepText(t: Text)
    ensures UnitsOf(Chars(t)) == t
  {
  }

  /** A property that the object has is found, and nothing else under its key. */
  lemma PropertyFound(v: Json, k: Text, w: Json)
    requires v.Obj? && WellFormed(v) && (k, w) in v.fields
    ensures ViewOf(v).Record? && k in ViewOf(v).fields && ViewOf(v).fields[k] == ViewOf(w)
  {
    var views := FieldViews(v.fields);
    assert ViewOf(v) == Record(MapOf(views));
    hide MapOf;
    MapOfEntries(views, k, ViewOf(w));
    var i :| 0 <= i < |v.fields| && v.fields[i] == (k, w);
    assert views[i] == (k, ViewOf(w));
  }

  lemma PropertyMissing(v: Json, k: Text)
    requires v.Obj? && WellFormed(v) && forall f :: f in v.fields ==> f.0 != k
    ensures ViewOf(v).Record? && k !in ViewOf(v).fields
  {
    var views := FieldViews(v.fields);
    assert ViewOf(v) == Record(MapOf(views));
    hide MapOf;
    forall x | x in views ensures x.0 != k {
      var i :| 0 <= i < |views| && views[i] == x;
      assert v.fields[i] in v.fields;
    }
    MapOfEntries(views, k, Leaf(Null));
  }

  /** Looking a key up by its characters finds the property with that key, and no other. */
  lemma LookupFinds(v: Json, k: Text, w: Json)
    requires v.Obj? && WellFormed(v)
    ensures (k, w) in v.fields ==> Get(Some(ViewOf(v)), Chars(k)) == Some(ViewOf(w))
    ensures (forall f :: f in v.fields ==> f.0 != k) ==> Get(Some(ViewOf(v)), Chars(k)) == None
  {
    CharsKeepText(k);
    hide Chars, UnitsOf;
    if (k, w) in v.fields {
      PropertyFound(v, k, w);
    } else if forall f :: f in v.fields ==> f.0 != k {
      PropertyMissing(v, k);
    }
  }

  /** `String(value)` */
  function ToString(v: Option<View>): string {
    match v
    case None => "undefined"
    case Some(view) => ViewString(view)
  }

  function ViewString(v: View): string
    decreases v
  {
    match v
    case Leaf(Null) => "null"
    case Leaf(Bool(flag)) => if flag then "true" else "false"
    case Leaf(Num(number)) => Chars(NumberText(number))
    case Leaf(Str(text)) => Chars(text)
    case Leaf(_) => ""
    case List(items) => JoinStrings(seq(|items|, i requires 0 <= i < |items| =>
                          if items[i] == Leaf(Null) then "" else ViewString(items[i])))
    case Record(_) => "[object Object]"
  }

  function JoinStrings(parts: seq<string>): string {
    if parts == [] then "" else if |parts| == 1 then parts[0] else parts[0] + "," + JoinStrings(parts[1..])
  }

  /** `value ?? ""` as text. */
  function TextOf(v: Option<View>): string {
    if v == None || v == Some(Leaf(Null)) then "" else ToString(v)
  }

  /** `asArray` */
  function Items(v: Option<View>): seq<View> {
    match v
    case Some(List(items)) => items
    case _ => []
  }

  function Strings(vs: seq<View>): seq<string> {
    seq(|vs|, i requires 0 <= i < |vs| => ViewString(vs[i]))
  }

  /** `Number(value)` */
  function NumberIn(v: View): Option<Number> {
    match v
    case Leaf(Null) => Some(Zero)
    case Leaf(Bool(flag)) => NumberOf(if flag then [ZERO + 1] else [])
    case Leaf(Num(number)) => Some(number)
    case Leaf(Str(text)) => NumberOf(text)
    case List(_) => NumberOf(UnitsOf(ViewString(v)))
    case _ => None
  }

  function IntegerOf(v: View): Option<int> {
    match NumberIn(v)
    case Some(number) => Integer(number)
    case None => None
  }

  /** `Number(value ?? 1) === 1` */
  predicate Enabled(v: Option<View>) {
    v == None || IsNull(v.value) || IntegerOf(v.value) == Some(1)
  }

  predicate IsNull(v: View) { v == Leaf(Null) }

  /** The place that a `fieldSort` gives. */
  function SortOf(v: Option<View>): real {
    match v
    case Some(view) =>
      (match NumberIn(view)
       case Some(number) => RealOf(number)
       case None => 0.0)
    case None => 0.0
  }

  /** `value === text` */
  predicate IsText(v: Option<View>, text: string) {
    v.Some? && v.value.Leaf? && v.value.value.Str? && Chars(v.value.value.text) == text
  }

  /** A number and its printed text are the same number. */
  lemma NumbersAndTexts(x: Number)
    ensures NumberIn(Leaf(Str(NumberText(x)))) == NumberIn(Leaf(Num(x))) == Some(x)
  {
    NumberOfPrinted(x);
    hide NumberText, NumberOf;
  }

  /** `true` enables like one, `false` does not. */
  lemma FlagsEnable(flag: bool)
    ensures Enabled(Some(Leaf(Bool(flag)))) <==> flag
  {
    OneAndNone();
    hide NumberOf;
  }

  lemma OneAndNone()
    ensures NumberOf([ZERO + 1]) == Some(Decimal(false, [ZERO + 1], 1)) && Integer(Decimal(false, [ZERO + 1], 1)) == Some(1)
    ensures NumberOf([]) == Some(Zero)
  {
    var one: Text := [ZERO + 1];
    assert one[1..] == [] && Span([]) == ([], []) && Span(one).0 == [one[0]] + [];
    NumberOfJson([ZERO + 1]);
    assert Zeros(0) == [] && [ZERO + 1] + Zeros(0) == [ZERO + 1];
    assert DigitsValue([ZERO + 1][..0]) == 0 && DigitsValue([ZERO + 1]) == 1;
  }

  // ---------------------------------------------------------------- plans

  function ReadStatus(v: Option<View>): Status {
    if IsText(v, "ready") then Ready
    else if IsText(v, "compliant") then Compliant
    else if IsText(v, "waiting_review") then WaitingReview
    else if IsText(v, "rules_pending") then RulesPending
    else BlockedPlan
  }

  function ReadValue(v: View): W.Value {
    var paths := Items(Get(Some(v), "mappingPaths"));
    W.Value(ToString(Get(Some(v), "fieldValueId")), Enabled(Get(Some(v), "isEnabled")),
            Strings(Items(Get(Some(v), "exclusionFieldValueIds"))),
            seq(|paths|, i requires 0 <= i < |paths| => Strings(Items(Get(Some(paths[i]), "fieldValueIds")))))
  }

  function ReadField(v: View): W.Field {
    var values := Items(Get(Some(v), "presetFieldValues"));
    W.Field(TextOf(Get(Some(v), "fieldCode")), Enabled(Get(Some(v), "isEnabled")),
            SortOf(Get(Some(v), "fieldSort")), IsOne(Get(Some(v), "fieldType")),
            seq(|values|, i requires 0 <= i < |values| => ReadValue(values[i])))
  }

  /** `Number(value) === 1` */
  predicate IsOne(v: Option<View>) { v.Some? && IntegerOf(v.value) == Some(1) }

  function ReadRules(v: Option<View>): W.Rules {
    var fields := Items(Get(Get(v, "presetInfo"), "presetFields"));
    W.Rules(TextOf(Get(v, "certificateTypeCode")),
            seq(|fields|, i requires 0 <= i < |fields| => ReadField(fields[i])))
  }

  /** What is selected for the fields of the rules, each looked up by its code. */
  function ReadSelection(fields: seq<W.Field>, v: Option<View>): W.Selection {
    if fields == [] then map[]
    else
      var code := fields[|fields| - 1].code;
      ReadSelection(fields[..|fields| - 1], v)[code := Strings(Items(Get(v, code)))]
  }

  /** Of each field exactly what the document selects under the field's code is read. */
  lemma {:induction false} SelectionRead(fields: seq<W.Field>, v: Option<View>, i: nat)
    requires i < |fields|
    ensures W.Chosen(ReadSelection(fields, v), fields[i].code) == Strings(Items(Get(v, fields[i].code)))
  {
    var n := |fields| - 1;
    if i < n { SelectionRead(fields[..n], v, i); }
  }

  /** An enabled field lists a null value, so that building the request throws. */
  predicate ListsNullValue(rules: Option<View>) {
    var fields := Items(Get(Get(rules, "presetInfo"), "presetFields"));
    exists i, j :: 0 <= i < |fields| && Enabled(Get(Some(fields[i]), "isEnabled"))
                   && 0 <= j < |Items(Get(Some(fields[i]), "presetFieldValues"))|
                   && IsNull(Items(Get(Some(fields[i]), "presetFieldValues"))[j])
  }

  function ReadAgencyType(v: Option<View>): AgencyType {
    if v == None || IsNull(v.value) || v == Some(Leaf(Str([]))) then NoType
    else match IntegerOf(v.value)
      case Some(code) => TypeIs(code)
      case None => NotAType
  }

  function ReadKind(v: Option<View>): Kind {
    var kind := Get(v, "type");
    if IsText(kind, "certificate.bind_existing") then BindCertificate(TextOf(Get(v, "poolSn")))
    else if IsText(kind, "agency.bind") then
      BindAgency(TextOf(Get(v, "agencyId")), ReadAgencyType(Get(v, "agencyType")))
    else if IsText(kind, "warning.update") && ListsNullValue(Get(v, "rules")) then UnreadableAction
    else if IsText(kind, "warning.update") then
      var rules := ReadRules(Get(v, "rules"));
      UpdateWarning(ReadSelection(rules.fields, Get(v, "selectedByField")), rules)
    else if IsText(kind, "certificate.create_and_bind") then CreateCertificate
    else if IsText(kind, "photo.upload_and_bind") then
      UploadPhoto(TextOf(Get(v, "localAssetRef")), TextOf(Get(v, "uploadedPictureId")))
    else if IsText(kind, "certificate.recheck_store_scope") then RecheckCertificate
    else if IsText(kind, "agency.recheck_store_scope") then
      RecheckAgency(TextOf(Get(v, "agencyId")), ReadAgencyType(Get(v, "agencyType")))
    else OtherAction
  }

  function ReadAction(v: View): Action {
    Action(ReadKind(Some(v)), TextOf(Get(Some(v), "requirementKey")), TextOf(Get(Some(v), "certificateTypeCode")))
  }

  /** A plan as far as the executor looks at it: its blockers and waiting items play no part. */
  function ReadPlan(v: View): Plan {
    var actions := Items(Get(Some(v), "actions"));
    Plan(TextOf(Get(Some(v), "skc")), ReadStatus(Get(Some(v), "status")),
         seq(|actions|, i requires 0 <= i < |actions| => ReadAction(actions[i])), [], [])
  }

  /** The plans that a document lists. */
  function ReadPlans(document: Json): seq<Plan> {
    var plans := Items(Some(ViewOf(document)));
    seq(|plans|, i requires 0 <= i < |plans| => ReadPlan(plans[i]))
  }

  /** Looking at a null plan throws, and at a null action of a ready plan. */
  predicate PlanThrows(v: View) {
    IsNull(v) || (ReadStatus(Get(Some(v), "status")).Ready? && Leaf(Null) in Items(Get(Some(v), "actions")))
  }

  predicate Throws(document: Json) {
    exists v :: v in Items(Some(ViewOf(document))) && PlanThrows(v)
  }

  /** Documents that are equal up to key order list the same plans. */
  lemma SameDocumentsSamePlans(v: Json, w: Json)
    requires WellFormed(v) && WellFormed(w) && Same(v, w)
    ensures ReadPlans(v) == ReadPlans(w) && (Throws(v) <==> Throws(w))
  {
    SameGivesView(v, w);
  }
}
