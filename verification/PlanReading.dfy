/** A document that shows plans is read as exactly these plans: each property under its own name. */
module PlanReading {
  import opened Options
  import opened Utf16
  import opened Decimals
  import opened JsNumbers
  import opened Json
  import opened JsonCanonical
  import opened Preflight
  import opened PlanDocument
  import W = WarningRules

  // ---------------------------------------------------------------- what a document shows

  /** The object has the property. */
  ghost predicate Has(v: Json, key: string, w: Json) { v.Obj? && (UnitsOf(key), w) in v.fields }

  ghost predicate Lacks(v: Json, key: string) { v.Obj? && forall f :: f in v.fields ==> f.0 != UnitsOf(key) }

  /** A text, or a number that is printed as it. */
  ghost predicate Spells(v: Json, s: string) {
    match v
    case Str(text) => Chars(text) == s
    case Num(number) => Chars(NumberText(number)) == s
    case _ => false
  }

  ghost predicate HasString(v: Json, key: string, s: string) { exists w :: Has(v, key, w) && Spells(w, s) }

  /** The same, where an absent or null property stands for the empty text. */
  ghost predicate HasOptional(v: Json, key: string, s: string) {
    HasString(v, key, s) || (s == "" && (Lacks(v, key) || Has(v, key, Null)))
  }

  /** The text alone; a number would not do. */
  ghost predicate HasWord(v: Json, key: string, s: string) { exists t: Text :: Has(v, key, Str(t)) && Chars(t) == s }

  ghost predicate SpellsAll(v: Json, ss: seq<string>) {
    v.Arr? && |v.items| == |ss| && forall i :: 0 <= i < |ss| ==> Spells(v.items[i], ss[i])
  }

  /** Nothing is said of a switch that is on, or its number is one. */
  ghost predicate Switch(v: Json, on: bool) {
    || (on && (Lacks(v, "isEnabled") || Has(v, "isEnabled", Null)))
    || Has(v, "isEnabled", Bool(on))
    || exists x :: Has(v, "isEnabled", Num(x)) && (on <==> Integer(x) == Some(1))
  }

  ghost predicate ShowsPath(v: Json, path: seq<string>) {
    exists w :: Has(v, "fieldValueIds", w) && SpellsAll(w, path)
  }

  ghost predicate ShowsPaths(w: Json, paths: seq<seq<string>>) {
    w.Arr? && |w.items| == |paths| && forall i :: 0 <= i < |paths| ==> ShowsPath(w.items[i], paths[i])
  }

  ghost predicate ShowsValue(v: Json, value: W.Value) {
    && HasString(v, "fieldValueId", value.id) && Switch(v, value.enabled)
    && (exists w :: Has(v, "exclusionFieldValueIds", w) && SpellsAll(w, value.exclusions))
    && (exists w :: Has(v, "mappingPaths", w) && ShowsPaths(w, value.mappingPaths))
  }

  ghost predicate ShowsValues(w: Json, values: seq<W.Value>) {
    w.Arr? && |w.items| == |values| && forall i :: 0 <= i < |values| ==> ShowsValue(w.items[i], values[i])
  }

  ghost predicate ShowsField(v: Json, f: W.Field) {
    && HasString(v, "fieldCode", f.code) && Switch(v, f.enabled)
    && (exists x :: Has(v, "fieldSort", Num(x)) && RealOf(x) == f.sort)
    && (exists x :: Has(v, "fieldType", Num(x)) && (f.single <==> Integer(x) == Some(1)))
    && (exists w :: Has(v, "presetFieldValues", w) && ShowsValues(w, f.values))
  }

  ghost predicate ShowsFields(w: Json, fields: seq<W.Field>) {
    w.Arr? && |w.items| == |fields| && forall i :: 0 <= i < |fields| ==> ShowsField(w.items[i], fields[i])
  }

  ghost predicate ShowsRules(v: Json, rules: W.Rules) {
    && HasOptional(v, "certificateTypeCode", rules.certificateTypeCode)
    && exists info, w :: Has(v, "presetInfo", info) && Has(info, "presetFields", w) && ShowsFields(w, rules.fields)
  }

  /** The selection of the fields of some rules; what a document selects beside it plays no part. */
  ghost predicate ShowsSelection(v: Json, fields: seq<W.Field>, selected: W.Selection) {
    && selected.Keys == (set f | f in fields :: f.code)
    && forall f :: f in fields ==> ShowsChosen(v, f.code, selected[f.code])
  }

  ghost predicate ShowsChosen(v: Json, code: string, ids: seq<string>) {
    (ids == [] && Lacks(v, code)) || exists w :: Has(v, code, w) && SpellsAll(w, ids)
  }

  ghost predicate ShowsAgencyType(v: Json, t: AgencyType) {
    match t
    case NoType => Lacks(v, "agencyType") || Has(v, "agencyType", Null) || Has(v, "agencyType", Str([]))
    case TypeIs(code) => exists x :: Has(v, "agencyType", Num(x)) && Integer(x) == Some(code)
    case NotAType => exists x :: Has(v, "agencyType", Num(x)) && Integer(x) == None
  }

  ghost predicate ShowsKind(v: Json, kind: Kind) {
    match kind
    case BindCertificate(poolSn) => HasWord(v, "type", "certificate.bind_existing") && HasString(v, "poolSn", poolSn)
    case BindAgency(agencyId, agencyType) =>
      HasWord(v, "type", "agency.bind") && HasString(v, "agencyId", agencyId) && ShowsAgencyType(v, agencyType)
    case UpdateWarning(selected, rules) =>
      && HasWord(v, "type", "warning.update")
      && exists w, s :: Has(v, "rules", w) && ShowsRules(w, rules)
                        && Has(v, "selectedByField", s) && ShowsSelection(s, rules.fields, selected)
    case CreateCertificate => HasWord(v, "type", "certificate.create_and_bind")
    case UploadPhoto(localAssetRef, uploadedPictureId) =>
      && HasWord(v, "type", "photo.upload_and_bind")
      && HasOptional(v, "localAssetRef", localAssetRef) && HasOptional(v, "uploadedPictureId", uploadedPictureId)
    case RecheckCertificate => HasWord(v, "type", "certificate.recheck_store_scope")
    case RecheckAgency(agencyId, agencyType) =>
      && HasWord(v, "type", "agency.recheck_store_scope") && HasString(v, "agencyId", agencyId)
      && ShowsAgencyType(v, agencyType)
    case _ => false
  }

  ghost predicate ShowsAction(v: Json, a: Action) {
    ShowsKind(v, a.kind) && HasString(v, "requirementKey", a.key) && HasOptional(v, "certificateTypeCode", a.typeCode)
  }

  ghost predicate ShowsActions(w: Json, actions: seq<Action>) {
    w.Arr? && |w.items| == |actions| && forall i :: 0 <= i < |actions| ==> ShowsAction(w.items[i], actions[i])
  }

  function StatusName(status: Status): string {
    match status
    case Ready => "ready"
    case Compliant => "compliant"
    case WaitingReview => "waiting_review"
    case RulesPending => "rules_pending"
    case BlockedPlan => "blocked"
  }

  ghost predicate ShowsPlan(v: Json, p: Plan) {
    && HasString(v, "skc", p.skc) && HasWord(v, "status", StatusName(p.status))
    && exists w :: Has(v, "actions", w) && ShowsActions(w, p.actions)
  }

  ghost predicate ShowsPlans(v: Json, plans: seq<Plan>) {
    v.Arr? && |v.items| == |plans| && forall i :: 0 <= i < |plans| ==> ShowsPlan(v.items[i], plans[i])
  }

  // ---------------------------------------------------------------- what is read

  lemma Finds(v: Json, key: string, w: Json)
    requires WellFormed(v) && Has(v, key, w)
    ensures Get(Some(ViewOf(v)), key) == Some(ViewOf(w)) && WellFormed(w)
  {
    PropertyFound(v, UnitsOf(key), w);
    var i :| 0 <= i < |v.fields| && v.fields[i] == (UnitsOf(key), w);
  }

  lemma FindsNone(v: Json, key: string)
    requires WellFormed(v) && Lacks(v, key)
    ensures Get(Some(ViewOf(v)), key) == None
  {
    PropertyMissing(v, UnitsOf(key));
  }

  lemma StringFound(v: Json, key: string, s: string)
    requires WellFormed(v) && HasString(v, key, s)
    ensures TextOf(Get(Some(ViewOf(v)), key)) == ToString(Get(Some(ViewOf(v)), key)) == s
  {
    var w :| Has(v, key, w) && Spells(w, s);
    Finds(v, key, w);
  }

  lemma OptionalFound(v: Json, key: string, s: string)
    requires WellFormed(v) && HasOptional(v, key, s)
    ensures TextOf(Get(Some(ViewOf(v)), key)) == s
  {
    hide Get, HasString, ViewString;
    if HasString(v, key, s) {
      StringFound(v, key, s);
    } else if Lacks(v, key) {
      FindsNone(v, key);
    } else {
      Finds(v, key, Null);
    }
  }

  lemma WordFound(v: Json, key: string, s: string)
    requires WellFormed(v) && HasWord(v, key, s)
    ensures forall t: string :: IsText(Get(Some(ViewOf(v)), key), t) <==> t == s
  {
    var text: Text :| Has(v, key, Str(text)) && Chars(text) == s;
    Finds(v, key, Str(text));
    hide Get, Chars;
  }

  lemma StringsFound(w: Json, ss: seq<string>)
    requires SpellsAll(w, ss)
    ensures Strings(Items(Some(ViewOf(w)))) == ss
  {
    var views := Items(Some(ViewOf(w)));
    forall i | 0 <= i < |ss| ensures ViewString(views[i]) == ss[i] {
      assert views[i] == ViewOf(w.items[i]) && Spells(w.items[i], ss[i]);
    }
  }

  lemma SwitchFound(v: Json, on: bool)
    requires WellFormed(v) && Switch(v, on)
    ensures Enabled(Get(Some(ViewOf(v)), "isEnabled")) <==> on
  {
    hide Get, Integer, NumberOf, UnitsOf;
    if on && Lacks(v, "isEnabled") {
      FindsNone(v, "isEnabled");
    } else if on && Has(v, "isEnabled", Null) {
      Finds(v, "isEnabled", Null);
    } else if Has(v, "isEnabled", Bool(on)) {
      Finds(v, "isEnabled", Bool(on));
      FlagsEnable(on);
    } else {
      var x :| Has(v, "isEnabled", Num(x)) && (on <==> Integer(x) == Some(1));
      Finds(v, "isEnabled", Num(x));
    }
  }

  lemma PathsFound(w: Json, paths: seq<seq<string>>)
    requires WellFormed(w) && ShowsPaths(w, paths)
    ensures var views := Items(Some(ViewOf(w)));
      |views| == |paths| && forall i :: 0 <= i < |paths| ==> Strings(Items(Get(Some(views[i]), "fieldValueIds"))) == paths[i]
  {
    var views := Items(Some(ViewOf(w)));
    forall i | 0 <= i < |paths| ensures Strings(Items(Get(Some(views[i]), "fieldValueIds"))) == paths[i] {
      assert views[i] == ViewOf(w.items[i]) && ShowsPath(w.items[i], paths[i]);
      var ids :| Has(w.items[i], "fieldValueIds", ids) && SpellsAll(ids, paths[i]);
      Finds(w.items[i], "fieldValueIds", ids);
      StringsFound(ids, paths[i]);
    }
  }

  lemma ValueRead(v: Json, value: W.Value)
    requires WellFormed(v) && ShowsValue(v, value)
    ensures ReadValue(ViewOf(v)) == value && !IsNull(ViewOf(v))
  {
    StringFound(v, "fieldValueId", value.id);
    SwitchFound(v, value.enabled);
    var w :| Has(v, "exclusionFieldValueIds", w) && SpellsAll(w, value.exclusions);
    Finds(v, "exclusionFieldValueIds", w);
    StringsFound(w, value.exclusions);
    var u :| Has(v, "mappingPaths", u) && ShowsPaths(u, value.mappingPaths);
    Finds(v, "mappingPaths", u);
    PathsFound(u, value.mappingPaths);
    hide Get, Strings, Enabled, ToString, Has, HasString, Switch, SpellsAll, ShowsPaths, WellFormed, UnitsOf;
    assert ReadValue(ViewOf(v)).mappingPaths == value.mappingPaths;
  }

  lemma ValuesFound(w: Json, values: seq<W.Value>)
    requires WellFormed(w) && ShowsValues(w, values)
    ensures var views := Items(Some(ViewOf(w)));
      |views| == |values| && forall i :: 0 <= i < |values| ==> ReadValue(views[i]) == values[i] && !IsNull(views[i])
  {
    var views := Items(Some(ViewOf(w)));
    forall i | 0 <= i < |values| ensures ReadValue(views[i]) == values[i] && !IsNull(views[i]) {
      assert views[i] == ViewOf(w.items[i]);
      ValueRead(w.items[i], values[i]);
    }
  }

  lemma SortFound(v: Json, f: W.Field)
    requires WellFormed(v) && ShowsField(v, f)
    ensures SortOf(Get(Some(ViewOf(v)), "fieldSort")) == f.sort && (IsOne(Get(Some(ViewOf(v)), "fieldType")) <==> f.single)
  {
    var x :| Has(v, "fieldSort", Num(x)) && RealOf(x) == f.sort;
    Finds(v, "fieldSort", Num(x));
    var y :| Has(v, "fieldType", Num(y)) && (f.single <==> Integer(y) == Some(1));
    Finds(v, "fieldType", Num(y));
    hide Get, RealOf, Integer, UnitsOf, Has, Switch, HasString, WellFormed, ShowsValues;
  }

  lemma FieldRead(v: Json, f: W.Field)
    requires WellFormed(v) && ShowsField(v, f)
    ensures ReadField(ViewOf(v)) == f
    ensures var values := Items(Get(Some(ViewOf(v)), "presetFieldValues")); forall j :: 0 <= j < |values| ==> !IsNull(values[j])
  {
    StringFound(v, "fieldCode", f.code);
    SwitchFound(v, f.enabled);
    SortFound(v, f);
    var w :| Has(v, "presetFieldValues", w) && ShowsValues(w, f.values);
    Finds(v, "presetFieldValues", w);
    ValuesFound(w, f.values);
    hide Get, Enabled, ToString, TextOf, Has, HasString, Switch, ReadValue, WellFormed, UnitsOf, RealOf, Integer, SortOf, IsOne;
    hide ShowsField, ShowsValues, ViewOf, IsNull;
    assert ReadField(ViewOf(v)).values == f.values;
  }

  lemma FieldsFound(w: Json, fields: seq<W.Field>)
    requires WellFormed(w) && ShowsFields(w, fields)
    ensures var views := Items(Some(ViewOf(w)));
      && |views| == |fields| && (forall i :: 0 <= i < |fields| ==> ReadField(views[i]) == fields[i])
      && forall i :: 0 <= i < |fields| ==>
           var values := Items(Get(Some(views[i]), "presetFieldValues")); forall j :: 0 <= j < |values| ==> !IsNull(values[j])
  {
    var views := Items(Some(ViewOf(w)));
    hide ReadField, ShowsField, Get, IsNull;
    forall i | 0 <= i < |fields|
      ensures ReadField(views[i]) == fields[i]
      ensures var values := Items(Get(Some(views[i]), "presetFieldValues")); forall j :: 0 <= j < |values| ==> !IsNull(values[j])
    {
      assert views[i] == ViewOf(w.items[i]);
      FieldRead(w.items[i], fields[i]);
    }
  }

  lemma RulesRead(v: Json, rules: W.Rules)
    requires WellFormed(v) && ShowsRules(v, rules)
    ensures ReadRules(Some(ViewOf(v))) == rules && !ListsNullValue(Some(ViewOf(v)))
  {
    OptionalFound(v, "certificateTypeCode", rules.certificateTypeCode);
    var info, w :| Has(v, "presetInfo", info) && Has(info, "presetFields", w) && ShowsFields(w, rules.fields);
    Finds(v, "presetInfo", info);
    Finds(info, "presetFields", w);
    FieldsFound(w, rules.fields);
    hide Get, TextOf, Has, HasString, HasOptional, ReadField, WellFormed, UnitsOf, IsNull, Enabled, ShowsFields, ViewOf;
    assert ReadRules(Some(ViewOf(v))).fields == rules.fields;
  }

  lemma {:induction false} SelectionFound(v: Json, fields: seq<W.Field>, selected: W.Selection)
    requires WellFormed(v) && forall f :: f in fields ==> f.code in selected && ShowsChosen(v, f.code, selected[f.code])
    ensures var read := ReadSelection(fields, Some(ViewOf(v)));
      && read.Keys == (set f | f in fields :: f.code)
      && forall code :: code in read ==> code in selected && read[code] == selected[code]
  {
    if fields != [] {
      var n := |fields| - 1;
      var f := fields[n];
      assert fields == fields[..n] + [f];
      SelectionFound(v, fields[..n], selected);
      if exists w :: Has(v, f.code, w) && SpellsAll(w, selected[f.code]) {
        var w :| Has(v, f.code, w) && SpellsAll(w, selected[f.code]);
        Finds(v, f.code, w);
        StringsFound(w, selected[f.code]);
      } else {
        FindsNone(v, f.code);
      }
      hide Get, Strings, Has, Lacks, SpellsAll, WellFormed;
    }
  }

  lemma SelectionShown(v: Json, fields: seq<W.Field>, selected: W.Selection)
    requires WellFormed(v) && ShowsSelection(v, fields, selected)
    ensures ReadSelection(fields, Some(ViewOf(v))) == selected
  {
    assert forall f :: f in fields ==> f.code in selected.Keys;
    SelectionFound(v, fields, selected);
  }

  lemma AgencyTypeRead(v: Json, t: AgencyType)
    requires WellFormed(v) && ShowsAgencyType(v, t)
    ensures ReadAgencyType(Get(Some(ViewOf(v)), "agencyType")) == t
  {
    hide Get, Integer, UnitsOf;
    match t
    case NoType =>
      if Lacks(v, "agencyType") {
        FindsNone(v, "agencyType");
      } else if Has(v, "agencyType", Null) {
        Finds(v, "agencyType", Null);
      } else {
        Finds(v, "agencyType", Str([]));
      }
    case TypeIs(code) =>
      var x :| Has(v, "agencyType", Num(x)) && Integer(x) == Some(code);
      Finds(v, "agencyType", Num(x));
    case NotAType =>
      var x :| Has(v, "agencyType", Num(x)) && Integer(x) == None;
      Finds(v, "agencyType", Num(x));
  }

  function TypeName(kind: Kind): string {
    match kind
    case BindCertificate(_) => "certificate.bind_existing"
    case BindAgency(_, _) => "agency.bind"
    case UpdateWarning(_, _) => "warning.update"
    case CreateCertificate => "certificate.create_and_bind"
    case UploadPhoto(_, _) => "photo.upload_and_bind"
    case RecheckCertificate => "certificate.recheck_store_scope"
    case RecheckAgency(_, _) => "agency.recheck_store_scope"
    case _ => ""
  }

  lemma WarningRead(v: Json, selected: W.Selection, rules: W.Rules)
    requires WellFormed(v) && ShowsKind(v, UpdateWarning(selected, rules))
    ensures var read := Get(Some(ViewOf(v)), "rules");
      && ReadRules(read) == rules && !ListsNullValue(read)
      && ReadSelection(rules.fields, Get(Some(ViewOf(v)), "selectedByField")) == selected
  {
    var w, s :| Has(v, "rules", w) && ShowsRules(w, rules)
                && Has(v, "selectedByField", s) && ShowsSelection(s, rules.fields, selected);
    Finds(v, "rules", w);
    Finds(v, "selectedByField", s);
    RulesRead(w, rules);
    SelectionShown(s, rules.fields, selected);
  }

  /** The type says which of seven names it is, if any. */
  ghost predicate Typed(view: Option<View>, name: string) {
    && (IsText(Get(view, "type"), "certificate.bind_existing") <==> name == "certificate.bind_existing")
    && (IsText(Get(view, "type"), "agency.bind") <==> name == "agency.bind")
    && (IsText(Get(view, "type"), "warning.update") <==> name == "warning.update")
    && (IsText(Get(view, "type"), "certificate.create_and_bind") <==> name == "certificate.create_and_bind")
    && (IsText(Get(view, "type"), "photo.upload_and_bind") <==> name == "photo.upload_and_bind")
    && (IsText(Get(view, "type"), "certificate.recheck_store_scope") <==> name == "certificate.recheck_store_scope")
    && (IsText(Get(view, "type"), "agency.recheck_store_scope") <==> name == "agency.recheck_store_scope")
  }

  lemma NamesApart()
    ensures |"certificate.bind_existing"| == 25 && |"agency.bind"| == 11 && |"warning.update"| == 14
    ensures |"certificate.create_and_bind"| == 27 && |"photo.upload_and_bind"| == 21
    ensures |"certificate.recheck_store_scope"| == 31 && |"agency.recheck_store_scope"| == 26
  {
  }

  /** Which properties are read is decided by the type alone. */
  lemma KindByType(view: Option<View>, kind: Kind)
    requires Typed(view, TypeName(kind))
    ensures var read := ReadKind(view);
      match kind
      case BindCertificate(_) => read == BindCertificate(TextOf(Get(view, "poolSn")))
      case BindAgency(_, _) =>
        read == BindAgency(TextOf(Get(view, "agencyId")), ReadAgencyType(Get(view, "agencyType")))
      case UpdateWarning(_, _) =>
        var rules := Get(view, "rules");
        read == if ListsNullValue(rules) then UnreadableAction
                else UpdateWarning(ReadSelection(ReadRules(rules).fields, Get(view, "selectedByField")), ReadRules(rules))
      case CreateCertificate => read == CreateCertificate
      case UploadPhoto(_, _) =>
        read == UploadPhoto(TextOf(Get(view, "localAssetRef")), TextOf(Get(view, "uploadedPictureId")))
      case RecheckCertificate => read == RecheckCertificate
      case RecheckAgency(_, _) =>
        read == RecheckAgency(TextOf(Get(view, "agencyId")), ReadAgencyType(Get(view, "agencyType")))
      case _ => true
  {
    hide Get, TextOf, ReadAgencyType, ListsNullValue, ReadRules, ReadSelection, IsText;
    NamesApart();
  }

  lemma TypeFound(v: Json, kind: Kind)
    requires WellFormed(v) && ShowsKind(v, kind)
    ensures Typed(Some(ViewOf(v)), TypeName(kind))
  {
    hide ShowsKind, TypeName, HasWord, Get, IsText, WellFormed, ViewOf, UnitsOf;
    TypeShown(v, kind);
    WordFound(v, "type", TypeName(kind));
  }

  lemma TypeShown(v: Json, kind: Kind)
    requires ShowsKind(v, kind)
    ensures HasWord(v, "type", TypeName(kind))
  {
    hide HasString, HasOptional, HasWord, ShowsAgencyType, ShowsRules, ShowsSelection, Has;
  }

  /** An action is read as the one that is shown. */
  lemma KindRead(v: Json, kind: Kind)
    requires WellFormed(v) && ShowsKind(v, kind)
    ensures ReadKind(Some(ViewOf(v))) == kind
  {
    hide Get, TextOf, Has, HasString, HasOptional, HasWord, WellFormed, UnitsOf, IsText, ReadAgencyType, ShowsAgencyType;
    hide ViewOf, ListsNullValue, ReadRules, ReadSelection, ShowsRules, ShowsSelection, ReadKind, Typed;
    TypeFound(v, kind);
    KindByType(Some(ViewOf(v)), kind);
    match kind
    case BindCertificate(poolSn) => StringFound(v, "poolSn", poolSn);
    case BindAgency(agencyId, agencyType) =>
      StringFound(v, "agencyId", agencyId);
      AgencyTypeRead(v, agencyType);
    case UpdateWarning(selected, rules) => WarningRead(v, selected, rules);
    case UploadPhoto(localAssetRef, uploadedPictureId) =>
      OptionalFound(v, "localAssetRef", localAssetRef);
      OptionalFound(v, "uploadedPictureId", uploadedPictureId);
    case RecheckAgency(agencyId, agencyType) =>
      StringFound(v, "agencyId", agencyId);
      AgencyTypeRead(v, agencyType);
    case _ =>
  }

  lemma ActionRead(v: Json, a: Action)
    requires WellFormed(v) && ShowsAction(v, a)
    ensures ReadAction(ViewOf(v)) == a && ViewOf(v) != Leaf(Null)
  {
    StringFound(v, "requirementKey", a.key);
    OptionalFound(v, "certificateTypeCode", a.typeCode);
    KindRead(v, a.kind);
    hide Get, TextOf, HasString, HasOptional, ReadKind, ShowsKind, WellFormed;
    assert v.Obj?;
  }

  lemma ActionsFound(w: Json, actions: seq<Action>)
    requires WellFormed(w) && ShowsActions(w, actions)
    ensures var views := Items(Some(ViewOf(w)));
      |views| == |actions| && forall i :: 0 <= i < |actions| ==> ReadAction(views[i]) == actions[i] && views[i] != Leaf(Null)
  {
    var views := Items(Some(ViewOf(w)));
    hide ReadAction, ShowsAction;
    forall i | 0 <= i < |actions| ensures ReadAction(views[i]) == actions[i] && views[i] != Leaf(Null) {
      assert views[i] == ViewOf(w.items[i]);
      ActionRead(w.items[i], actions[i]);
    }
  }

  lemma StatusRead(v: Json, status: Status)
    requires WellFormed(v) && HasWord(v, "status", StatusName(status))
    ensures ReadStatus(Get(Some(ViewOf(v)), "status")) == status
  {
    WordFound(v, "status", StatusName(status));
    hide Get, IsText, HasWord, WellFormed, ViewOf;
  }

  lemma PlanRead(v: Json, p: Plan)
    requires WellFormed(v) && ShowsPlan(v, p)
    ensures ReadPlan(ViewOf(v)) == p.(blockers := [], waiting := []) && !PlanThrows(ViewOf(v))
  {
    StringFound(v, "skc", p.skc);
    StatusRead(v, p.status);
    var w :| Has(v, "actions", w) && ShowsActions(w, p.actions);
    Finds(v, "actions", w);
    ActionsFound(w, p.actions);
    assert v.Obj? && !IsNull(ViewOf(v));
    hide Get, TextOf, Has, HasString, HasOptional, HasWord, WellFormed, UnitsOf, ReadStatus, ReadAction, ShowsAction, ViewOf;
    assert ReadPlan(ViewOf(v)).actions == p.actions;
  }

  /** A document that shows plans is read as these plans, and looking at it does not throw. */
  lemma DocumentRead(document: Json, plans: seq<Plan>)
    requires WellFormed(document) && ShowsPlans(document, plans)
    ensures ReadPlans(document) == seq(|plans|, i requires 0 <= i < |plans| => plans[i].(blockers := [], waiting := []))
    ensures !Throws(document)
  {
    var views := Items(Some(ViewOf(document)));
    forall i | 0 <= i < |plans|
      ensures ReadPlan(views[i]) == plans[i].(blockers := [], waiting := []) && !PlanThrows(views[i])
    {
      assert views[i] == ViewOf(document.items[i]);
      PlanRead(document.items[i], plans[i]);
    }
  }
}
