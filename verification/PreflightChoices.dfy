/** What the preflight decides about a requirement or photo: which assignment counts, when it is good
    enough, what it leads to, and why it is refused. */
module PreflightChoices {
  import opened JsStrings
  import opened ComplianceRows
  import opened Preflight
  import opened AssignmentChecks
  import W = WarningRules
  import V = WarningValidity

  // ---------------------------------------------------------------- which assignment counts

  /** The code names a requirement or an assignment, or else the id does. */
  ghost predicate Names(typeCode: string, typeId: string, key: string) {
    if typeCode == "" then key == typeId else key == typeCode
  }

  lemma KeyNames(typeCode: string, typeId: string, key: string)
    ensures Names(typeCode, typeId, key) <==> key == KeyOf(typeCode, typeId)
  {
  }

  /** The first certificate assignment under the key. */
  ghost predicate CertificateChosen(key: string, xs: seq<CertificateAssignment>, a: CertificateAssignment) {
    exists i :: && 0 <= i < |xs| && xs[i] == a && Names(a.typeCode, a.typeId, key)
                && forall j :: 0 <= j < i ==> !Names(xs[j].typeCode, xs[j].typeId, key)
  }

  ghost predicate AgencyChosen(key: string, xs: seq<AgencyAssignment>, a: AgencyAssignment) {
    exists i :: && 0 <= i < |xs| && xs[i] == a && Names(a.typeCode, a.typeId, key)
                && forall j :: 0 <= j < i ==> !Names(xs[j].typeCode, xs[j].typeId, key)
  }

  ghost predicate WarningChosen(key: string, xs: seq<WarningAssignment>, a: WarningAssignment) {
    exists i :: && 0 <= i < |xs| && xs[i] == a && Names(a.typeCode, a.typeId, key)
                && forall j :: 0 <= j < i ==> !Names(xs[j].typeCode, xs[j].typeId, key)
  }

  /** `find` gives the first element that passes. */
  lemma {:induction false} FindFirstAt<T>(p: T -> bool, xs: seq<T>) returns (i: nat)
    ensures Find(p, xs).Returned? ==>
              i < |xs| && p(xs[i]) && Find(p, xs) == Returned([xs[i]]) && forall j :: 0 <= j < i ==> !p(xs[j])
    ensures Find(p, xs).Absent? ==> forall j :: 0 <= j < |xs| ==> !p(xs[j])
  {
    if xs == [] || p(xs[0]) {
      i := 0;
    } else {
      var k := FindFirstAt(p, xs[1..]);
      i := k + 1;
      assert forall j :: 0 < j < |xs| ==> xs[j] == xs[1..][j - 1];
    }
  }

  lemma CertificateFound(key: string, xs: seq<CertificateAssignment>)
    ensures var found := Find((a: CertificateAssignment) => KeyOf(a.typeCode, a.typeId) == key, xs);
      if found.Returned? then forall a :: CertificateChosen(key, xs, a) <==> a == found.items[0]
      else forall a :: !CertificateChosen(key, xs, a)
  {
    var i := FindFirstAt((a: CertificateAssignment) => KeyOf(a.typeCode, a.typeId) == key, xs);
    forall j | 0 <= j < |xs| ensures Names(xs[j].typeCode, xs[j].typeId, key) <==> key == KeyOf(xs[j].typeCode, xs[j].typeId) {
      KeyNames(xs[j].typeCode, xs[j].typeId, key);
    }
  }

  lemma AgencyFound(key: string, xs: seq<AgencyAssignment>)
    ensures var found := Find((a: AgencyAssignment) => KeyOf(a.typeCode, a.typeId) == key, xs);
      if found.Returned? then forall a :: AgencyChosen(key, xs, a) <==> a == found.items[0]
      else forall a :: !AgencyChosen(key, xs, a)
  {
    var i := FindFirstAt((a: AgencyAssignment) => KeyOf(a.typeCode, a.typeId) == key, xs);
    forall j | 0 <= j < |xs| ensures Names(xs[j].typeCode, xs[j].typeId, key) <==> key == KeyOf(xs[j].typeCode, xs[j].typeId) {
      KeyNames(xs[j].typeCode, xs[j].typeId, key);
    }
  }

  lemma WarningFound(key: string, xs: seq<WarningAssignment>)
    ensures var found := Find((a: WarningAssignment) => KeyOf(a.typeCode, a.typeId) == key, xs);
      if found.Returned? then forall a :: WarningChosen(key, xs, a) <==> a == found.items[0]
      else forall a :: !WarningChosen(key, xs, a)
  {
    var i := FindFirstAt((a: WarningAssignment) => KeyOf(a.typeCode, a.typeId) == key, xs);
    forall j | 0 <= j < |xs| ensures Names(xs[j].typeCode, xs[j].typeId, key) <==> key == KeyOf(xs[j].typeCode, xs[j].typeId) {
      KeyNames(xs[j].typeCode, xs[j].typeId, key);
    }
  }

  // ---------------------------------------------------------------- when it is good enough

  const REPORT_NAMES := ["1630", "1631", "smallcarpet", "largecarpet"]

  /** A flammability report: its code, its name or its type says so. */
  ghost predicate IsReport(r: Requirement) { exists t :: t in REPORT_NAMES && Says(r, t) }

  ghost predicate Says(r: Requirement, t: string) {
    Occurs(t, Lower(r.typeCode)) || Occurs(t, Lower(r.typeName)) || Occurs(t, Lower(r.typeText))
  }

  lemma SaysIff(r: Requirement, t: string)
    requires t != "" && ' ' !in t
    ensures Contains(Lower(r.typeCode + " " + r.typeName + " " + r.typeText), t) <==> Says(r, t)
  {
    var x, y, z := Lower(r.typeCode), Lower(r.typeName), Lower(r.typeText);
    assert Lower(r.typeCode + " " + r.typeName + " " + r.typeText) == x + " " + y + " " + z;
    hide Lower, Contains, Occurs;
    ContainsIff(x + " " + y + " " + z, t);
    OccursConcat(x + " " + y, z, t);
    OccursConcat(x, y, t);
  }

  lemma ReportIff(r: Requirement)
    ensures IsReport(r) <==> IsPerSkcReport(r)
  {
    hide Says, Lower, Contains;
    SaysIff(r, "1630");
    SaysIff(r, "1631");
    SaysIff(r, "smallcarpet");
    SaysIff(r, "largecarpet");
    assert "1630" in REPORT_NAMES && "1631" in REPORT_NAMES && "smallcarpet" in REPORT_NAMES && "largecarpet" in REPORT_NAMES;
  }

  /** All three parts of an uploaded file are there. */
  ghost predicate Uploaded(f: File) { HasText(f.fileUrl) && HasText(f.fileMd5) && HasText(f.fileName) }

  /** A report is uploaded for its own SKC and never taken from the pool. */
  ghost predicate CertificateReady(r: Requirement, skc: string, a: CertificateAssignment) {
    && CertificateAccepted(r, a)
    && (IsReport(r) ==> a.skc == skc && !HasText(a.poolSn) && a.files != [] && forall f :: f in a.files ==> Uploaded(f))
  }

  /** What a good certificate assignment leads to. */
  ghost predicate CertificateAction(kind: Kind, a: CertificateAssignment) {
    && (!HasText(a.poolSn) ==> kind == CreateCertificate)
    && (HasText(a.poolSn) && a.dimension == 2 ==> kind == RecheckCertificate)
    && (HasText(a.poolSn) && a.dimension != 2 ==> kind == BindCertificate(a.poolSn))
  }

  ghost predicate AgencyAction(kind: Kind, a: AgencyAssignment) {
    && (a.coveredRange == 1 ==> kind == RecheckAgency(a.agencyId, TypeIs(a.agencyType)))
    && (a.coveredRange != 1 ==> kind == BindAgency(a.agencyId, TypeIs(a.agencyType)))
  }

  lemma AgencyValidIff(r: Requirement, a: AgencyAssignment)
    ensures AgencyCodes(r, a) == [] <==> AgencyAccepted(r, a)
  {
    hide Lower, HasText;
  }

  // ---------------------------------------------------------------- requirements

  /** A single blocker, for this reason. */
  ghost predicate BlocksOnce(o: Outcome, code: Code) { o.Block? && |o.blockers| == 1 && o.blockers[0].code == code }

  /** The action is for this requirement. */
  ghost predicate ActsFor(o: Outcome, r: Requirement) {
    o.Do? && Names(r.typeCode, r.typeId, o.action.key) && o.action.typeCode == r.typeCode
  }

  /** A certificate requirement that has to be dealt with acts exactly when the first assignment under its
      key is good enough, and else blocks; the action is the assignment's. */
  lemma CertificateActsIff(r: Requirement, skc: string, inputs: Inputs)
    requires r.group == "ZSZZL" && Unresolved(r) && r.isRequired != 10
    ensures var o := RequirementOutcome(r, skc, inputs); var xs := inputs.certificates;
      && (o.Do? <==> exists key, a :: Names(r.typeCode, r.typeId, key) && CertificateChosen(key, xs, a) && CertificateReady(r, skc, a))
      && (!o.Do? ==> o.Block? && o.blockers != [])
      && (o.Do? ==> ActsFor(o, r) && forall a :: CertificateChosen(o.action.key, xs, a) ==> CertificateAction(o.action.kind, a))
  {
    var key := RequirementKey(r);
    CertificateFound(key, inputs.certificates);
    ReportIff(r);
    KeyNames(r.typeCode, r.typeId, key);
    var found := Find((a: CertificateAssignment) => KeyOf(a.typeCode, a.typeId) == key, inputs.certificates);
    if found.Returned? {
      CertificateValidIff(r, found.items[0]);
      assert CertificateChosen(key, inputs.certificates, found.items[0]);
    }
    hide CertificateChosen, CertificateAccepted, CertificateCodes, HasText, IsPerSkcReport, IsReport, Find, KeyOf;
    forall k ensures Names(r.typeCode, r.typeId, k) <==> k == key { KeyNames(r.typeCode, r.typeId, k); }
  }

  /** The same for agencies. */
  lemma AgencyActsIff(r: Requirement, skc: string, inputs: Inputs)
    requires r.group == "GSL" && Unresolved(r) && r.isRequired != 10
    ensures var o := RequirementOutcome(r, skc, inputs); var xs := inputs.agencies;
      && (o.Do? <==> exists key, a :: Names(r.typeCode, r.typeId, key) && AgencyChosen(key, xs, a) && AgencyAccepted(r, a))
      && (!o.Do? ==> o.Block? && o.blockers != [])
      && (o.Do? ==> ActsFor(o, r) && forall a :: AgencyChosen(o.action.key, xs, a) ==> AgencyAction(o.action.kind, a))
  {
    var key := RequirementKey(r);
    AgencyFound(key, inputs.agencies);
    KeyNames(r.typeCode, r.typeId, key);
    var found := Find((a: AgencyAssignment) => KeyOf(a.typeCode, a.typeId) == key, inputs.agencies);
    if found.Returned? {
      AgencyValidIff(r, found.items[0]);
      assert AgencyChosen(key, inputs.agencies, found.items[0]);
    }
    hide AgencyChosen, AgencyAccepted, AgencyCodes, HasText, Find, KeyOf;
    forall k ensures Names(r.typeCode, r.typeId, k) <==> k == key { KeyNames(r.typeCode, r.typeId, k); }
  }

  /** The same for warnings, whose action carries the validated selection and the rules. */
  lemma WarningActsIff(r: Requirement, skc: string, inputs: Inputs)
    requires r.group == "HGXXL" && r.isManualWarning && Unresolved(r) && r.isRequired != 10
    ensures var o := RequirementOutcome(r, skc, inputs); var xs := inputs.warnings;
      && (o.Do? <==> exists key, a :: && Names(r.typeCode, r.typeId, key) && WarningChosen(key, xs, a)
                                      && V.ValidAssignment(r.typeCode, a.rules, a.selection))
      && (!o.Do? ==> o.Block? && o.blockers != [])
      && (o.Do? ==> ActsFor(o, r) && forall a :: WarningChosen(o.action.key, xs, a) ==>
            o.action.kind == UpdateWarning(W.Validate(r.typeCode, a.rules, a.selection).selected, a.rules))
  {
    var key := RequirementKey(r);
    WarningFound(key, inputs.warnings);
    KeyNames(r.typeCode, r.typeId, key);
    var found := Find((a: WarningAssignment) => KeyOf(a.typeCode, a.typeId) == key, inputs.warnings);
    if found.Returned? {
      V.ValidIff(r.typeCode, found.items[0].rules, found.items[0].selection);
      assert WarningChosen(key, inputs.warnings, found.items[0]);
    }
    hide WarningChosen, V.ValidAssignment, W.Validate, Find, KeyOf;
    forall k ensures Names(r.typeCode, r.typeId, k) <==> k == key { KeyNames(r.typeCode, r.typeId, k); }
  }

  /** A requirement of a handled group that need not be dealt with: unknown necessity blocks, one under
      review waits under its key, the others contribute nothing. */
  lemma OtherwiseIff(r: Requirement, skc: string, inputs: Inputs)
    ensures var o := RequirementOutcome(r, skc, inputs);
      && (r.isRequired == 10 ==> BlocksOnce(o, RequirementStateUnknown) && Names(r.typeCode, r.typeId, o.blockers[0].key))
      && (o.Wait? <==> r.isRequired != 10 && r.reviewState == 1)
      && (o.Wait? ==> Names(r.typeCode, r.typeId, o.key))
      && (r.isRequired != 10 && r.reviewState != 1 && !Unresolved(r) ==> o.Nothing?)
  {
  }

  /** An unsupported item blocks exactly when it is required or rejected and has not passed. */
  lemma UnsupportedIff(r: Requirement)
    ensures var o := UnsupportedOutcome(r);
      && (!o.Nothing? <==> r.reviewState != 2 && (r.isRequired == 1 || r.reviewState == 3))
      && (!o.Nothing? ==> BlocksOnce(o, ApiUnsupportedRequirement) && Names(r.typeCode, r.typeId, o.blockers[0].key))
  {
  }

  // ---------------------------------------------------------------- photos

  ghost predicate PhotoNamed(labelId: string, labelGroup: string, key: string) { key == labelId + ":" + labelGroup }

  /** The first assignment of the label; or else, in the groups 1 and 2, the first reusable one of the group. */
  ghost predicate PhotoChosen(p: Photo, xs: seq<PhotoAssignment>, a: PhotoAssignment) {
    exists i :: 0 <= i < |xs| && xs[i] == a &&
      if SameLabel(p, a) then forall j :: 0 <= j < i ==> !SameLabel(p, xs[j])
      else
        && (p.labelGroup == "1" || p.labelGroup == "2") && a.reusable && a.labelGroup == p.labelGroup
        && (forall j :: 0 <= j < |xs| ==> !SameLabel(p, xs[j]))
        && (forall j :: 0 <= j < i ==> !(xs[j].reusable && xs[j].labelGroup == p.labelGroup))
  }

  ghost predicate SameLabel(p: Photo, a: PhotoAssignment) {
    PhotoNamed(p.labelId, p.labelGroup, a.labelId + ":" + a.labelGroup)
  }

  lemma PhotoFound(p: Photo, xs: seq<PhotoAssignment>)
    ensures if FindPhoto(p, xs).Returned? then forall a :: PhotoChosen(p, xs, a) <==> a == FindPhoto(p, xs).items[0]
            else forall a :: !PhotoChosen(p, xs, a)
    ensures FindPhoto(p, xs).Returned? ==> |FindPhoto(p, xs).items| == 1
  {
    var i := FindFirstAt((a: PhotoAssignment) => PhotoKey(a.labelId, a.labelGroup) == PhotoKey(p.labelId, p.labelGroup), xs);
    var k := FindFirstAt((a: PhotoAssignment) => a.reusable && a.labelGroup == p.labelGroup, xs);
  }

  /** A photo requirement that has to be dealt with acts exactly when the chosen assignment has a picture,
      and else blocks; the action carries that picture. */
  lemma PhotoActsIff(p: Photo, inputs: Inputs)
    requires PhotoUnresolved(p) && p.isRequired != 10
    ensures var o := PhotoOutcome(p, inputs);
      && (o.Do? <==> exists a :: PhotoChosen(p, inputs.photos, a) && (HasText(a.localAssetRef) || HasText(a.uploadedPictureId)))
      && (!o.Do? ==> BlocksOnce(o, PhotoAssignmentRequired) && PhotoNamed(p.labelId, p.labelGroup, o.blockers[0].key))
      && (o.Do? ==> PhotoNamed(p.labelId, p.labelGroup, o.action.key) && forall a :: PhotoChosen(p, inputs.photos, a) ==>
            o.action.kind == UploadPhoto(a.localAssetRef, a.uploadedPictureId))
  {
    PhotoFound(p, inputs.photos);
    hide PhotoChosen, FindPhoto, HasText;
  }

  lemma PhotoOtherwiseIff(p: Photo, inputs: Inputs)
    requires p.isRequired == 10 || !PhotoUnresolved(p)
    ensures var o := PhotoOutcome(p, inputs);
      if p.isRequired != 10 then o.Nothing?
      else BlocksOnce(o, PhotoRequirementStateUnknown) && PhotoNamed(p.labelId, p.labelGroup, o.blockers[0].key)
  {
  }

  // ---------------------------------------------------------------- why an assignment is refused

  ghost predicate Blames(o: Outcome, code: Code) { o.Block? && exists b :: b in o.blockers && b.code == code }

  lemma BlamesIff(codes: seq<Code>, key: string, code: Code)
    ensures Blames(Block(Blockers(codes, key)), code) <==> code in codes
  {
    var bs := Blockers(codes, key);
    if code in codes {
      var i :| 0 <= i < |codes| && codes[i] == code;
      assert bs[i] in bs;
    }
  }

  lemma BlamesOne(b: Blocker, code: Code)
    ensures Blames(Block([b]), code) <==> b.code == code
  {
    assert [b][0] in [b];
  }

  /** The reasons a certificate is refused for, fields apart. */
  lemma CertificateReasons(r: Requirement, a: CertificateAssignment)
    ensures var codes := CertificateCodes(r, a); var pool := HasText(a.poolSn);
      && (CertificateNotEffective in codes <==> pool && a.status != 2)
      && (CertificateSchemaRequired in codes <==> !pool && a.schema.NoSchema?)
      && (CertificateSchemaDisabled in codes <==> !pool && a.schema.Schema? && !a.schema.enabled)
      && (CertificateLabelUnsupported in codes <==> !pool && a.schema.Schema? && a.schema.certificateLabel != 0)
      && (CertificateFileRequired in codes <==> !pool && a.schema.Schema? && a.files == [])
      && (CertificateSchemaMismatch in codes <==>
            !pool && a.schema.Schema? && a.schema.typeId != "" && r.typeId != "" && a.schema.typeId != r.typeId)
  {
    if !HasText(a.poolSn) && a.schema.Schema? { SchemaReasons(r, a); }
    hide HasText, SchemaCodes;
  }

  lemma SchemaReasons(r: Requirement, a: CertificateAssignment)
    requires !HasText(a.poolSn) && a.schema.Schema?
    ensures var codes := CertificateCodes(r, a);
      && CertificateNotEffective !in codes && CertificateSchemaRequired !in codes
      && (CertificateSchemaDisabled in codes <==> !a.schema.enabled)
      && (CertificateLabelUnsupported in codes <==> a.schema.certificateLabel != 0)
      && (CertificateFileRequired in codes <==> a.files == [])
      && (CertificateSchemaMismatch in codes <==>
            a.schema.typeId != "" && r.typeId != "" && a.schema.typeId != r.typeId)
  {
    FieldCodesOnly(a.schema.fields, a);
    SchemaMember(r, a, CertificateNotEffective);
    SchemaMember(r, a, CertificateSchemaRequired);
    SchemaMember(r, a, CertificateSchemaDisabled);
    SchemaMember(r, a, CertificateLabelUnsupported);
    SchemaMember(r, a, CertificateFileRequired);
    SchemaMember(r, a, CertificateSchemaMismatch);
    hide CertificateCodes, SchemaCodes, HasText;
  }

  lemma SchemaMember(r: Requirement, a: CertificateAssignment, c: Code)
    requires !HasText(a.poolSn) && a.schema.Schema?
    ensures c in CertificateCodes(r, a) <==>
      || (c == CertificateSchemaDisabled && !a.schema.enabled)
      || (c == CertificateLabelUnsupported && a.schema.certificateLabel != 0)
      || (c == CertificateSchemaMismatch && a.schema.typeId != "" && r.typeId != "" && a.schema.typeId != r.typeId)
      || (c == CertificateFileRequired && a.files == [])
      || c in SchemaCodes(a.schema.fields, a)
  {
    var disabled := if a.schema.enabled then [] else [CertificateSchemaDisabled];
    var labelled := if a.schema.certificateLabel == 0 then [] else [CertificateLabelUnsupported];
    var mismatched :=
      if a.schema.typeId != "" && r.typeId != "" && a.schema.typeId != r.typeId then [CertificateSchemaMismatch] else [];
    var missing := if a.files == [] then [CertificateFileRequired] else [];
    var inFields := SchemaCodes(a.schema.fields, a);
    assert CertificateCodes(r, a) == disabled + labelled + mismatched + missing + inFields;
    hide HasText, SchemaCodes, CertificateCodes;
    Among(disabled, labelled, mismatched, missing, inFields, c);
  }

  lemma Among(a: seq<Code>, b: seq<Code>, c: seq<Code>, d: seq<Code>, e: seq<Code>, x: Code)
    ensures x in a + b + c + d + e <==> x in a || x in b || x in c || x in d || x in e
  {
    assert x in a + b + c + d + e <==> x in a + b + c + d || x in e;
  }

  /** The reasons that lie in a field. */
  predicate IsFieldCode(c: Code) {
    || c.CertificateSrmSelectionInvalid? || c.CertificateSingleValueRequired? || c.CertificateMultiValueRequired?
    || c.CertificateTextRequired? || c.CertificateDateRequired? || c.CertificateWarningRequired?
    || c.CertificateResponsiblePersonRequired? || c.CertificateValueInvalid?
  }

  lemma {:induction false} FieldCodesOnly(fields: seq<PresetField>, a: CertificateAssignment)
    ensures forall c :: c in SchemaCodes(fields, a) ==> IsFieldCode(c)
  {
    if fields != [] { FieldCodesOnly(fields[..|fields| - 1], a); }
  }

  /** The reasons that an enabled, required field is refused for. */
  lemma FieldReasons(f: PresetField, a: CertificateAssignment)
    requires f.enabled && f.required
    ensures var input := InputOf(f, a); var codes := FieldCodes(f, input, a.trusted); var plain := !f.fromSrm;
      && (CertificateSrmSelectionInvalid in codes <==> f.fromSrm && !SrmChosen(input, a.trusted))
      && (CertificateSingleValueRequired in codes <==> plain && f.inputType == 1 && |input.valueIds| != 1)
      && (CertificateMultiValueRequired in codes <==> plain && f.inputType == 2 && input.valueIds == [])
      && (CertificateTextRequired in codes <==> plain && f.inputType == 3 && !HasText(input.value))
      && (CertificateDateRequired in codes <==> plain && f.inputType == 4 && !(HasText(input.value) && input.dateOk))
      && (CertificateWarningRequired in codes <==> plain && f.inputType == 5 && input.valueIds == [])
      && (CertificateResponsiblePersonRequired in codes <==>
            plain && f.inputType == 6 && input.valueIds == [] && !HasText(input.agencyId))
      && (CertificateValueInvalid in codes <==>
            plain && f.inputType in {1, 2, 5, 6} && exists v :: v in input.valueIds && (v, true) !in f.options)
  {
    var input := InputOf(f, a);
    FindFirst(input.agencyId, a.trusted, input.laboratoryId);
    hide Find, HasText;
    forall v ensures (v, true) in Filter((o: (string, bool)) => o.1, f.options) <==> (v, true) in f.options {
      FilterMember((o: (string, bool)) => o.1, f.options, (v, true));
    }
    hide Filter;
  }

  lemma AgencyReasons(r: Requirement, a: AgencyAssignment)
    ensures var codes := AgencyCodes(r, a);
      && (AgencyRequired in codes <==> !HasText(a.agencyId))
      && (AgencyDisabled in codes <==> a.agencyStatus != 0)
      && (AgencyNotApproved in codes <==> a.applyStatus != 1 && a.applyStatus != 2)
      && (AgencyTypeMismatch in codes <==>
            Lower(r.typeCode) in AGENCY_TYPES && a.agencyType != AGENCY_TYPES[Lower(r.typeCode)])
  {
    hide Lower, HasText;
  }

  /** The reasons found before the validators are asked. */
  lemma ChoiceReasons(r: Requirement, skc: string, inputs: Inputs)
    requires r.group == "ZSZZL" && Unresolved(r) && r.isRequired != 10
    ensures var o := RequirementOutcome(r, skc, inputs); var key := RequirementKey(r);
      && (Blames(o, CertificateAssignmentRequired) <==> forall a :: !CertificateChosen(key, inputs.certificates, a))
      && (forall a :: CertificateChosen(key, inputs.certificates, a) ==>
        && (Blames(o, CertificatePerSkcUploadRequired) <==> IsReport(r) && a.skc != skc)
        && (Blames(o, CertificatePoolReuseNotAllowed) <==> IsReport(r) && a.skc == skc && HasText(a.poolSn))
        && (Blames(o, CertificateDirectUploadRequired) <==>
              && IsReport(r) && a.skc == skc && !HasText(a.poolSn)
              && !(a.files != [] && forall f :: f in a.files ==> Uploaded(f)))
        && (!IsReport(r) ==> forall code :: Blames(o, code) <==> code in CertificateCodes(r, a)))
  {
    var key := RequirementKey(r);
    CertificateFound(key, inputs.certificates);
    ReportIff(r);
    var found := Find((a: CertificateAssignment) => KeyOf(a.typeCode, a.typeId) == key, inputs.certificates);
    BlamesOne(Blocker(CertificateAssignmentRequired, key), CertificateAssignmentRequired);
    hide CertificateChosen, HasText, IsPerSkcReport, IsReport, Find, KeyOf, Blames;
    if found.Returned? {
      assert CertificateChosen(key, inputs.certificates, found.items[0]);
      ReasonsFor(r, skc, inputs, found.items[0]);
    }
  }

  lemma ReasonsFor(r: Requirement, skc: string, inputs: Inputs, a: CertificateAssignment)
    requires r.group == "ZSZZL" && Unresolved(r) && r.isRequired != 10
    requires CertificateChosen(RequirementKey(r), inputs.certificates, a)
    ensures var o := RequirementOutcome(r, skc, inputs);
      && !Blames(o, CertificateAssignmentRequired)
      && (Blames(o, CertificatePerSkcUploadRequired) <==> IsReport(r) && a.skc != skc)
      && (Blames(o, CertificatePoolReuseNotAllowed) <==> IsReport(r) && a.skc == skc && HasText(a.poolSn))
      && (Blames(o, CertificateDirectUploadRequired) <==>
            && IsReport(r) && a.skc == skc && !HasText(a.poolSn)
            && !(a.files != [] && forall f :: f in a.files ==> Uploaded(f)))
      && (!IsReport(r) ==> forall code :: Blames(o, code) <==> code in CertificateCodes(r, a))
  {
    var key, codes := RequirementKey(r), CertificateCodes(r, a);
    hide RequirementOutcome, CertificateChosen, CertificateCodes, HasText, IsReport, Blames, Blockers, Unresolved;
    OutcomeFor(r, skc, inputs, a);
    ValidatorCodesOnly(r, a);
    forall code ensures Blames(Block(Blockers(codes, key)), code) <==> code in codes { BlamesIff(codes, key, code); }
    forall b, code ensures Blames(Block([b]), code) <==> b.code == code { BlamesOne(b, code); }
    forall action, code ensures !Blames(Do(action), code) { BlamesNot(action, code); }
  }

  lemma BlamesNot(action: Action, code: Code)
    ensures !Blames(Do(action), code)
  {
  }

  /** What the first assignment under the key leads to. */
  lemma OutcomeFor(r: Requirement, skc: string, inputs: Inputs, a: CertificateAssignment)
    requires r.group == "ZSZZL" && Unresolved(r) && r.isRequired != 10
    requires CertificateChosen(RequirementKey(r), inputs.certificates, a)
    ensures RequirementOutcome(r, skc, inputs) ==
      var key := RequirementKey(r);
      if IsReport(r) && a.skc != skc then Block([Blocker(CertificatePerSkcUploadRequired, key)])
      else if IsReport(r) && HasText(a.poolSn) then Block([Blocker(CertificatePoolReuseNotAllowed, key)])
      else if IsReport(r) && !(a.files != [] && forall f :: f in a.files ==> Uploaded(f)) then
        Block([Blocker(CertificateDirectUploadRequired, key)])
      else Judge(CertificateCodes(r, a), CertificateKind(a), r)
  {
    var key := RequirementKey(r);
    CertificateFound(key, inputs.certificates);
    ReportIff(r);
    hide CertificateChosen, CertificateCodes, HasText, IsPerSkcReport, IsReport, Find, KeyOf, CertificateKind, Judge;
  }

  /** The validator never gives one of the reasons found before it. */
  lemma ValidatorCodesOnly(r: Requirement, a: CertificateAssignment)
    ensures forall c :: c in CertificateCodes(r, a) ==>
      && c != CertificateAssignmentRequired && c != CertificatePerSkcUploadRequired
      && c != CertificatePoolReuseNotAllowed && c != CertificateDirectUploadRequired
  {
    hide HasText;
    if a.schema.Schema? { FieldCodesOnly(a.schema.fields, a); }
    hide SchemaCodes;
  }
}
