/** The preflight of one SKC: its compliance row and the prepared assignments become a plan of
    actions, blockers and waiting items. */
module Preflight {
  import opened JsStrings
  import opened ComplianceRows
  import W = WarningRules

  // ---------------------------------------------------------------- assignments

  datatype File = File(fileUrl: string, fileMd5: string, fileName: string)

  datatype PresetField = PresetField(
    presetId: string, enabled: bool, required: bool, fromSrm: bool, inputType: int, options: seq<(string, bool)>)

  datatype Schema = NoSchema | Schema(enabled: bool, certificateLabel: int, typeId: string, fields: seq<PresetField>)

  /** A field's input in normal form; `dateOk` says whether the value parses as a date. */
  datatype FieldInput = FieldInput(valueIds: seq<string>, value: string, dateOk: bool, agencyId: string, laboratoryId: string)

  const NO_INPUT := FieldInput([], "", false, "", "")

  datatype CertificateAssignment = CertificateAssignment(
    typeCode: string, typeId: string, skc: string, poolSn: string, status: int, dimension: int,
    schema: Schema, files: seq<File>, inputs: map<string, FieldInput>, trusted: seq<(string, seq<string>)>)

  datatype AgencyAssignment = AgencyAssignment(
    typeCode: string, typeId: string, agencyId: string, agencyStatus: int, applyStatus: int,
    agencyType: int, coveredRange: int)

  datatype WarningAssignment = WarningAssignment(typeCode: string, typeId: string, rules: W.Rules, selection: W.Selection)

  datatype PhotoAssignment = PhotoAssignment(
    labelId: string, labelGroup: string, reusable: bool, localAssetRef: string, uploadedPictureId: string)

  datatype Inputs = Inputs(
    certificates: seq<CertificateAssignment>, agencies: seq<AgencyAssignment>,
    warnings: seq<WarningAssignment>, photos: seq<PhotoAssignment>)

  // ---------------------------------------------------------------- plans

  datatype Code =
    | RequirementsNotSynced | PhotoRequirementsNotSynced
    | RuleSnapshotMissing | RuleSnapshotStale
    | RequirementStateUnknown | PhotoRequirementStateUnknown
    | CertificateAssignmentRequired | CertificatePerSkcUploadRequired
    | CertificatePoolReuseNotAllowed | CertificateDirectUploadRequired
    | CertificateNotEffective | CertificateSchemaRequired | CertificateSchemaDisabled
    | CertificateLabelUnsupported | CertificateSchemaMismatch | CertificateFileRequired
    | CertificateSrmSelectionInvalid | CertificateSingleValueRequired | CertificateMultiValueRequired
    | CertificateTextRequired | CertificateDateRequired | CertificateWarningRequired
    | CertificateResponsiblePersonRequired | CertificateValueInvalid
    | AgencyAssignmentRequired | AgencyRequired | AgencyDisabled | AgencyNotApproved | AgencyTypeMismatch
    | WarningAssignmentRequired | WarningInvalid(blocker: W.Blocker)
    | ApiUnsupportedRequirement
    | PhotoAssignmentRequired

  datatype Blocker = Blocker(code: Code, key: string)

  predicate IsRuleCode(c: Code) {
    || c.RequirementsNotSynced? || c.PhotoRequirementsNotSynced?
    || c.RequirementStateUnknown? || c.PhotoRequirementStateUnknown?
    || c.RuleSnapshotMissing? || c.RuleSnapshotStale?
  }

  datatype Kind =
    | RecheckCertificate
    | BindCertificate(poolSn: string)
    | CreateCertificate
    | BindAgency(agencyId: string, agencyType: AgencyType)
    | RecheckAgency(agencyId: string, agencyType: AgencyType)
    | UpdateWarning(selected: W.Selection, rules: W.Rules)
    | UploadPhoto(localAssetRef: string, uploadedPictureId: string)
    | OtherAction
    | UnreadableAction

  /** The agency type of an action: none given, an integer, or something else. */
  datatype AgencyType = NoType | TypeIs(code: int) | NotAType

  datatype Action = Action(kind: Kind, key: string, typeCode: string)

  datatype Status = Compliant | Ready | WaitingReview | RulesPending | BlockedPlan

  datatype Plan = Plan(skc: string, status: Status, actions: seq<Action>, blockers: seq<Blocker>, waiting: seq<string>)

  /** What one requirement or photo contributes to the plan. */
  datatype Outcome = Nothing | Wait(key: string) | Block(blockers: seq<Blocker>) | Do(action: Action)

  // ---------------------------------------------------------------- keys and lookups

  function KeyOf(typeCode: string, typeId: string): string { if typeCode != "" then typeCode else typeId }

  function RequirementKey(r: Requirement): string { KeyOf(r.typeCode, r.typeId) }

  function PhotoKey(labelId: string, labelGroup: string): string { labelId + ":" + labelGroup }

  /** `Array.prototype.find` */
  function Find<T>(p: T -> bool, xs: seq<T>): (r: Answer<T>)
    ensures r.Returned? ==> |r.items| == 1
  {
    if xs == [] then Absent else if p(xs[0]) then Returned([xs[0]]) else Find(p, xs[1..])
  }

  predicate IsPerSkcReport(r: Requirement) {
    var identity := Lower(r.typeCode + " " + r.typeName + " " + r.typeText);
    Contains(identity, "1630") || Contains(identity, "1631")
    || Contains(identity, "smallcarpet") || Contains(identity, "largecarpet")
  }

  /** The agency type a requirement demands, or -1 for any. */
  function ExpectedAgencyType(typeCode: string): int {
    var code := Lower(typeCode);
    if code == "eurespperson" then 0
    else if code == "ukrespperson" then 1
    else if code == "usrespperson" then 2
    else if code == "manufacturer" then 3
    else if code == "turespperson" then 4
    else -1
  }

  // ---------------------------------------------------------------- validators

  function FieldCodes(f: PresetField, input: FieldInput, trusted: seq<(string, seq<string>)>): seq<Code> {
    if !f.enabled || !f.required then []
    else if f.fromSrm then
      match Find((a: (string, seq<string>)) => a.0 == input.agencyId, trusted)
      case Returned(found) => if input.laboratoryId in found[0].1 then [] else [CertificateSrmSelectionInvalid]
      case Absent => [CertificateSrmSelectionInvalid]
    else
      var known := Filter((o: (string, bool)) => o.1, f.options);
      var listed := f.inputType in [1, 2, 5, 6] && input.valueIds != [];
      (if f.inputType == 1 && |input.valueIds| != 1 then [CertificateSingleValueRequired]
       else if f.inputType == 2 && input.valueIds == [] then [CertificateMultiValueRequired]
       else if f.inputType == 3 && !HasText(input.value) then [CertificateTextRequired]
       else if f.inputType == 4 && !(HasText(input.value) && input.dateOk) then [CertificateDateRequired]
       else if f.inputType == 5 && input.valueIds == [] then [CertificateWarningRequired]
       else if f.inputType == 6 && input.valueIds == [] && !HasText(input.agencyId) then [CertificateResponsiblePersonRequired]
       else [])
      + (if listed && exists v :: v in input.valueIds && (v, true) !in known then [CertificateValueInvalid] else [])
  }

  function SchemaCodes(fields: seq<PresetField>, a: CertificateAssignment): seq<Code> {
    if fields == [] then []
    else
      var f := fields[|fields| - 1];
      SchemaCodes(fields[..|fields| - 1], a)
      + FieldCodes(f, if f.presetId in a.inputs then a.inputs[f.presetId] else NO_INPUT, a.trusted)
  }

  /** `validateCertificateAssignment`: the blockers, none of which means valid. */
  function CertificateCodes(r: Requirement, a: CertificateAssignment): seq<Code> {
    if HasText(a.poolSn) then (if a.status == 2 then [] else [CertificateNotEffective])
    else match a.schema
      case NoSchema => [CertificateSchemaRequired]
      case Schema(enabled, certificateLabel, typeId, fields) =>
        (if enabled then [] else [CertificateSchemaDisabled])
        + (if certificateLabel == 0 then [] else [CertificateLabelUnsupported])
        + (if typeId != "" && r.typeId != "" && typeId != r.typeId then [CertificateSchemaMismatch] else [])
        + (if a.files == [] then [CertificateFileRequired] else [])
        + SchemaCodes(fields, a)
  }

  function CertificateKind(a: CertificateAssignment): Kind {
    if !HasText(a.poolSn) then CreateCertificate
    else if a.dimension == 2 then RecheckCertificate
    else BindCertificate(a.poolSn)
  }

  /** `validateAgencyAssignment` */
  function AgencyCodes(r: Requirement, a: AgencyAssignment): seq<Code> {
    var expected := ExpectedAgencyType(r.typeCode);
    (if HasText(a.agencyId) then [] else [AgencyRequired])
    + (if a.agencyStatus == 0 then [] else [AgencyDisabled])
    + (if a.applyStatus in [1, 2] then [] else [AgencyNotApproved])
    + (if expected != -1 && a.agencyType != expected then [AgencyTypeMismatch] else [])
  }

  function AgencyKind(a: AgencyAssignment): Kind {
    if a.coveredRange == 1 then RecheckAgency(a.agencyId, TypeIs(a.agencyType))
    else BindAgency(a.agencyId, TypeIs(a.agencyType))
  }

  function WarningCodes(v: W.Validation): seq<Code> {
    seq(|v.blockers|, i requires 0 <= i < |v.blockers| => WarningInvalid(v.blockers[i]))
  }

  function Blockers(codes: seq<Code>, key: string): seq<Blocker> {
    seq(|codes|, i requires 0 <= i < |codes| => Blocker(codes[i], key))
  }

  /** Valid assignments act, others block. */
  function Judge(codes: seq<Code>, kind: Kind, r: Requirement): Outcome {
    if codes == [] then Do(Action(kind, RequirementKey(r), r.typeCode)) else Block(Blockers(codes, RequirementKey(r)))
  }

  // ---------------------------------------------------------------- one requirement

  predicate IsUploaded(f: File) { HasText(f.fileUrl) && HasText(f.fileMd5) && HasText(f.fileName) }

  function CertificateOutcome(r: Requirement, skc: string, certificates: seq<CertificateAssignment>): Outcome {
    var key := RequirementKey(r);
    match Find((a: CertificateAssignment) => KeyOf(a.typeCode, a.typeId) == key, certificates)
    case Absent => Block([Blocker(CertificateAssignmentRequired, key)])
    case Returned(found) =>
      var a := found[0];
      if IsPerSkcReport(r) && a.skc != skc then Block([Blocker(CertificatePerSkcUploadRequired, key)])
      else if IsPerSkcReport(r) && HasText(a.poolSn) then Block([Blocker(CertificatePoolReuseNotAllowed, key)])
      else if IsPerSkcReport(r) && (a.files == [] || exists f :: f in a.files && !IsUploaded(f)) then
        Block([Blocker(CertificateDirectUploadRequired, key)])
      else Judge(CertificateCodes(r, a), CertificateKind(a), r)
  }

  function AgencyOutcome(r: Requirement, agencies: seq<AgencyAssignment>): Outcome {
    var key := RequirementKey(r);
    match Find((a: AgencyAssignment) => KeyOf(a.typeCode, a.typeId) == key, agencies)
    case Absent => Block([Blocker(AgencyAssignmentRequired, key)])
    case Returned(found) => Judge(AgencyCodes(r, found[0]), AgencyKind(found[0]), r)
  }

  function WarningOutcome(r: Requirement, warnings: seq<WarningAssignment>): Outcome {
    var key := RequirementKey(r);
    match Find((a: WarningAssignment) => KeyOf(a.typeCode, a.typeId) == key, warnings)
    case Absent => Block([Blocker(WarningAssignmentRequired, key)])
    case Returned(found) =>
      var v := W.Validate(r.typeCode, found[0].rules, found[0].selection);
      Judge(WarningCodes(v), UpdateWarning(v.selected, found[0].rules), r)
  }

  function RequirementOutcome(r: Requirement, skc: string, inputs: Inputs): Outcome {
    if r.isRequired == UNKNOWN_REQUIRED then Block([Blocker(RequirementStateUnknown, RequirementKey(r))])
    else if r.reviewState == PASSED then Nothing
    else if r.reviewState == REVIEWING then Wait(RequirementKey(r))
    else if r.isRequired != 1 && r.reviewState != REJECTED then Nothing
    else if r.group == CERTIFICATE_GROUP then CertificateOutcome(r, skc, inputs.certificates)
    else if r.group == AGENCY_GROUP then AgencyOutcome(r, inputs.agencies)
    else if r.group == WARNING_GROUP && r.isManualWarning then WarningOutcome(r, inputs.warnings)
    else Nothing
  }

  function UnsupportedOutcome(r: Requirement): Outcome {
    if r.reviewState != PASSED && (r.isRequired == 1 || r.reviewState == REJECTED)
    then Block([Blocker(ApiUnsupportedRequirement, RequirementKey(r))])
    else Nothing
  }

  function FindPhoto(p: Photo, photos: seq<PhotoAssignment>): Answer<PhotoAssignment> {
    var exact := Find((a: PhotoAssignment) => PhotoKey(a.labelId, a.labelGroup) == PhotoKey(p.labelId, p.labelGroup), photos);
    if exact.Returned? then exact
    else if p.labelGroup !in ["1", "2"] then Absent
    else Find((a: PhotoAssignment) => a.reusable && a.labelGroup == p.labelGroup, photos)
  }

  function PhotoOutcome(p: Photo, inputs: Inputs): Outcome {
    var key := PhotoKey(p.labelId, p.labelGroup);
    if p.isRequired == UNKNOWN_REQUIRED then Block([Blocker(PhotoRequirementStateUnknown, key)])
    else if p.reviewStatus == REVIEWING || p.reviewStatus == PASSED then Nothing
    else if p.isRequired != 1 && p.reviewStatus != REJECTED then Nothing
    else match FindPhoto(p, inputs.photos)
      case Absent => Block([Blocker(PhotoAssignmentRequired, key)])
      case Returned(found) =>
        var a := found[0];
        if !HasText(a.localAssetRef) && !HasText(a.uploadedPictureId) then Block([Blocker(PhotoAssignmentRequired, key)])
        else Do(Action(UploadPhoto(a.localAssetRef, a.uploadedPictureId), key, ""))
  }

  // ---------------------------------------------------------------- the plan

  /** When the template's rules were read: no time, one that cannot be parsed, or a time. */
  datatype Snapshot = NoSnapshot | Unreadable | ReadAt(time: int)

  function SnapshotBlockers(hasTemplate: bool, snapshot: Snapshot, now: int, maxAge: int): seq<Blocker> {
    if hasTemplate && snapshot.NoSnapshot? then [Blocker(RuleSnapshotMissing, "")]
    else if hasTemplate && snapshot.ReadAt? && now - snapshot.time > maxAge then [Blocker(RuleSnapshotStale, "")]
    else []
  }

  function SourceBlockers(row: Row): seq<Blocker> {
    (if row.requirementsReturned then [] else [Blocker(RequirementsNotSynced, "")])
    + (if row.photosReturned then [] else [Blocker(PhotoRequirementsNotSynced, "")])
  }

  function Requirements(row: Row): seq<Requirement> { row.certificates + row.agencies + row.warnings }

  function Photos(row: Row): seq<Photo> { row.bodyPhotos + row.packagePhotos }

  /** The outcomes in the order of the code: requirements, unsupported items, photos. */
  function Outcomes(row: Row, inputs: Inputs): seq<Outcome> {
    RequirementOutcomes(Requirements(row), row.skc, inputs)
    + UnsupportedOutcomes(row.unsupported)
    + PhotoOutcomes(Photos(row), inputs)
  }

  function RequirementOutcomes(rs: seq<Requirement>, skc: string, inputs: Inputs): seq<Outcome> {
    seq(|rs|, i requires 0 <= i < |rs| => RequirementOutcome(rs[i], skc, inputs))
  }

  function UnsupportedOutcomes(rs: seq<Requirement>): seq<Outcome> {
    seq(|rs|, i requires 0 <= i < |rs| => UnsupportedOutcome(rs[i]))
  }

  function PhotoOutcomes(ps: seq<Photo>, inputs: Inputs): seq<Outcome> {
    seq(|ps|, i requires 0 <= i < |ps| => PhotoOutcome(ps[i], inputs))
  }

  function ActionsOf(os: seq<Outcome>): seq<Action> {
    if os == [] then []
    else ActionsOf(os[..|os| - 1]) + (if os[|os| - 1].Do? then [os[|os| - 1].action] else [])
  }

  function BlockersOf(os: seq<Outcome>): seq<Blocker> {
    if os == [] then []
    else BlockersOf(os[..|os| - 1]) + (if os[|os| - 1].Block? then os[|os| - 1].blockers else [])
  }

  function WaitingOf(os: seq<Outcome>): seq<string> {
    if os == [] then []
    else WaitingOf(os[..|os| - 1]) + (if os[|os| - 1].Wait? then [os[|os| - 1].key] else [])
  }

  function StatusOf(actions: seq<Action>, blockers: seq<Blocker>, waiting: seq<string>): Status {
    if blockers != [] then
      if forall b :: b in blockers ==> IsRuleCode(b.code) then RulesPending else BlockedPlan
    else if actions != [] then Ready
    else if waiting != [] then WaitingReview
    else Compliant
  }

  /** `buildSkcCompliancePreflight` */
  function MakePlan(row: Row, inputs: Inputs, hasTemplate: bool, snapshot: Snapshot, now: int, maxAge: int): Plan {
    var os := Outcomes(row, inputs);
    var blockers := SourceBlockers(row) + SnapshotBlockers(hasTemplate, snapshot, now, maxAge) + BlockersOf(os);
    Plan(row.skc, StatusOf(ActionsOf(os), blockers, WaitingOf(os)), ActionsOf(os), blockers, WaitingOf(os))
  }

  /** The lists that the three loops of `buildSkcCompliancePreflight` push onto. */
  class PlanBuilder {
    var actions: seq<Action>
    var blockers: seq<Blocker>
    var waiting: seq<string>
    ghost var outcomes: seq<Outcome>
    ghost var initial: seq<Blocker>

    ghost predicate Valid()
      reads this
    {
      && actions == ActionsOf(outcomes) && waiting == WaitingOf(outcomes)
      && blockers == initial + BlockersOf(outcomes)
    }

    constructor (blockers: seq<Blocker>)
      ensures Valid() && outcomes == [] && initial == blockers
    {
      actions, this.blockers, waiting, outcomes, initial := [], blockers, [], [], blockers;
    }

    method Push(o: Outcome)
      requires Valid()
      modifies this
      ensures Valid() && outcomes == old(outcomes) + [o] && initial == old(initial)
    {
      match o {
        case Nothing =>
        case Wait(key) => waiting := waiting + [key];
        case Block(bs) => blockers := blockers + bs;
        case Do(action) => actions := actions + [action];
      }
      outcomes := outcomes + [o];
      assert outcomes[..|outcomes| - 1] == old(outcomes);
    }
  }

  method BuildSkcCompliancePreflight(
      row: Row, inputs: Inputs, hasTemplate: bool, snapshot: Snapshot, now: int, maxAge: int) returns (plan: Plan)
    ensures plan == MakePlan(row, inputs, hasTemplate, snapshot, now, maxAge)
  {
    hide RequirementOutcome, UnsupportedOutcome, PhotoOutcome, StatusOf, SourceBlockers, SnapshotBlockers;
    hide Requirements, Photos;
    var initial := SourceBlockers(row) + SnapshotBlockers(hasTemplate, snapshot, now, maxAge);
    var b := new PlanBuilder(initial);
    var rs, ps := Requirements(row), Photos(row);
    for i := 0 to |rs|
      invariant b.Valid() && b.initial == initial && fresh(b)
      invariant b.outcomes == RequirementOutcomes(rs, row.skc, inputs)[..i]
    {
      b.Push(RequirementOutcome(rs[i], row.skc, inputs));
    }
    ghost var done := b.outcomes;
    for i := 0 to |row.unsupported|
      invariant b.Valid() && b.initial == initial && fresh(b)
      invariant b.outcomes == done + UnsupportedOutcomes(row.unsupported)[..i]
    {
      b.Push(UnsupportedOutcome(row.unsupported[i]));
    }
    done := b.outcomes;
    for i := 0 to |ps|
      invariant b.Valid() && b.initial == initial && fresh(b)
      invariant b.outcomes == done + PhotoOutcomes(ps, inputs)[..i]
    {
      b.Push(PhotoOutcome(ps[i], inputs));
    }
    assert b.outcomes == Outcomes(row, inputs);
    return Plan(row.skc, StatusOf(b.actions, b.blockers, b.waiting), b.actions, b.blockers, b.waiting);
  }

  // ---------------------------------------------------------------- nothing is lost

  /** Required or rejected, and neither passed nor under review. */
  predicate Unresolved(r: Requirement) {
    (r.isRequired == 1 || r.reviewState == REJECTED) && r.reviewState != PASSED && r.reviewState != REVIEWING
  }

  predicate PhotoUnresolved(p: Photo) {
    (p.isRequired == 1 || p.reviewStatus == REJECTED) && p.reviewStatus != PASSED && p.reviewStatus != REVIEWING
  }

  /** The action handles requirements of this group. */
  predicate Handles(a: Action, r: Requirement) {
    && a.key == RequirementKey(r) && a.typeCode == r.typeCode
    && if IsCertificate(r) then a.kind.RecheckCertificate? || a.kind.BindCertificate? || a.kind.CreateCertificate?
       else if IsAgency(r) then a.kind.BindAgency? || a.kind.RecheckAgency?
       else IsWarning(r) && a.kind.UpdateWarning?
  }

  predicate HandlesPhoto(a: Action, p: Photo) {
    && a.key == PhotoKey(p.labelId, p.labelGroup) && a.kind.UploadPhoto?
    && (HasText(a.kind.localAssetRef) || HasText(a.kind.uploadedPictureId))
  }

  /** A requirement of a known group that does not block acts exactly when it is unresolved. */
  lemma RequirementDecided(r: Requirement, skc: string, inputs: Inputs)
    requires IsCertificate(r) || IsAgency(r) || IsWarning(r)
    ensures var o := RequirementOutcome(r, skc, inputs);
      && (o.Block? ==> o.blockers != [])
      && (!o.Block? ==> (o.Do? <==> Unresolved(r)))
      && (o.Do? ==> Handles(o.action, r))
      && (o.Wait? <==> r.isRequired != UNKNOWN_REQUIRED && r.reviewState == REVIEWING)
  {
  }

  lemma PhotoDecided(p: Photo, inputs: Inputs)
    ensures var o := PhotoOutcome(p, inputs);
      && (o.Block? ==> o.blockers != [])
      && (!o.Block? ==> (o.Do? <==> PhotoUnresolved(p)))
      && (o.Do? ==> HandlesPhoto(o.action, p))
      && !o.Wait?
  {
  }

  lemma {:induction false} ActionsConcat(a: seq<Outcome>, b: seq<Outcome>)
    ensures ActionsOf(a + b) == ActionsOf(a) + ActionsOf(b)
  {
    if b == [] {
      assert a + b == a;
    } else {
      var n := |b| - 1;
      ActionsConcat(a, b[..n]);
      assert (a + b)[..|a + b| - 1] == a + b[..n];
    }
  }

  lemma {:induction false} BlockersConcat(a: seq<Outcome>, b: seq<Outcome>)
    ensures BlockersOf(a + b) == BlockersOf(a) + BlockersOf(b)
  {
    if b == [] {
      assert a + b == a;
    } else {
      var n := |b| - 1;
      BlockersConcat(a, b[..n]);
      assert (a + b)[..|a + b| - 1] == a + b[..n];
    }
  }

  ghost predicate InStepWith(actions: seq<Action>, rs: seq<Requirement>) {
    |actions| == |rs| && forall i :: 0 <= i < |rs| ==> Handles(actions[i], rs[i])
  }

  ghost predicate InStepWithPhotos(actions: seq<Action>, ps: seq<Photo>) {
    |actions| == |ps| && forall i :: 0 <= i < |ps| ==> HandlesPhoto(actions[i], ps[i])
  }

  lemma {:induction false} RequirementActions(rs: seq<Requirement>, skc: string, inputs: Inputs)
    requires forall r :: r in rs ==> IsCertificate(r) || IsAgency(r) || IsWarning(r)
    requires BlockersOf(RequirementOutcomes(rs, skc, inputs)) == []
    ensures InStepWith(ActionsOf(RequirementOutcomes(rs, skc, inputs)), Filter(Unresolved, rs))
  {
    if rs != [] {
      var n := |rs| - 1;
      var os := RequirementOutcomes(rs, skc, inputs);
      assert os[..n] == RequirementOutcomes(rs[..n], skc, inputs);
      assert rs[n] in rs && forall r :: r in rs[..n] ==> r in rs;
      hide RequirementOutcome, Handles;
      RequirementActions(rs[..n], skc, inputs);
      RequirementDecided(rs[n], skc, inputs);
    }
  }

  lemma {:induction false} PhotoActions(ps: seq<Photo>, inputs: Inputs)
    requires BlockersOf(PhotoOutcomes(ps, inputs)) == []
    ensures InStepWithPhotos(ActionsOf(PhotoOutcomes(ps, inputs)), Filter(PhotoUnresolved, ps))
  {
    if ps != [] {
      var n := |ps| - 1;
      var os := PhotoOutcomes(ps, inputs);
      assert os[..n] == PhotoOutcomes(ps[..n], inputs);
      hide PhotoOutcome, HandlesPhoto;
      PhotoActions(ps[..n], inputs);
      PhotoDecided(ps[n], inputs);
    }
  }

  lemma {:induction false} UnsupportedActions(rs: seq<Requirement>)
    requires BlockersOf(UnsupportedOutcomes(rs)) == []
    ensures ActionsOf(UnsupportedOutcomes(rs)) == []
    ensures forall r :: r in rs ==> !(r.reviewState != PASSED && (r.isRequired == 1 || r.reviewState == REJECTED))
  {
    if rs != [] {
      var n := |rs| - 1;
      assert UnsupportedOutcomes(rs)[..n] == UnsupportedOutcomes(rs[..n]);
      UnsupportedActions(rs[..n]);
      assert rs == rs[..n] + [rs[n]];
    }
  }

  /** The row files every requirement under its own group. */
  ghost predicate Grouped(row: Row) {
    forall r :: r in Requirements(row) ==> IsCertificate(r) || IsAgency(r) || IsWarning(r)
  }

  /** A plan without blockers acts on the unresolved requirements and photos, one action for
      each and in their order, and no unsupported item is left unresolved. */
  lemma NothingLostInPlan(row: Row, inputs: Inputs, hasTemplate: bool, snapshot: Snapshot, now: int, maxAge: int)
    requires Grouped(row) && MakePlan(row, inputs, hasTemplate, snapshot, now, maxAge).blockers == []
    ensures var plan := MakePlan(row, inputs, hasTemplate, snapshot, now, maxAge);
            var rs := Filter(Unresolved, Requirements(row));
            var ps := Filter(PhotoUnresolved, Photos(row));
      && row.requirementsReturned && row.photosReturned
      && |plan.actions| == |rs| + |ps|
      && InStepWith(plan.actions[..|rs|], rs)
      && InStepWithPhotos(plan.actions[|rs|..], ps)
      && forall r :: r in row.unsupported ==> !Unresolved(r)
  {
    var a := RequirementOutcomes(Requirements(row), row.skc, inputs);
    var b := UnsupportedOutcomes(row.unsupported);
    var c := PhotoOutcomes(Photos(row), inputs);
    ActionsConcat(a + b, c);
    ActionsConcat(a, b);
    BlockersConcat(a + b, c);
    BlockersConcat(a, b);
    RequirementActions(Requirements(row), row.skc, inputs);
    UnsupportedActions(row.unsupported);
    PhotoActions(Photos(row), inputs);
  }

  /** The row of the sync is grouped. */
  lemma BuiltRowsAreGrouped(skc: string, requirements: Answer<Requirement>, photos: Answer<Photo>)
    ensures Grouped(BuildRow(skc, requirements, photos))
  {
    var items := requirements.Items();
    forall r | r in Requirements(BuildRow(skc, requirements, photos)) ensures IsCertificate(r) || IsAgency(r) || IsWarning(r) {
      FilterMember(IsCertificate, items, r);
      FilterMember(IsAgency, items, r);
      FilterMember(IsWarning, items, r);
    }
  }

  lemma UnresolvedAreListed(skc: string, requirements: Answer<Requirement>, photos: Answer<Photo>)
    requires forall r :: r in BuildRow(skc, requirements, photos).unsupported ==> !Unresolved(r)
    ensures multiset(Filter(Unresolved, Requirements(BuildRow(skc, requirements, photos))))
         == multiset(Filter(Unresolved, requirements.Items()))
  {
    var row := BuildRow(skc, requirements, photos);
    var items := requirements.Items();
    hide Filter, BuildRow;
    forall r ensures multiset(Filter(Unresolved, Requirements(row)))[r] == multiset(Filter(Unresolved, items))[r] {
      FilterCount(Unresolved, Requirements(row), r);
      FilterCount(Unresolved, items, r);
      RequirementsPartitioned(skc, requirements, photos, r);
      if Unresolved(r) { assert r !in row.unsupported; }
    }
  }

  /** From the platform's answer to the plan: without blockers, the requirements acted upon are
      exactly the unresolved ones that were returned. */
  lemma NothingLostFromSyncToPlan(
      skc: string, requirements: Answer<Requirement>, photos: Answer<Photo>,
      inputs: Inputs, hasTemplate: bool, snapshot: Snapshot, now: int, maxAge: int)
    requires MakePlan(BuildRow(skc, requirements, photos), inputs, hasTemplate, snapshot, now, maxAge).blockers == []
    ensures var row := BuildRow(skc, requirements, photos);
            var plan := MakePlan(row, inputs, hasTemplate, snapshot, now, maxAge);
            var rs := Filter(Unresolved, Requirements(row));
      && |rs| <= |plan.actions| && InStepWith(plan.actions[..|rs|], rs)
      && multiset(rs) == multiset(Filter(Unresolved, requirements.Items()))
  {
    hide MakePlan, Filter, BuildRow;
    var row := BuildRow(skc, requirements, photos);
    BuiltRowsAreGrouped(skc, requirements, photos);
    NothingLostInPlan(row, inputs, hasTemplate, snapshot, now, maxAge);
    UnresolvedAreListed(skc, requirements, photos);
  }

  const RULE_CODES := {RequirementsNotSynced, PhotoRequirementsNotSynced, RequirementStateUnknown,
                       PhotoRequirementStateUnknown, RuleSnapshotMissing, RuleSnapshotStale}

  /** A plan is ready exactly when it has actions and nothing blocks it; it is compliant exactly
      when nothing is left to do or to wait for, and waits exactly when only that is left. What blocks it
      is pending rules exactly when everything that does is about unknown requirements or rules. */
  lemma StatusExact(row: Row, inputs: Inputs, hasTemplate: bool, snapshot: Snapshot, now: int, maxAge: int)
    ensures var plan := MakePlan(row, inputs, hasTemplate, snapshot, now, maxAge);
      && (plan.status == Ready <==> plan.blockers == [] && plan.actions != [])
      && (plan.status == Compliant <==> plan.blockers == [] && plan.actions == [] && plan.waiting == [])
      && (plan.status == WaitingReview <==> plan.blockers == [] && plan.actions == [] && plan.waiting != [])
      && (plan.status == RulesPending <==> plan.blockers != [] && forall b :: b in plan.blockers ==> b.code in RULE_CODES)
      && (plan.status == BlockedPlan <==> exists b :: b in plan.blockers && b.code !in RULE_CODES)
  {
  }

  // ---------------------------------------------------------------- all rows together

  /** The plans of all rows, each with its own merged inputs. */
  function MakePlans(
      rows: seq<(Row, Inputs)>, hasTemplate: bool, snapshot: Snapshot, now: int, maxAge: int): seq<Plan> {
    seq(|rows|, i requires 0 <= i < |rows| => MakePlan(rows[i].0, rows[i].1, hasTemplate, snapshot, now, maxAge))
  }

  /** The plans can be executed together: some are ready, the others compliant. */
  predicate Executable(plans: seq<Plan>) {
    && (exists i :: 0 <= i < |plans| && plans[i].status == Ready)
    && (forall i :: 0 <= i < |plans| ==> plans[i].status == Ready || plans[i].status == Compliant)
  }

  function ActionCount(plans: seq<Plan>): nat {
    if plans == [] then 0 else ActionCount(plans[..|plans| - 1]) + |plans[|plans| - 1].actions|
  }

  /** The unresolved requirements and photos of all rows. */
  function UnresolvedCount(rows: seq<(Row, Inputs)>): nat {
    if rows == [] then 0
    else
      var row := rows[|rows| - 1].0;
      UnresolvedCount(rows[..|rows| - 1]) + |Filter(Unresolved, Requirements(row))| + |Filter(PhotoUnresolved, Photos(row))|
  }

  /** `buildCompliancePreflight` */
  method BuildCompliancePreflight(
      rows: seq<(Row, Inputs)>, hasTemplate: bool, snapshot: Snapshot, now: int, maxAge: int)
    returns (plans: seq<Plan>, executable: bool, actionCount: nat)
    ensures plans == MakePlans(rows, hasTemplate, snapshot, now, maxAge)
    ensures executable == Executable(plans) && actionCount == ActionCount(plans)
  {
    hide MakePlan;
    plans, actionCount := [], 0;
    var ready, allFine := false, true;
    for i := 0 to |rows|
      invariant |plans| == i
      invariant forall j :: 0 <= j < i ==> plans[j] == MakePlan(rows[j].0, rows[j].1, hasTemplate, snapshot, now, maxAge)
      invariant ready <==> exists j :: 0 <= j < i && plans[j].status == Ready
      invariant allFine <==> forall j :: 0 <= j < i ==> plans[j].status == Ready || plans[j].status == Compliant
      invariant actionCount == ActionCount(plans)
    {
      var plan := BuildSkcCompliancePreflight(rows[i].0, rows[i].1, hasTemplate, snapshot, now, maxAge);
      assert (plans + [plan])[..i] == plans;
      plans := plans + [plan];
      ready := ready || plan.status == Ready;
      allFine := allFine && (plan.status == Ready || plan.status == Compliant);
      actionCount := actionCount + |plan.actions|;
    }
    executable := ready && allFine;
  }

  /** Plans that can be executed together act on every unresolved requirement and photo of every row,
      once each, and there is at least one. */
  lemma ExecutableActsOnAll(
      rows: seq<(Row, Inputs)>, hasTemplate: bool, snapshot: Snapshot, now: int, maxAge: int)
    requires forall i :: 0 <= i < |rows| ==> Grouped(rows[i].0)
    ensures var plans := MakePlans(rows, hasTemplate, snapshot, now, maxAge);
      Executable(plans) ==>
      && ActionCount(plans) == UnresolvedCount(rows) > 0
      && forall i :: 0 <= i < |plans| ==> plans[i].blockers == []
  {
    hide MakePlan, Grouped;
    var plans := MakePlans(rows, hasTemplate, snapshot, now, maxAge);
    if Executable(plans) {
      forall i | 0 <= i < |plans| ensures plans[i].blockers == [] && (plans[i].status == Ready ==> plans[i].actions != []) {
        StatusExact(rows[i].0, rows[i].1, hasTemplate, snapshot, now, maxAge);
      }
      ActionsOfAll(rows, hasTemplate, snapshot, now, maxAge);
      var i :| 0 <= i < |plans| && plans[i].status == Ready;
      SomeActions(plans, i);
    }
  }

  lemma {:induction false} SomeActions(plans: seq<Plan>, i: nat)
    requires i < |plans| && plans[i].actions != []
    ensures ActionCount(plans) > 0
  {
    if i < |plans| - 1 { SomeActions(plans[..|plans| - 1], i); }
  }

  lemma {:induction false} ActionsOfAll(
      rows: seq<(Row, Inputs)>, hasTemplate: bool, snapshot: Snapshot, now: int, maxAge: int)
    requires forall i :: 0 <= i < |rows| ==> Grouped(rows[i].0)
    requires forall i :: 0 <= i < |rows| ==> MakePlans(rows, hasTemplate, snapshot, now, maxAge)[i].blockers == []
    ensures ActionCount(MakePlans(rows, hasTemplate, snapshot, now, maxAge)) == UnresolvedCount(rows)
  {
    hide MakePlan, Grouped, Filter, Requirements, Photos, InStepWith, InStepWithPhotos;
    var plans := MakePlans(rows, hasTemplate, snapshot, now, maxAge);
    if rows != [] {
      var n := |rows| - 1;
      assert plans[..n] == MakePlans(rows[..n], hasTemplate, snapshot, now, maxAge);
      forall i | 0 <= i < n ensures MakePlans(rows[..n], hasTemplate, snapshot, now, maxAge)[i].blockers == [] {
        assert plans[i].blockers == [];
      }
      assert plans[n].blockers == [];
      ActionsOfAll(rows[..n], hasTemplate, snapshot, now, maxAge);
      NothingLostInPlan(rows[n].0, rows[n].1, hasTemplate, snapshot, now, maxAge);
    }
  }
}
