/** Compliance revalidation: after a publication the SKCs read back from the platform are checked
    against current requirements and against the SKCs that were planned. */
module Revalidation {
  import opened Options
  import opened JsStrings
  import opened ComplianceRows

  /** `expiresAt` is a time when the text holds a date. */
  datatype Snapshot = Snapshot(isFresh: bool, expiresAt: Option<int>, fetchedAt: string)

  /** A certificate of a template: its three identifying texts, its pool number, its local files. */
  datatype Material = Material(typeId: string, typeCode: string, typeName: string, poolSn: string, assets: seq<string>)

  datatype Template = Template(kind: string, reportType: string, certificates: seq<Material>)

  /** The compliance template counts only without a report template of its own. */
  datatype Draft = Draft(report: Option<Template>, compliance: Template)

  datatype Input = Input(
    skcs: seq<string>,
    expected: seq<string>,
    rows: seq<Row>,
    draft: Draft,
    snapshot: Snapshot,
    snapshotsBySkc: map<string, Snapshot>,
    now: int)

  datatype Capability = Gcc | ProductIdentifier

  datatype Status = NotRequired | Passed | Reviewing | Failed | Missing | Unknown

  datatype Issue =
    | SkcInvalid
    | RequirementsMissing
    | RequirementsIncomplete
    | SnapshotStale
    | SnapshotMissing
    | ReportAmbiguous
    | MaterialMissing
    | CapabilityNotPassed(capability: Capability)
    | ReadbackMissing
    | CoverageIncomplete
    | SkcUnexpected

  datatype Blocker = Blocker(issue: Issue, skc: string)

  // ---------------------------------------------------------------- identities

  function Joined(parts: seq<string>): string {
    if parts == [] then ""
    else if |parts| == 1 then parts[0]
    else Joined(parts[..|parts| - 1]) + " " + parts[|parts| - 1]
  }

  /** `requirementIdentity` */
  function Identity(typeId: string, typeCode: string, typeName: string): string {
    Lower(Joined(Filter((s: string) => s != "", [Trim(typeId), Trim(typeCode), Trim(typeName)])))
  }

  function IdentityOf(r: Requirement): string { Identity(r.typeId, r.typeCode, r.typeName) }

  predicate IsCapability(r: Requirement, capability: Capability) {
    var identity := IdentityOf(r);
    match capability
    case ProductIdentifier =>
      || Trim(r.typeId) == "844" || Contains(identity, "\U{4EA7}\U{54C1}\U{6807}\U{8BC6}\U{7B26}")
      || Contains(identity, "productidentifier") || Contains(identity, "product identifier")
    case Gcc => Contains(identity, "gcc")
  }

  function RequirementStatus(r: Requirement): Status {
    if r.isRequired != 1 then NotRequired
    else if r.reviewState == PASSED then Passed
    else if r.reviewState == REVIEWING then Reviewing
    else if r.reviewState == REJECTED then Failed
    else if r.reviewState == MISSING then Missing
    else Unknown
  }

  function CapabilityStatus(requirements: seq<Requirement>, capability: Capability): Status {
    var matches := Filter((r: Requirement) => IsCapability(r, capability), requirements);
    if matches == [] then NotRequired else RequirementStatus(matches[0])
  }

  // ---------------------------------------------------------------- reports

  /** `officialReportType`, empty when there is none. */
  function ReportType(r: Requirement): string {
    var identity := IdentityOf(r);
    if Contains(identity, "1631") then "1631"
    else if Contains(identity, "1630") then "1630"
    else if Contains(identity, "smallcarpet") then "1631"
    else if Contains(identity, "largecarpet") then "1630"
    else ""
  }

  predicate NeedsReport(r: Requirement) { r.isRequired == 1 || r.reviewState == REJECTED }

  /** The report types of a row; none without a row. */
  function ReportTypes(row: Option<Row>): seq<string> {
    if row.None? then []
    else
      var needed := Filter(NeedsReport, row.value.certificates);
      UniqueStrings(seq(|needed|, i requires 0 <= i < |needed| => ReportType(needed[i])))
  }

  predicate IsMaterial(m: Material, reportType: string) {
    && Contains(Identity(m.typeId, m.typeCode, m.typeName), reportType)
    && (HasText(m.poolSn) || exists i :: 0 <= i < |m.assets| && HasText(m.assets[i]))
  }

  /** Whether `reportMaterialFor` finds a certificate. */
  predicate HasMaterial(reportType: string, draft: Draft) {
    if draft.report.Some? && (Trim(draft.report.value.kind) != "rug_report"
                              || Trim(draft.report.value.reportType) != Trim(reportType)) then false
    else
      var template := if draft.report.Some? then draft.report.value else draft.compliance;
      SomeMaterial(template.certificates, reportType)
  }

  predicate SomeMaterial(ms: seq<Material>, reportType: string) {
    exists i :: 0 <= i < |ms| && IsMaterial(ms[i], reportType)
  }

  // ---------------------------------------------------------------- one SKC

  /** The last row of an SKC. */
  function RowOf(rows: seq<Row>, skc: string): Option<Row> {
    if rows == [] then None
    else if Trim(rows[|rows| - 1].skc) == skc && skc != "" then Some(rows[|rows| - 1])
    else RowOf(rows[..|rows| - 1], skc)
  }

  function SnapshotOf(input: Input, skc: string): Snapshot {
    if skc in input.snapshotsBySkc then input.snapshotsBySkc[skc] else input.snapshot
  }

  function SnapshotIssues(s: Snapshot, now: int): seq<Issue> {
    if !s.isFresh then [SnapshotStale]
    else if s.expiresAt.Some? && s.expiresAt.value <= now then [SnapshotStale]
    else if !HasText(s.fetchedAt) then [SnapshotMissing]
    else []
  }

  function ReportIssues(types: seq<string>, draft: Draft): seq<Issue> {
    if |types| > 1 then [ReportAmbiguous]
    else if |types| == 1 && !HasMaterial(types[0], draft) then [MaterialMissing]
    else []
  }

  function RequirementsOf(row: Option<Row>): seq<Requirement> {
    if row.None? then []
    else row.value.certificates + row.value.agencies + row.value.warnings + row.value.unsupported
  }

  function RowIssues(row: Option<Row>): seq<Issue> {
    if row.None? then [RequirementsMissing]
    else if !row.value.requirementsReturned || !row.value.photosReturned then [RequirementsIncomplete]
    else []
  }

  function CapabilityIssues(requirements: seq<Requirement>, capability: Capability): seq<Issue> {
    var status := CapabilityStatus(requirements, capability);
    if status.NotRequired? || status.Passed? then [] else [CapabilityNotPassed(capability)]
  }

  /** The blockers of one SKC read back, in order. */
  function SkcIssues(input: Input, skc: string): seq<Issue> {
    var name := Trim(skc);
    var row := RowOf(input.rows, name);
    (if name == "" then [SkcInvalid] else [])
    + RowIssues(row)
    + SnapshotIssues(SnapshotOf(input, name), input.now)
    + ReportIssues(ReportTypes(row), input.draft)
    + CapabilityIssues(RequirementsOf(row), Gcc)
    + CapabilityIssues(RequirementsOf(row), ProductIdentifier)
  }

  function Blocked(issues: seq<Issue>, skc: string): seq<Blocker> {
    seq(|issues|, i requires 0 <= i < |issues| => Blocker(issues[i], skc))
  }

  // ---------------------------------------------------------------- the whole readback

  function Trimmed(names: seq<string>): seq<string> {
    seq(|names|, i requires 0 <= i < |names| => Trim(names[i]))
  }

  function Expected(input: Input): seq<string> { UniqueStrings(Trimmed(input.expected)) }

  function Readback(input: Input): seq<string> { Unique(Trimmed(input.skcs)) }

  function SkcBlockers(input: Input, n: nat): seq<Blocker>
    requires n <= |input.skcs|
  {
    if n == 0 then []
    else SkcBlockers(input, n - 1) + Blocked(SkcIssues(input, input.skcs[n - 1]), Trim(input.skcs[n - 1]))
  }

  function Uncovered(expected: seq<string>, readback: seq<string>): seq<Blocker> {
    if expected == [] then []
    else
      var n := |expected| - 1;
      Uncovered(expected[..n], readback)
      + if expected[n] in readback then [] else [Blocker(CoverageIncomplete, expected[n])]
  }

  function Unexpected(expected: seq<string>, readback: seq<string>): seq<Blocker> {
    if readback == [] then []
    else
      var n := |readback| - 1;
      Unexpected(expected, readback[..n])
      + if expected != [] && readback[n] !in expected then [Blocker(SkcUnexpected, readback[n])] else []
  }

  function Blockers(input: Input): seq<Blocker> {
    SkcBlockers(input, |input.skcs|)
    + (if input.skcs == [] then [Blocker(ReadbackMissing, "")] else [])
    + Uncovered(Expected(input), Readback(input))
    + Unexpected(Expected(input), Readback(input))
  }

  /** `buildComplianceRevalidation`, as far as it decides on completion. */
  method BuildComplianceRevalidation(input: Input) returns (blockers: seq<Blocker>, completionEligible: bool)
    ensures blockers == Blockers(input)
    ensures completionEligible <==> Eligible(input)
  {
    hide Expected, Readback, SkcIssues, Blocked, Eligible;
    var expected, readback := Expected(input), Readback(input);
    blockers := [];
    for i := 0 to |input.skcs|
      invariant blockers == SkcBlockers(input, i)
    {
      blockers := blockers + Blocked(SkcIssues(input, input.skcs[i]), Trim(input.skcs[i]));
    }
    if input.skcs == [] {
      blockers := blockers + [Blocker(ReadbackMissing, "")];
    }
    ghost var before := blockers;
    for i := 0 to |expected|
      invariant blockers == before + Uncovered(expected[..i], readback)
    {
      assert expected[..i + 1][..i] == expected[..i];
      if expected[i] !in readback {
        blockers := blockers + [Blocker(CoverageIncomplete, expected[i])];
      }
    }
    assert expected[..|expected|] == expected;
    ghost var covered := blockers;
    for i := 0 to |readback|
      invariant blockers == covered + Unexpected(expected, readback[..i])
    {
      assert readback[..i + 1][..i] == readback[..i];
      if expected != [] && readback[i] !in expected {
        blockers := blockers + [Blocker(SkcUnexpected, readback[i])];
      }
    }
    assert readback[..|readback|] == readback;
    completionEligible := blockers == [];
    CompletionEligibleIff(input);
  }

  // ---------------------------------------------------------------- when completion is eligible

  /** One of a requirement's or material's three texts has this in it, blanks and capitals apart. */
  ghost predicate Mentions(t: string, typeId: string, typeCode: string, typeName: string) {
    Occurs(t, Lower(Trim(typeId))) || Occurs(t, Lower(Trim(typeCode))) || Occurs(t, Lower(Trim(typeName)))
  }

  ghost predicate Says(r: Requirement, t: string) { Mentions(t, r.typeId, r.typeCode, r.typeName) }

  /** The requirement is of the kind. Only "product identifier" may stretch over two texts. */
  ghost predicate Concerns(r: Requirement, capability: Capability) {
    match capability
    case Gcc => Says(r, "gcc")
    case ProductIdentifier =>
      || Trim(r.typeId) == "844" || Says(r, "\U{4EA7}\U{54C1}\U{6807}\U{8BC6}\U{7B26}")
      || Says(r, "productidentifier") || Occurs("product identifier", IdentityOf(r))
  }

  /** The requirement asks for a report of this type: by number, or else by name. */
  ghost predicate Asks(r: Requirement, t: string) {
    || (t == "1631" && (Says(r, "1631") || (!Says(r, "1630") && Says(r, "smallcarpet"))))
    || (t == "1630" && !Says(r, "1631") && (Says(r, "1630") || (!Says(r, "smallcarpet") && Says(r, "largecarpet"))))
  }

  /** A certificate of this type that comes from the pool or has a file. */
  ghost predicate Covers(m: Material, t: string) {
    && Mentions(t, m.typeId, m.typeCode, m.typeName)
    && (HasText(m.poolSn) || exists a :: a in m.assets && HasText(a))
  }

  /** A report template of its own counts alone, and only for its own type; else the compliance template does. */
  ghost predicate MaterialThere(t: string, draft: Draft) {
    match draft.report
    case Some(own) =>
      Trim(own.kind) == "rug_report" && Trim(own.reportType) == t && exists m :: m in own.certificates && Covers(m, t)
    case None => exists m :: m in draft.compliance.certificates && Covers(m, t)
  }

  /** The last row of this SKC among the rows, whatever its place. */
  ghost predicate IsRowOf(rows: seq<Row>, skc: string, row: Row) {
    exists i :: LastAt(rows, skc, i) && rows[i] == row
  }

  ghost predicate LastAt(rows: seq<Row>, skc: string, i: int) {
    0 <= i < |rows| && Trim(rows[i].skc) == skc && forall j :: i < j < |rows| ==> Trim(rows[j].skc) != skc
  }

  ghost predicate IsFirst(requirements: seq<Requirement>, capability: Capability, i: nat) {
    && i < |requirements| && Concerns(requirements[i], capability)
    && forall j :: 0 <= j < i ==> !Concerns(requirements[j], capability)
  }

  /** The first requirement of a kind decides about it. */
  ghost predicate CapabilityPasses(requirements: seq<Requirement>, capability: Capability) {
    forall i: nat :: IsFirst(requirements, capability, i) ==>
      requirements[i].isRequired != 1 || requirements[i].reviewState == PASSED
  }

  ghost predicate SnapshotValid(s: Snapshot, now: int) {
    s.isFresh && (s.expiresAt.Some? ==> now < s.expiresAt.value) && HasText(s.fetchedAt)
  }

  /** The certificates that are required or rejected ask for one report type at most, and its material
      is there. */
  ghost predicate ReportReady(certificates: seq<Requirement>, draft: Draft) {
    forall c, t :: c in certificates && (c.isRequired == 1 || c.reviewState == 3) && Asks(c, t) ==>
      && MaterialThere(t, draft)
      && forall d, u :: d in certificates && (d.isRequired == 1 || d.reviewState == 3) && Asks(d, u) ==> u == t
  }

  ghost predicate RowPasses(row: Row, draft: Draft) {
    && row.requirementsReturned && row.photosReturned
    && ReportReady(row.certificates, draft)
    && CapabilityPasses(row.certificates + row.agencies + row.warnings + row.unsupported, Gcc)
    && CapabilityPasses(row.certificates + row.agencies + row.warnings + row.unsupported, ProductIdentifier)
  }

  ghost predicate SkcPasses(input: Input, skc: string) {
    && HasText(skc)
    && (exists row :: IsRowOf(input.rows, Trim(skc), row) && RowPasses(row, input.draft))
    && SnapshotValid(
         if Trim(skc) in input.snapshotsBySkc then input.snapshotsBySkc[Trim(skc)] else input.snapshot, input.now)
  }

  ghost function NameSet(names: seq<string>): set<string> { set s | s in names :: Trim(s) }

  /** Something was read back, every SKC of it passes, and if SKCs were expected, they are the ones
      read back. */
  ghost predicate Eligible(input: Input) {
    && input.skcs != []
    && (forall i :: 0 <= i < |input.skcs| ==> SkcPasses(input, input.skcs[i]))
    && (NameSet(input.expected) - {""} == {} || NameSet(input.expected) - {""} == NameSet(input.skcs))
  }

  // ---------------------------------------------------------------- what identities say

  lemma {:induction false} JoinedMentions(parts: seq<string>, t: string)
    requires t != "" && ' ' !in t
    ensures Occurs(t, Lower(Joined(parts))) <==> exists part :: part in parts && Occurs(t, Lower(part))
  {
    if parts == [] {
      assert Lower("") == "";
    } else if |parts| == 1 {
      assert parts[0] in parts;
    } else {
      var n := |parts| - 1;
      JoinedMentions(parts[..n], t);
      assert parts == parts[..n] + [parts[n]];
      var x, y := Joined(parts[..n]), parts[n];
      assert Lower(x + " " + y) == Lower(x) + " " + Lower(y);
      OccursConcat(Lower(x), Lower(y), t);
      hide Lower, Occurs;
    }
  }

  lemma NothingInEmpty(t: string)
    requires t != ""
    ensures !Occurs(t, Lower(""))
  {
  }

  /** A word without blanks is in the identity exactly when it is in one of its texts. */
  lemma IdentityMentions(t: string, typeId: string, typeCode: string, typeName: string)
    requires t != "" && ' ' !in t
    ensures Contains(Identity(typeId, typeCode, typeName), t) <==> Mentions(t, typeId, typeCode, typeName)
  {
    var all := [Trim(typeId), Trim(typeCode), Trim(typeName)];
    var p := (s: string) => s != "";
    var parts := Filter(p, all);
    ContainsIff(Identity(typeId, typeCode, typeName), t);
    hide Trim, Contains, Occurs, Lower;
    JoinedMentions(parts, t);
    NothingInEmpty(t);
    forall x ensures x in parts <==> x in all && x != "" { FilterMember(p, all, x); }
    assert all[0] in all && all[1] in all && all[2] in all;
    hide Filter, Joined;
  }

  lemma SaysIff(r: Requirement, t: string)
    requires t != "" && ' ' !in t
    ensures Contains(IdentityOf(r), t) <==> Says(r, t)
  {
    IdentityMentions(t, r.typeId, r.typeCode, r.typeName);
    hide Identity, Mentions, Contains;
  }

  lemma CapabilityWords(r: Requirement)
    ensures Contains(IdentityOf(r), "gcc") <==> Says(r, "gcc")
    ensures Contains(IdentityOf(r), "productidentifier") <==> Says(r, "productidentifier")
    ensures Contains(IdentityOf(r), "\U{4EA7}\U{54C1}\U{6807}\U{8BC6}\U{7B26}") <==>
            Says(r, "\U{4EA7}\U{54C1}\U{6807}\U{8BC6}\U{7B26}")
  {
    hide Says, Contains, IdentityOf;
    SaysIff(r, "gcc");
    SaysIff(r, "productidentifier");
    SaysIff(r, "\U{4EA7}\U{54C1}\U{6807}\U{8BC6}\U{7B26}");
  }

  lemma ConcernsIff(r: Requirement, capability: Capability)
    ensures IsCapability(r, capability) <==> Concerns(r, capability)
  {
    hide Says, Contains, IdentityOf, Occurs, Trim;
    CapabilityWords(r);
    ContainsIff(IdentityOf(r), "product identifier");
  }

  lemma ReportWords(r: Requirement)
    ensures Contains(IdentityOf(r), "1631") <==> Says(r, "1631")
    ensures Contains(IdentityOf(r), "1630") <==> Says(r, "1630")
    ensures Contains(IdentityOf(r), "smallcarpet") <==> Says(r, "smallcarpet")
    ensures Contains(IdentityOf(r), "largecarpet") <==> Says(r, "largecarpet")
  {
    hide Says, Contains, IdentityOf;
    SaysIff(r, "1631");
    SaysIff(r, "1630");
    SaysIff(r, "smallcarpet");
    SaysIff(r, "largecarpet");
  }

  lemma ReportTypeIff(r: Requirement, t: string)
    ensures t != "" ==> (ReportType(r) == t <==> Asks(r, t))
    ensures Asks(r, t) ==> t != ""
  {
    hide Says, Contains, IdentityOf;
    ReportWords(r);
  }

  lemma MaterialMeans(m: Material, t: string)
    requires t != "" && ' ' !in t
    ensures IsMaterial(m, t) <==> Covers(m, t)
  {
    IdentityMentions(t, m.typeId, m.typeCode, m.typeName);
    hide Identity, Mentions, Contains, HasText;
    forall a ensures a in m.assets <==> exists i :: 0 <= i < |m.assets| && m.assets[i] == a {}
  }

  lemma MaterialIff(t: string, draft: Draft)
    requires t != "" && ' ' !in t && Trim(t) == t
    ensures HasMaterial(t, draft) <==> MaterialThere(t, draft)
  {
    hide SomeMaterial, Covers, Trim;
    SomeMaterialIff(draft.compliance.certificates, t);
    if draft.report.Some? { SomeMaterialIff(draft.report.value.certificates, t); }
  }

  lemma SomeMaterialIff(ms: seq<Material>, t: string)
    requires t != "" && ' ' !in t
    ensures SomeMaterial(ms, t) <==> exists m :: m in ms && Covers(m, t)
  {
    forall m ensures IsMaterial(m, t) <==> Covers(m, t) { MaterialMeans(m, t); }
    hide IsMaterial, Covers;
    if m :| m in ms && Covers(m, t) {
      var i :| 0 <= i < |ms| && ms[i] == m;
    }
  }

  // ---------------------------------------------------------------- proofs of the conditions

  lemma {:induction false} RowOfIsLast(rows: seq<Row>, skc: string)
    requires skc != ""
    ensures var found := RowOf(rows, skc);
      forall row :: IsRowOf(rows, skc, row) <==> found == Some(row)
  {
    if rows != [] {
      var n := |rows| - 1;
      RowOfIsLast(rows[..n], skc);
      forall row ensures IsRowOf(rows, skc, row) <==> RowOf(rows, skc) == Some(row) {
        if Trim(rows[n].skc) == skc {
          assert LastAt(rows, skc, n);
        } else {
          LastRowBefore(rows, skc, row);
        }
      }
    }
  }

  lemma LastRowBefore(rows: seq<Row>, skc: string, row: Row)
    requires rows != [] && Trim(rows[|rows| - 1].skc) != skc
    ensures IsRowOf(rows, skc, row) <==> IsRowOf(rows[..|rows| - 1], skc, row)
  {
    hide LastAt;
    var n := |rows| - 1;
    forall i ensures LastAt(rows, skc, i) <==> LastAt(rows[..n], skc, i) { LastBefore(rows, skc, i); }
    forall i | LastAt(rows[..n], skc, i) ensures 0 <= i < n && rows[..n][i] == rows[i] { LastBefore(rows, skc, i); }
  }

  lemma LastBefore(rows: seq<Row>, skc: string, i: int)
    requires rows != [] && Trim(rows[|rows| - 1].skc) != skc
    ensures LastAt(rows, skc, i) <==> LastAt(rows[..|rows| - 1], skc, i)
    ensures LastAt(rows, skc, i) ==> 0 <= i < |rows| - 1
  {
    hide Trim;
    var n := |rows| - 1;
    if LastAt(rows[..n], skc, i) {
      forall j | i < j < |rows| ensures Trim(rows[j].skc) != skc {
        if j < n { assert rows[..n][j] == rows[j]; }
      }
    }
  }

  lemma {:induction false} FirstMatch<T>(p: T -> bool, xs: seq<T>)
    ensures Filter(p, xs) == [] <==> forall i :: 0 <= i < |xs| ==> !p(xs[i])
    ensures Filter(p, xs) != [] ==> exists i ::
      0 <= i < |xs| && p(xs[i]) && Filter(p, xs)[0] == xs[i] && forall j :: 0 <= j < i ==> !p(xs[j])
  {
    if xs != [] {
      var n := |xs| - 1;
      FirstMatch(p, xs[..n]);
      if Filter(p, xs[..n]) == [] {
        assert forall i :: 0 <= i < n ==> !p(xs[..n][i]);
      } else {
        var i :| 0 <= i < n && p(xs[..n][i]) && Filter(p, xs[..n])[0] == xs[..n][i]
                 && forall j :: 0 <= j < i ==> !p(xs[..n][j]);
        assert p(xs[i]) && forall j :: 0 <= j < i ==> !p(xs[j]) by {
          forall j | 0 <= j < i ensures !p(xs[j]) { assert !p(xs[..n][j]); }
        }
      }
    }
  }

  lemma FirstIsUnique(requirements: seq<Requirement>, capability: Capability, i: nat, k: nat)
    requires IsFirst(requirements, capability, i) && IsFirst(requirements, capability, k)
    ensures i == k
  {
  }

  /** The requirement that the code looks at is the first of its kind. */
  lemma FirstDecides(requirements: seq<Requirement>, capability: Capability)
    ensures var status := CapabilityStatus(requirements, capability);
      || (status == NotRequired && forall i: nat :: !IsFirst(requirements, capability, i))
      || exists i: nat :: IsFirst(requirements, capability, i) && status == RequirementStatus(requirements[i])
  {
    forall k | 0 <= k < |requirements|
      ensures IsCapability(requirements[k], capability) <==> Concerns(requirements[k], capability)
    {
      ConcernsIff(requirements[k], capability);
    }
    hide IsCapability, RequirementStatus, Concerns;
    var p := (r: Requirement) => IsCapability(r, capability);
    FirstMatch(p, requirements);
    if Filter(p, requirements) == [] {
      forall k | 0 <= k < |requirements| ensures !Concerns(requirements[k], capability) {
        assert !p(requirements[k]);
      }
      assert forall i: nat :: !IsFirst(requirements, capability, i);
    } else {
      var i :| 0 <= i < |requirements| && p(requirements[i]) && Filter(p, requirements)[0] == requirements[i]
               && forall j :: 0 <= j < i ==> !p(requirements[j]);
      assert CapabilityStatus(requirements, capability) == RequirementStatus(requirements[i]);
      assert IsFirst(requirements, capability, i) by {
        forall j | 0 <= j < i ensures !Concerns(requirements[j], capability) { assert !p(requirements[j]); }
      }
    }
  }

  lemma CapabilityIff(requirements: seq<Requirement>, capability: Capability)
    ensures CapabilityIssues(requirements, capability) == [] <==> CapabilityPasses(requirements, capability)
  {
    hide IsFirst, CapabilityStatus;
    FirstDecides(requirements, capability);
    forall i: nat, k: nat | IsFirst(requirements, capability, i) && IsFirst(requirements, capability, k)
      ensures i == k
    {
      FirstIsUnique(requirements, capability, i, k);
    }
  }

  lemma ReportTypeMember(row: Row, t: string)
    ensures t in ReportTypes(Some(row)) <==>
      t != "" && exists c :: c in row.certificates && NeedsReport(c) && ReportType(c) == t
  {
    hide ReportType;
    var needed := Filter(NeedsReport, row.certificates);
    var types := seq(|needed|, i requires 0 <= i < |needed| => ReportType(needed[i]));
    UniqueStringsMember(types, t);
    if t in types {
      var i :| 0 <= i < |types| && types[i] == t;
      FilterMember(NeedsReport, row.certificates, needed[i]);
    }
    forall c | c in row.certificates && NeedsReport(c) && ReportType(c) == t ensures t in types {
      FilterMember(NeedsReport, row.certificates, c);
      var i :| 0 <= i < |needed| && needed[i] == c;
      assert types[i] == t;
    }
  }

  lemma TypesDistinct(row: Row)
    ensures NoDuplicates(ReportTypes(Some(row)))
  {
    var needed := Filter(NeedsReport, row.certificates);
    var types := seq(|needed|, i requires 0 <= i < |needed| => ReportType(needed[i]));
    AddAllNoDuplicates([], Filter((s: string) => s != "", types));
  }

  lemma ReportIff(row: Row, draft: Draft)
    ensures ReportIssues(ReportTypes(Some(row)), draft) == [] <==> ReportReady(row.certificates, draft)
  {
    var types := ReportTypes(Some(row));
    TypesDistinct(row);
    hide ReportTypes, HasMaterial, MaterialThere, Asks;
    forall t ensures t in types <==> Needed(row, t) { NeededIff(row, t); }
    forall t | t in types ensures HasMaterial(t, draft) <==> MaterialThere(t, draft) {
      NeededIff(row, t);
      TypeText(row, t);
      MaterialIff(t, draft);
    }
    if |types| >= 1 { assert types[0] in types; }
    if |types| > 1 {
      assert types[1] in types && types[0] != types[1];
      var c :| c in row.certificates && (c.isRequired == 1 || c.reviewState == 3) && Asks(c, types[0]);
      var d :| d in row.certificates && (d.isRequired == 1 || d.reviewState == 3) && Asks(d, types[1]);
    } else if |types| == 1 {
      var c :| c in row.certificates && (c.isRequired == 1 || c.reviewState == 3) && Asks(c, types[0]);
      forall d, t | d in row.certificates && (d.isRequired == 1 || d.reviewState == 3) && Asks(d, t) ensures t == types[0] {
        assert Needed(row, t);
      }
    } else {
      forall d, t | d in row.certificates && (d.isRequired == 1 || d.reviewState == 3) ensures !Asks(d, t) {
        assert !Needed(row, t);
      }
    }
  }

  /** A certificate that is required or rejected asks for this report type. */
  ghost predicate Needed(row: Row, t: string) {
    exists c :: c in row.certificates && (c.isRequired == 1 || c.reviewState == 3) && Asks(c, t)
  }

  lemma NeededIff(row: Row, t: string)
    ensures t in ReportTypes(Some(row)) <==> Needed(row, t)
  {
    ReportTypeMember(row, t);
    hide ReportTypes, Asks;
    forall c ensures (t != "" ==> (ReportType(c) == t <==> Asks(c, t))) && (Asks(c, t) ==> t != "") { ReportTypeIff(c, t); }
  }

  lemma TypeText(row: Row, t: string)
    requires Needed(row, t)
    ensures t != "" && ' ' !in t && Trim(t) == t
  {
    assert Trim("1630") == "1630" && Trim("1631") == "1631";
  }

  lemma SkcIff(input: Input, skc: string)
    ensures SkcIssues(input, skc) == [] <==> SkcPasses(input, skc)
  {
    hide ReportIssues, ReportReady, CapabilityIssues, CapabilityPasses, RowOf, IsRowOf, ReportTypes;
    var name := Trim(skc);
    if name != "" {
      RowOfIsLast(input.rows, name);
      var row := RowOf(input.rows, name);
      if row.Some? {
        ReportIff(row.value, input.draft);
        CapabilityIff(RequirementsOf(row), Gcc);
        CapabilityIff(RequirementsOf(row), ProductIdentifier);
      }
    }
  }

  lemma {:induction false} SkcBlockersIff(input: Input, n: nat)
    requires n <= |input.skcs|
    ensures SkcBlockers(input, n) == [] <==> forall i :: 0 <= i < n ==> SkcPasses(input, input.skcs[i])
  {
    hide SkcPasses, SkcIssues;
    if n > 0 {
      SkcBlockersIff(input, n - 1);
      SkcIff(input, input.skcs[n - 1]);
    }
  }

  lemma {:induction false} UncoveredIff(expected: seq<string>, readback: seq<string>)
    ensures Uncovered(expected, readback) == [] <==> forall s :: s in expected ==> s in readback
  {
    if expected != [] {
      var n := |expected| - 1;
      UncoveredIff(expected[..n], readback);
      assert expected == expected[..n] + [expected[n]];
    }
  }

  lemma {:induction false} UnexpectedIff(expected: seq<string>, readback: seq<string>)
    ensures Unexpected(expected, readback) == [] <==> expected == [] || forall s :: s in readback ==> s in expected
  {
    if readback != [] {
      var n := |readback| - 1;
      UnexpectedIff(expected, readback[..n]);
      assert readback == readback[..n] + [readback[n]];
    }
  }

  lemma TrimmedMember(names: seq<string>, s: string)
    ensures s in Trimmed(names) <==> s in NameSet(names)
  {
    if s in Trimmed(names) {
      var i :| 0 <= i < |names| && Trimmed(names)[i] == s;
      assert names[i] in names;
    }
    if s in NameSet(names) {
      var t :| t in names && Trim(t) == s;
      var i :| 0 <= i < |names| && names[i] == t;
      assert Trimmed(names)[i] == s;
    }
  }

  lemma CoverageIff(input: Input)
    ensures Uncovered(Expected(input), Readback(input)) + Unexpected(Expected(input), Readback(input)) == [] <==>
            NameSet(input.expected) - {""} == {} || NameSet(input.expected) - {""} == NameSet(input.skcs)
  {
    hide NameSet, Trimmed;
    var expected, readback := Expected(input), Readback(input);
    UncoveredIff(expected, readback);
    UnexpectedIff(expected, readback);
    forall s ensures s in expected <==> s in NameSet(input.expected) - {""} {
      UniqueStringsMember(Trimmed(input.expected), s);
      TrimmedMember(input.expected, s);
    }
    forall s ensures s in readback <==> s in NameSet(input.skcs) {
      AddAllMember([], Trimmed(input.skcs), s);
      TrimmedMember(input.skcs, s);
    }
    if expected != [] { assert expected[0] in expected; }
  }

  /** Completion is eligible exactly when nothing blocks: the SKCs read back are the expected ones, if
      any were expected, and each of them passes. */
  lemma CompletionEligibleIff(input: Input)
    ensures Blockers(input) == [] <==> Eligible(input)
  {
    hide SkcPasses, Uncovered, Unexpected, Expected, Readback, NameSet;
    SkcBlockersIff(input, |input.skcs|);
    CoverageIff(input);
  }

  // ---------------------------------------------------------------- which blockers

  /** The issues of one SKC, each under its own condition: what its row says. */
  lemma RowIssuesExact(input: Input, skc: string)
    ensures var issues := SkcIssues(input, skc); var name := Trim(skc); var row := RowOf(input.rows, name);
      && (SkcInvalid in issues <==> name == "")
      && (RequirementsMissing in issues <==> row == None)
      && (RequirementsIncomplete in issues <==> row.Some? && !(row.value.requirementsReturned && row.value.photosReturned))
  {
    IssueMember(input, skc, SkcInvalid);
    IssueMember(input, skc, RequirementsMissing);
    IssueMember(input, skc, RequirementsIncomplete);
    hide SkcIssues, RowOf, ReportTypes, RequirementsOf, SnapshotOf, HasMaterial, CapabilityStatus, Trim, HasText;
  }

  /** What its snapshot says: stale, or else never fetched. */
  lemma SnapshotIssuesExact(input: Input, skc: string)
    ensures var issues := SkcIssues(input, skc); var name := Trim(skc);
      var s := if name in input.snapshotsBySkc then input.snapshotsBySkc[name] else input.snapshot;
      var stale := !s.isFresh || (s.expiresAt.Some? && s.expiresAt.value <= input.now);
      && (SnapshotStale in issues <==> stale)
      && (SnapshotMissing in issues <==> !stale && !HasText(s.fetchedAt))
  {
    IssueMember(input, skc, SnapshotStale);
    IssueMember(input, skc, SnapshotMissing);
    hide SkcIssues, RowOf, ReportTypes, RequirementsOf, HasMaterial, CapabilityStatus, Trim, HasText;
  }

  /** What its requirements say: more than one report type, or one without its material, and the two
      capabilities that have to pass. */
  lemma ReportIssuesExact(input: Input, skc: string)
    ensures var issues := SkcIssues(input, skc); var row := RowOf(input.rows, Trim(skc));
      && (ReportAmbiguous in issues <==> |ReportTypes(row)| > 1)
      && (MaterialMissing in issues <==> |ReportTypes(row)| == 1 && !HasMaterial(ReportTypes(row)[0], input.draft))
  {
    IssueMember(input, skc, ReportAmbiguous);
    IssueMember(input, skc, MaterialMissing);
    hide SkcIssues, RowOf, ReportTypes, RequirementsOf, SnapshotOf, HasMaterial, CapabilityStatus, Trim, HasText;
  }

  lemma CapabilityIssuesExact(input: Input, skc: string, kind: Capability)
    requires kind in [Gcc, ProductIdentifier]
    ensures CapabilityNotPassed(kind) in SkcIssues(input, skc) <==>
            !CapabilityPasses(RequirementsOf(RowOf(input.rows, Trim(skc))), kind)
  {
    var requirements := RequirementsOf(RowOf(input.rows, Trim(skc)));
    IssueMember(input, skc, CapabilityNotPassed(kind));
    CapabilityIff(requirements, Gcc);
    CapabilityIff(requirements, ProductIdentifier);
    hide SkcIssues, RowOf, ReportTypes, RequirementsOf, SnapshotOf, HasMaterial, CapabilityStatus, CapabilityPasses, Trim, HasText;
  }

  lemma IssueMember(input: Input, skc: string, x: Issue)
    ensures var name := Trim(skc); var row := RowOf(input.rows, name);
      x in SkcIssues(input, skc) <==>
      || (x == SkcInvalid && name == "") || x in RowIssues(row) || x in SnapshotIssues(SnapshotOf(input, name), input.now)
      || x in ReportIssues(ReportTypes(row), input.draft)
      || x in CapabilityIssues(RequirementsOf(row), Gcc) || x in CapabilityIssues(RequirementsOf(row), ProductIdentifier)
  {
    var name := Trim(skc);
    var row := RowOf(input.rows, name);
    hide RowIssues, SnapshotIssues, ReportIssues, CapabilityIssues, RowOf, Trim, SnapshotOf;
    var a := if name == "" then [SkcInvalid] else [];
    var b, c := RowIssues(row), SnapshotIssues(SnapshotOf(input, name), input.now);
    var d := ReportIssues(ReportTypes(row), input.draft);
    var e := CapabilityIssues(RequirementsOf(row), Gcc);
    var f := CapabilityIssues(RequirementsOf(row), ProductIdentifier);
    assert SkcIssues(input, skc) == a + b + c + d + e + f;
    hide SkcIssues;
    Among(a, b, c, d, e, f, x);
  }

  lemma Among(a: seq<Issue>, b: seq<Issue>, c: seq<Issue>, d: seq<Issue>, e: seq<Issue>, f: seq<Issue>, x: Issue)
    ensures x in a + b + c + d + e + f <==> x in a || x in b || x in c || x in d || x in e || x in f
  {
    assert x in a + b + c + d + e + f <==> x in a + b + c || x in d + e + f by {
      assert a + b + c + d + e + f == (a + b + c) + (d + e + f);
    }
  }

  /** Which blockers the whole readback has besides those of its SKCs. */
  lemma CoverageExact(input: Input, name: string)
    ensures var b := Uncovered(Expected(input), Readback(input)) + Unexpected(Expected(input), Readback(input));
      && (Blocker(CoverageIncomplete, name) in b <==>
            name != "" && name in NameSet(input.expected) && name !in NameSet(input.skcs))
      && (Blocker(SkcUnexpected, name) in b <==>
            NameSet(input.expected) - {""} != {} && name in NameSet(input.skcs) && !(name != "" && name in NameSet(input.expected)))
  {
    var expected, readback := Expected(input), Readback(input);
    UncoveredMember(expected, readback, name);
    UnexpectedMember(expected, readback, name);
    hide NameSet, Trimmed;
    forall s ensures s in expected <==> s in NameSet(input.expected) - {""} {
      UniqueStringsMember(Trimmed(input.expected), s);
      TrimmedMember(input.expected, s);
    }
    forall s ensures s in readback <==> s in NameSet(input.skcs) {
      AddAllMember([], Trimmed(input.skcs), s);
      TrimmedMember(input.skcs, s);
    }
    hide Expected, Readback, Uncovered, Unexpected;
    if expected != [] { assert expected[0] in expected; }
  }

  lemma {:induction false} UncoveredMember(expected: seq<string>, readback: seq<string>, name: string)
    ensures Blocker(CoverageIncomplete, name) in Uncovered(expected, readback) <==> name in expected && name !in readback
    ensures Blocker(SkcUnexpected, name) !in Uncovered(expected, readback)
  {
    if expected != [] {
      var n := |expected| - 1;
      UncoveredMember(expected[..n], readback, name);
      assert expected == expected[..n] + [expected[n]];
    }
  }

  lemma {:induction false} UnexpectedMember(expected: seq<string>, readback: seq<string>, name: string)
    ensures Blocker(SkcUnexpected, name) in Unexpected(expected, readback) <==>
            expected != [] && name in readback && name !in expected
    ensures Blocker(CoverageIncomplete, name) !in Unexpected(expected, readback)
  {
    if readback != [] {
      var n := |readback| - 1;
      UnexpectedMember(expected, readback[..n], name);
      assert readback == readback[..n] + [readback[n]];
    }
  }
}
