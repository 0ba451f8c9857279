/** From the preflight to the wire: what exactly is sent for a requirement that a plan acts upon. */
module PlannedRequests {
  import opened Options
  import opened JsStrings
  import opened ComplianceRows
  import opened Preflight
  import opened PreflightChoices
  import opened AssignmentChecks
  import opened Json
  import opened JsonCanonical
  import opened PlanDocument
  import opened PlanReading
  import opened WriteExecutor
  import W = WarningRules
  import A = WarningAgreement
  import V = WarningValidity

  // ---------------------------------------------------------------- one action

  /** What each kind of action becomes, and when: only bindings and warning updates are ever sent. */
  lemma CompiledExact(skc: string, a: Action)
    ensures var c := CompileAction(skc, a); var to := [JsStrings.Trim(skc)];
      match a.kind
      case BindCertificate(poolSn) =>
        && (c.Send? <==> HasText(skc) && HasText(poolSn))
        && (c.Send? ==> c.request == Request(skc, a.key, CertificateBind(JsStrings.Trim(poolSn), to)))
        && (c.Refuse? ==> c.issue == Issue(RequestInvalid, skc, a.key))
      case BindAgency(agencyId, agencyType) =>
        && (c.Send? <==> HasText(skc) && agencyId != "" && !agencyType.NotAType?)
        && (c.Send? ==>
              && c.request.skc == skc && c.request.key == a.key && c.request.body.AgencyBind?
              && c.request.body.skcs == to && c.request.body.agencyId == agencyId
              && (agencyType == NoType ==> c.request.body.agencyType == None)
              && (forall code :: agencyType == TypeIs(code) ==> c.request.body.agencyType == Some(code)))
        && (c.Refuse? ==> c.issue == Issue(RequestInvalid, skc, a.key))
      case UpdateWarning(selected, rules) =>
        var built := W.Build(a.typeCode, [skc], rules, selected);
        && (c.Send? <==> built.Ok?)
        && (c.Send? ==> c.request == Request(skc, a.key, WarningUpdate(built.body)) && built.body.skcNames == to)
        && (c.Refuse? ==> c.issue == Issue(RequestInvalid, skc, a.key))
      case CreateCertificate => c == Refuse(Issue(CertificateCreateNotReady, skc, a.key))
      case UploadPhoto(_, _) => c == Refuse(Issue(PhotoUploadReceiptRequired, skc, a.key))
      case RecheckCertificate => c == Refuse(Issue(StoreScopeRecheckRequired, skc, a.key))
      case RecheckAgency(_, _) => c == Refuse(Issue(StoreScopeRecheckRequired, skc, a.key))
      case OtherAction => c == Refuse(Issue(ActionUnsupported, skc, a.key))
      case UnreadableAction => c == Refuse(Issue(RequestInvalid, skc, a.key))
  {
    hide W.SkcNames, W.Build, HasText;
    SingleSkc(skc);
    if a.kind.UpdateWarning? { A.BuiltFor(a.typeCode, [skc], a.kind.rules, a.kind.selected); }
  }

  // ---------------------------------------------------------------- one requirement

  /** The request binds the pool number of the assignment that counts, to this SKC. */
  ghost predicate BindsCertificate(body: Body, key: string, r: Requirement, skc: string, inputs: Inputs) {
    exists a ::
      && CertificateChosen(key, inputs.certificates, a) && CertificateReady(r, skc, a) && a.dimension != 2
      && HasText(a.poolSn) && body == CertificateBind(JsStrings.Trim(a.poolSn), [JsStrings.Trim(skc)])
  }

  /** The request binds the agency of the assignment that counts, with its type. */
  ghost predicate BindsAgency(body: Body, key: string, r: Requirement, skc: string, inputs: Inputs) {
    exists a ::
      && AgencyChosen(key, inputs.agencies, a) && AgencyAccepted(r, a) && a.coveredRange != 1
      && body == AgencyBind([JsStrings.Trim(skc)], a.agencyId, Some(a.agencyType))
  }

  /** The request sends the validated selection of the assignment that counts. */
  ghost predicate UpdatesWarning(body: Body, key: string, r: Requirement, skc: string, inputs: Inputs) {
    exists a ::
      && WarningChosen(key, inputs.warnings, a) && V.ValidAssignment(r.typeCode, a.rules, a.selection)
      && body.WarningUpdate? && body.warning.skcNames == [JsStrings.Trim(skc)]
      && SendsSelection(body.warning, r, a)
  }

  ghost predicate SendsSelection(body: W.Body, r: Requirement, a: WarningAssignment) {
    var fields := W.ActiveFields(a.rules);
    var selected := W.Validate(r.typeCode, a.rules, a.selection).selected;
    && body.certificateTypeCode == JsStrings.Trim(r.typeCode)
    && (A.DistinctCodes(fields) ==>
          && |body.fieldList| == |fields|
          && forall i :: 0 <= i < |fields| ==>
               body.fieldList[i] == (JsStrings.Trim(fields[i].code), Unique(W.Chosen(selected, fields[i].code))))
  }

  /** The request is the one for this requirement. */
  ghost predicate Fits(q: Request, r: Requirement, skc: string, inputs: Inputs) {
    && q.skc == skc && Names(r.typeCode, r.typeId, q.key)
    && if r.group == "ZSZZL" then BindsCertificate(q.body, q.key, r, skc, inputs)
       else if r.group == "GSL" then BindsAgency(q.body, q.key, r, skc, inputs)
       else UpdatesWarning(q.body, q.key, r, skc, inputs)
  }

  lemma ActingIsUnresolved(r: Requirement, skc: string, inputs: Inputs)
    requires RequirementOutcome(r, skc, inputs).Do?
    ensures Unresolved(r) && r.isRequired != 10
    ensures r.group == "ZSZZL" || r.group == "GSL" || (r.group == "HGXXL" && r.isManualWarning)
  {
  }

  lemma CertificateFits(r: Requirement, skc: string, inputs: Inputs)
    requires r.group == "ZSZZL" && RequirementOutcome(r, skc, inputs).Do?
    ensures var c := CompileAction(skc, RequirementOutcome(r, skc, inputs).action);
      c.Send? ==> Fits(c.request, r, skc, inputs)
  {
    var o := RequirementOutcome(r, skc, inputs);
    hide RequirementOutcome, CompileAction, CertificateChosen, CertificateReady, HasText, Unresolved;
    ActingIsUnresolved(r, skc, inputs);
    CertificateActsIff(r, skc, inputs);
    CompiledExact(skc, o.action);
    var key, a :| Names(r.typeCode, r.typeId, key) && CertificateChosen(key, inputs.certificates, a) && CertificateReady(r, skc, a);
    assert key == o.action.key;
    assert CertificateAction(o.action.kind, a);
  }

  lemma AgencyFits(r: Requirement, skc: string, inputs: Inputs)
    requires r.group == "GSL" && RequirementOutcome(r, skc, inputs).Do?
    ensures var c := CompileAction(skc, RequirementOutcome(r, skc, inputs).action);
      c.Send? ==> Fits(c.request, r, skc, inputs)
  {
    var o := RequirementOutcome(r, skc, inputs);
    hide RequirementOutcome, CompileAction, AgencyChosen, AgencyAccepted, HasText, Unresolved;
    ActingIsUnresolved(r, skc, inputs);
    AgencyActsIff(r, skc, inputs);
    CompiledExact(skc, o.action);
    var key, a :| Names(r.typeCode, r.typeId, key) && AgencyChosen(key, inputs.agencies, a) && AgencyAccepted(r, a);
    assert key == o.action.key;
    assert AgencyAction(o.action.kind, a);
  }

  lemma WarningFits(r: Requirement, skc: string, inputs: Inputs)
    requires r.group == "HGXXL" && r.isManualWarning && RequirementOutcome(r, skc, inputs).Do?
    ensures var c := CompileAction(skc, RequirementOutcome(r, skc, inputs).action);
      c.Send? ==> Fits(c.request, r, skc, inputs)
  {
    var o := RequirementOutcome(r, skc, inputs);
    ActingIsUnresolved(r, skc, inputs);
    WarningActsIff(r, skc, inputs);
    CompiledExact(skc, o.action);
    hide RequirementOutcome, CompileAction, WarningChosen, V.ValidAssignment, HasText, W.Build, W.Validate, SendsSelection;
    var key, a :| && Names(r.typeCode, r.typeId, key) && WarningChosen(key, inputs.warnings, a)
                  && V.ValidAssignment(r.typeCode, a.rules, a.selection);
    assert key == o.action.key;
    var selected := W.Validate(r.typeCode, a.rules, a.selection).selected;
    assert o.action.kind == UpdateWarning(selected, a.rules);
    BuiltSends(r, skc, a);
  }

  lemma BuiltSends(r: Requirement, skc: string, a: WarningAssignment)
    requires V.ValidAssignment(r.typeCode, a.rules, a.selection)
    ensures var built := W.Build(r.typeCode, [skc], a.rules, W.Validate(r.typeCode, a.rules, a.selection).selected);
      built.Ok? ==> SendsSelection(built.body, r, a)
  {
    V.ValidIff(r.typeCode, a.rules, a.selection);
    A.BuiltFor(r.typeCode, [skc], a.rules, W.Validate(r.typeCode, a.rules, a.selection).selected);
    hide V.ValidAssignment, W.Build, W.Validate, W.ActiveFields, W.Chosen, A.DistinctCodes, Unique;
    if A.DistinctCodes(W.ActiveFields(a.rules)) {
      A.ValidationAndCompilationAgree(r.typeCode, a.rules, a.selection, r.typeCode, [skc]);
    }
  }

  lemma ActionFits(r: Requirement, skc: string, inputs: Inputs)
    requires RequirementOutcome(r, skc, inputs).Do?
    ensures var c := CompileAction(skc, RequirementOutcome(r, skc, inputs).action);
      c.Send? ==> Fits(c.request, r, skc, inputs)
  {
    ActingIsUnresolved(r, skc, inputs);
    hide RequirementOutcome, CompileAction, Fits;
    if r.group == "ZSZZL" {
      CertificateFits(r, skc, inputs);
    } else if r.group == "GSL" {
      AgencyFits(r, skc, inputs);
    } else {
      WarningFits(r, skc, inputs);
    }
  }

  // ---------------------------------------------------------------- one plan

  /** The actions of requirements that do not block, compiled: each to the request of its requirement. */
  lemma {:induction false} RequirementsFit(rs: seq<Requirement>, skc: string, inputs: Inputs)
    requires forall r :: r in rs ==> IsCertificate(r) || IsAgency(r) || IsWarning(r)
    requires BlockersOf(RequirementOutcomes(rs, skc, inputs)) == []
    ensures var actions := ActionsOf(RequirementOutcomes(rs, skc, inputs)); var todo := Filter(Unresolved, rs);
      && |actions| == |todo|
      && forall i :: 0 <= i < |todo| && CompileAction(skc, actions[i]).Send? ==>
           Fits(CompileAction(skc, actions[i]).request, todo[i], skc, inputs)
  {
    hide RequirementOutcome, CompileAction, Fits;
    if rs != [] {
      var n := |rs| - 1;
      var os := RequirementOutcomes(rs, skc, inputs);
      assert os[..n] == RequirementOutcomes(rs[..n], skc, inputs);
      assert rs[n] in rs && forall r :: r in rs[..n] ==> r in rs;
      RequirementsFit(rs[..n], skc, inputs);
      RequirementDecided(rs[n], skc, inputs);
      if os[n].Do? { ActionFits(rs[n], skc, inputs); }
    }
  }

  /** The requests of a ready plan of which every action compiles: one for each requirement to be dealt
      with, in order, and no photo is left to be dealt with. */
  lemma PlanFits(row: Row, inputs: Inputs, hasTemplate: bool, snapshot: Snapshot, now: int, maxAge: int)
    requires Grouped(row)
    requires var plan := MakePlan(row, inputs, hasTemplate, snapshot, now, maxAge);
      plan.status == Ready && IssuesOf(JobsOf(plan)) == []
    ensures var plan := MakePlan(row, inputs, hasTemplate, snapshot, now, maxAge);
            var requests := RequestsOf(JobsOf(plan)); var todo := Filter(Unresolved, Requirements(row));
      && Filter(PhotoUnresolved, Photos(row)) == []
      && |requests| == |todo| && forall i :: 0 <= i < |todo| ==> Fits(requests[i], todo[i], row.skc, inputs)
  {
    var plan := MakePlan(row, inputs, hasTemplate, snapshot, now, maxAge);
    StatusExact(row, inputs, hasTemplate, snapshot, now, maxAge);
    PlanParts(row, inputs, hasTemplate, snapshot, now, maxAge);
    var a := ActionsOf(RequirementOutcomes(Requirements(row), row.skc, inputs));
    var c := ActionsOf(PhotoOutcomes(Photos(row), inputs));
    RequirementsFit(Requirements(row), row.skc, inputs);
    PhotoActions(Photos(row), inputs);
    hide MakePlan, Grouped, CompileAction, Fits, Filter, ActionsOf, BlockersOf, HandlesPhoto, RequestsOf, IssuesOf;
    hide Requirements, Photos;
    var jobs := JobsOf(plan);
    NoIssueMeansAll(jobs);
    assert plan.actions == a + c && |jobs| == |a| + |c|;
    if c != [] {
      assert jobs[|a|].1 == c[0];
      assert HandlesPhoto(c[0], Filter(PhotoUnresolved, Photos(row))[0]);
      PhotoNotSent(c[0], Filter(PhotoUnresolved, Photos(row))[0], row.skc);
      assert false;
    }
    forall i | 0 <= i < |a| ensures jobs[i] == (row.skc, a[i]) && CompileAction(row.skc, a[i]) == Send(RequestsOf(jobs)[i]) {
      SkcOfPlan(row, inputs, hasTemplate, snapshot, now, maxAge);
      assert jobs[i] == (plan.skc, plan.actions[i]);
    }
  }

  lemma SkcOfPlan(row: Row, inputs: Inputs, hasTemplate: bool, snapshot: Snapshot, now: int, maxAge: int)
    ensures MakePlan(row, inputs, hasTemplate, snapshot, now, maxAge).skc == row.skc
  {
  }

  lemma PhotoNotSent(a: Action, p: Photo, skc: string)
    requires HandlesPhoto(a, p)
    ensures CompileAction(skc, a).Refuse?
  {
  }

  /** A plan without blockers: its actions are those of the requirements, then those of the photos. */
  lemma PlanParts(row: Row, inputs: Inputs, hasTemplate: bool, snapshot: Snapshot, now: int, maxAge: int)
    requires MakePlan(row, inputs, hasTemplate, snapshot, now, maxAge).blockers == []
    ensures var rs := RequirementOutcomes(Requirements(row), row.skc, inputs); var ps := PhotoOutcomes(Photos(row), inputs);
      && BlockersOf(rs) == [] && BlockersOf(ps) == []
      && MakePlan(row, inputs, hasTemplate, snapshot, now, maxAge).actions == ActionsOf(rs) + ActionsOf(ps)
  {
    OutcomeParts(row, inputs);
    hide Outcomes, RequirementOutcomes, PhotoOutcomes, UnsupportedOutcomes, ActionsOf, BlockersOf, Requirements, Photos;
    NoBlockers(row, inputs, hasTemplate, snapshot, now, maxAge);
    var a := BlockersOf(RequirementOutcomes(Requirements(row), row.skc, inputs));
    var b := BlockersOf(UnsupportedOutcomes(row.unsupported));
    var c := BlockersOf(PhotoOutcomes(Photos(row), inputs));
    assert |a + b + c| == |a| + |b| + |c|;
    UnsupportedActions(row.unsupported);
  }

  lemma NoBlockers(row: Row, inputs: Inputs, hasTemplate: bool, snapshot: Snapshot, now: int, maxAge: int)
    requires MakePlan(row, inputs, hasTemplate, snapshot, now, maxAge).blockers == []
    ensures BlockersOf(Outcomes(row, inputs)) == []
    ensures MakePlan(row, inputs, hasTemplate, snapshot, now, maxAge).actions == ActionsOf(Outcomes(row, inputs))
  {
    hide Outcomes, ActionsOf, BlockersOf, SourceBlockers, SnapshotBlockers;
  }

  lemma OutcomeParts(row: Row, inputs: Inputs)
    ensures var a := RequirementOutcomes(Requirements(row), row.skc, inputs);
            var b := UnsupportedOutcomes(row.unsupported); var c := PhotoOutcomes(Photos(row), inputs);
      && ActionsOf(Outcomes(row, inputs)) == ActionsOf(a) + ActionsOf(b) + ActionsOf(c)
      && BlockersOf(Outcomes(row, inputs)) == BlockersOf(a) + BlockersOf(b) + BlockersOf(c)
  {
    var a := RequirementOutcomes(Requirements(row), row.skc, inputs);
    var b := UnsupportedOutcomes(row.unsupported);
    var c := PhotoOutcomes(Photos(row), inputs);
    ActionsConcat(a + b, c);
    ActionsConcat(a, b);
    BlockersConcat(a + b, c);
    BlockersConcat(a, b);
    hide RequirementOutcomes, PhotoOutcomes, UnsupportedOutcomes, ActionsOf, BlockersOf, Requirements, Photos;
  }

  // ---------------------------------------------------------------- all plans

  /** A requirement to be dealt with, of a row whose plan is ready. */
  datatype Task = Task(requirement: Requirement, skc: string, inputs: Inputs)

  function TasksOf(row: Row, inputs: Inputs): seq<Task> {
    var todo := Filter(Unresolved, Requirements(row));
    seq(|todo|, i requires 0 <= i < |todo| => Task(todo[i], row.skc, inputs))
  }

  /** What is to be dealt with in all rows with a ready plan, in order. */
  function Tasks(rows: seq<(Row, Inputs)>, hasTemplate: bool, snapshot: Snapshot, now: int, maxAge: int): seq<Task> {
    if rows == [] then []
    else
      var (row, inputs) := rows[|rows| - 1];
      Tasks(rows[..|rows| - 1], hasTemplate, snapshot, now, maxAge)
      + if MakePlan(row, inputs, hasTemplate, snapshot, now, maxAge).status == Ready then TasksOf(row, inputs) else []
  }

  lemma {:induction false} TasksFit(rows: seq<(Row, Inputs)>, hasTemplate: bool, snapshot: Snapshot, now: int, maxAge: int)
    requires forall i :: 0 <= i < |rows| ==> Grouped(rows[i].0)
    requires IssuesOf(Jobs(MakePlans(rows, hasTemplate, snapshot, now, maxAge))) == []
    ensures var requests := RequestsOf(Jobs(MakePlans(rows, hasTemplate, snapshot, now, maxAge)));
            var tasks := Tasks(rows, hasTemplate, snapshot, now, maxAge);
      && |requests| == |tasks|
      && forall i :: 0 <= i < |tasks| ==> Fits(requests[i], tasks[i].requirement, tasks[i].skc, tasks[i].inputs)
  {
    hide MakePlan, Grouped, Fits, RequestsOf, IssuesOf, JobsOf;
    if rows == [] {
      NoJobs();
    } else {
      var n := |rows| - 1;
      var (row, inputs) := rows[n];
      var plans := MakePlans(rows, hasTemplate, snapshot, now, maxAge);
      assert plans[..n] == MakePlans(rows[..n], hasTemplate, snapshot, now, maxAge);
      JobsStep(plans, n);
      assert plans[..n + 1] == plans;
      RequestsConcat(Jobs(plans[..n]), JobsOf(plans[n]));
      IssuesConcat(Jobs(plans[..n]), JobsOf(plans[n]));
      if plans[n].status == Ready {
        TasksFit(rows[..n], hasTemplate, snapshot, now, maxAge);
        PlanFits(row, inputs, hasTemplate, snapshot, now, maxAge);
      } else {
        TasksFit(rows[..n], hasTemplate, snapshot, now, maxAge);
      }
    }
  }

  lemma NoJobs()
    ensures RequestsOf([]) == []
  {
  }

  /** The requests of an executable write plan are, one to one and in order, those of the requirements that
      the ready plans deal with: each carries what the assignment that counts says, to its own SKC. */
  lemma ExecutablePayload(rows: seq<(Row, Inputs)>, hasTemplate: bool, snapshot: Snapshot, now: int, maxAge: int)
    requires forall i :: 0 <= i < |rows| ==> Grouped(rows[i].0)
    ensures var w := Compile(MakePlans(rows, hasTemplate, snapshot, now, maxAge));
            var tasks := Tasks(rows, hasTemplate, snapshot, now, maxAge);
      w.executable ==>
        && |w.requests| == |tasks| > 0
        && forall i :: 0 <= i < |tasks| ==> Fits(w.requests[i], tasks[i].requirement, tasks[i].skc, tasks[i].inputs)
  {
    hide MakePlan, Grouped, Fits, RequestsOf, IssuesOf, Jobs, Tasks;
    if Compile(MakePlans(rows, hasTemplate, snapshot, now, maxAge)).executable {
      TasksFit(rows, hasTemplate, snapshot, now, maxAge);
    }
  }

  lemma {:induction false} OnlyActionsCount(plans: seq<Plan>, shown: seq<Plan>)
    requires |shown| == |plans| && forall i :: 0 <= i < |plans| ==> shown[i] == plans[i].(blockers := [], waiting := [])
    ensures Jobs(shown) == Jobs(plans)
  {
    if plans != [] {
      var n := |plans| - 1;
      OnlyActionsCount(plans[..n], shown[..n]);
      assert JobsOf(shown[n]) == JobsOf(plans[n]);
    }
  }

  /** A document that shows plans is compiled to the requests and the issues of these plans. */
  lemma ShownPlansCompile(document: Json, plans: seq<Plan>)
    requires WellFormed(document) && ShowsPlans(document, plans)
    ensures !Throws(document) && Compile(ReadPlans(document)) == Compile(plans)
  {
    DocumentRead(document, plans);
    hide ReadPlans, ShowsPlans, WellFormed, Throws, RequestsOf, IssuesOf;
    OnlyActionsCount(plans, ReadPlans(document));
  }
}
