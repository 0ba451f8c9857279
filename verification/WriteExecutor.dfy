/** Compliance writes: plans are compiled to requests, and the requests are sent behind a gate. */
module WriteExecutor {
  import opened Options
  import opened JsStrings
  import opened Utf16
  import opened Json
  import opened JsonCanonical
  import opened PlanDocument
  import opened Preflight
  import R = ComplianceRows
  import W = WarningRules
  import A = WarningAgreement

  // ---------------------------------------------------------------- compilation

  datatype Body =
    | CertificateBind(poolSn: string, skcNames: seq<string>)
    | AgencyBind(skcs: seq<string>, agencyId: string, agencyType: Option<int>)
    | WarningUpdate(warning: W.Body)

  datatype Request = Request(skc: string, key: string, body: Body)

  datatype IssueCode =
    | CertificateCreateNotReady | PhotoUploadReceiptRequired | StoreScopeRecheckRequired | RequestInvalid
    | ActionUnsupported | WriteDisabled | ConfirmationRequired | PartialFailure | WriteFailed | ReadbackRequired

  datatype Issue = Issue(code: IssueCode, skc: string, key: string)

  /** A request, or the blocker that stands for the action. */
  datatype Compiled = Send(request: Request) | Refuse(issue: Issue)

  /** The request of one action; the builders' exceptions become blockers. */
  function CompileAction(skc: string, a: Action): Compiled {
    var skcs := W.SkcNames([skc]);
    match a.kind
    case BindCertificate(poolSn) =>
      if skcs == [] || !HasText(poolSn) then Refuse(Issue(RequestInvalid, skc, a.key))
      else Send(Request(skc, a.key, CertificateBind(JsStrings.Trim(poolSn), skcs)))
    case BindAgency(agencyId, agencyType) =>
      if skcs == [] || agencyId == "" || agencyType.NotAType? then Refuse(Issue(RequestInvalid, skc, a.key))
      else
        var code := if agencyType.TypeIs? then Some(agencyType.code) else None;
        Send(Request(skc, a.key, AgencyBind(skcs, agencyId, code)))
    case UpdateWarning(selected, rules) =>
      (match W.Build(a.typeCode, [skc], rules, selected)
       case Ok(body) => Send(Request(skc, a.key, WarningUpdate(body)))
       case Err(_) => Refuse(Issue(RequestInvalid, skc, a.key)))
    case CreateCertificate => Refuse(Issue(CertificateCreateNotReady, skc, a.key))
    case UploadPhoto(_, _) => Refuse(Issue(PhotoUploadReceiptRequired, skc, a.key))
    case RecheckCertificate => Refuse(Issue(StoreScopeRecheckRequired, skc, a.key))
    case RecheckAgency(_, _) => Refuse(Issue(StoreScopeRecheckRequired, skc, a.key))
    case OtherAction => Refuse(Issue(ActionUnsupported, skc, a.key))
    case UnreadableAction => Refuse(Issue(RequestInvalid, skc, a.key))
  }

  /** All actions of the ready plans, each with its SKC, in order. */
  function Jobs(plans: seq<Plan>): seq<(string, Action)> {
    if plans == [] then []
    else
      var p := plans[|plans| - 1];
      Jobs(plans[..|plans| - 1]) + JobsOf(p)
  }

  function JobsOf(p: Plan): seq<(string, Action)> {
    if p.status != Ready then [] else seq(|p.actions|, i requires 0 <= i < |p.actions| => (p.skc, p.actions[i]))
  }

  function RequestsOf(jobs: seq<(string, Action)>): seq<Request> {
    if jobs == [] then []
    else
      var c := CompileAction(jobs[|jobs| - 1].0, jobs[|jobs| - 1].1);
      RequestsOf(jobs[..|jobs| - 1]) + if c.Send? then [c.request] else []
  }

  function IssuesOf(jobs: seq<(string, Action)>): seq<Issue> {
    if jobs == [] then []
    else
      var c := CompileAction(jobs[|jobs| - 1].0, jobs[|jobs| - 1].1);
      IssuesOf(jobs[..|jobs| - 1]) + if c.Refuse? then [c.issue] else []
  }

  datatype WritePlan = WritePlan(executable: bool, requests: seq<Request>, issues: seq<Issue>)

  function Compile(plans: seq<Plan>): WritePlan {
    var (requests, issues) := (RequestsOf(Jobs(plans)), IssuesOf(Jobs(plans)));
    WritePlan(issues == [] && requests != [], requests, issues)
  }

  lemma {:induction false} RequestsConcat(a: seq<(string, Action)>, b: seq<(string, Action)>)
    ensures RequestsOf(a + b) == RequestsOf(a) + RequestsOf(b)
  {
    hide CompileAction;
    if b == [] {
      assert a + b == a;
    } else {
      var n := |b| - 1;
      RequestsConcat(a, b[..n]);
      assert (a + b)[..|a + b| - 1] == a + b[..n];
    }
  }

  lemma {:induction false} IssuesConcat(a: seq<(string, Action)>, b: seq<(string, Action)>)
    ensures IssuesOf(a + b) == IssuesOf(a) + IssuesOf(b)
  {
    hide CompileAction;
    if b == [] {
      assert a + b == a;
    } else {
      var n := |b| - 1;
      IssuesConcat(a, b[..n]);
      assert (a + b)[..|a + b| - 1] == a + b[..n];
    }
  }

  /** The inner loop, over the actions of one plan. */
  method CompilePlan(p: Plan) returns (requests: seq<Request>, issues: seq<Issue>)
    requires p.status == Ready
    ensures requests == RequestsOf(JobsOf(p)) && issues == IssuesOf(JobsOf(p))
  {
    hide CompileAction;
    requests, issues := [], [];
    ghost var jobs := JobsOf(p);
    for j := 0 to |p.actions|
      invariant requests == RequestsOf(jobs[..j]) && issues == IssuesOf(jobs[..j])
    {
      assert jobs[..j + 1][..j] == jobs[..j];
      match CompileAction(p.skc, p.actions[j]) {
        case Send(request) => requests := requests + [request];
        case Refuse(issue) => issues := issues + [issue];
      }
    }
    assert jobs[..|p.actions|] == jobs;
  }

  lemma JobsStep(plans: seq<Plan>, i: nat)
    requires i < |plans|
    ensures Jobs(plans[..i + 1]) == Jobs(plans[..i]) + JobsOf(plans[i])
    ensures plans[i].status != Ready ==> Jobs(plans[..i + 1]) == Jobs(plans[..i])
  {
    assert plans[..i + 1][..i] == plans[..i];
  }

  /** `compileComplianceWriteRequests` */
  method CompileComplianceWriteRequests(plans: seq<Plan>) returns (w: WritePlan)
    ensures w == Compile(plans)
  {
    var requests: seq<Request>, issues: seq<Issue> := [], [];
    assert Jobs(plans[..0]) == [] && RequestsOf([]) == [] && IssuesOf([]) == [];
    hide RequestsOf, IssuesOf, Jobs, JobsOf;
    for i := 0 to |plans|
      invariant requests == RequestsOf(Jobs(plans[..i])) && issues == IssuesOf(Jobs(plans[..i]))
    {
      JobsStep(plans, i);
      if plans[i].status == Ready {
        var moreRequests, moreIssues := CompilePlan(plans[i]);
        RequestsConcat(Jobs(plans[..i]), JobsOf(plans[i]));
        IssuesConcat(Jobs(plans[..i]), JobsOf(plans[i]));
        requests, issues := requests + moreRequests, issues + moreIssues;
      }
    }
    assert plans[..|plans|] == plans;
    return WritePlan(issues == [] && requests != [], requests, issues);
  }

  /** Every action of a ready plan becomes a request or a blocker, never both and never neither. */
  lemma {:induction false} CompilationConserves(jobs: seq<(string, Action)>)
    ensures |RequestsOf(jobs)| + |IssuesOf(jobs)| == |jobs|
  {
    if jobs != [] { CompilationConserves(jobs[..|jobs| - 1]); }
  }

  lemma {:induction false} NoIssueMeansAll(jobs: seq<(string, Action)>)
    requires IssuesOf(jobs) == []
    ensures |RequestsOf(jobs)| == |jobs|
    ensures forall i :: 0 <= i < |jobs| ==> CompileAction(jobs[i].0, jobs[i].1) == Send(RequestsOf(jobs)[i])
  {
    hide CompileAction;
    if jobs != [] { NoIssueMeansAll(jobs[..|jobs| - 1]); }
  }

  /** The SKC names a request writes to. */
  function Targets(r: Request): seq<string> {
    match r.body
    case CertificateBind(_, skcNames) => skcNames
    case AgencyBind(skcs, _, _) => skcs
    case WarningUpdate(body) => body.skcNames
  }

  lemma SingleSkc(skc: string)
    ensures W.SkcNames([skc]) == if HasText(skc) then [JsStrings.Trim(skc)] else []
  {
    var names := seq(1, i requires 0 <= i < 1 => JsStrings.Trim([skc][i]));
    assert names == [JsStrings.Trim(skc)];
    var p := (s: string) => s != "";
    assert names[..0] == [];
    assert Filter(p, names[..0]) == [];
    assert Filter(p, names) == if HasText(skc) then names else [];
    if HasText(skc) { UniqueIsIdentity(names); }
  }

  /** A request carries the key of its action and writes to its own SKC only. */
  lemma RequestFits(skc: string, a: Action)
    ensures var c := CompileAction(skc, a);
            c.Send? ==> c.request.skc == skc && c.request.key == a.key && Targets(c.request) == [JsStrings.Trim(skc)]
  {
    hide W.SkcNames, W.Build, HasText;
    SingleSkc(skc);
    if a.kind.UpdateWarning? { A.BuiltFor(a.typeCode, [skc], a.kind.rules, a.kind.selected); }
  }

  /** An executable write plan has one request for every action of every ready plan, in order,
      each for its own SKC. */
  lemma ExecutableIsComplete(plans: seq<Plan>)
    ensures var jobs := Jobs(plans); var requests := Compile(plans).requests;
      Compile(plans).executable ==>
      && |requests| == |jobs| > 0
      && forall i :: 0 <= i < |jobs| ==>
           requests[i].skc == jobs[i].0 && requests[i].key == jobs[i].1.key
           && Targets(requests[i]) == [JsStrings.Trim(jobs[i].0)]
  {
    hide CompileAction, Targets;
    if !Compile(plans).executable { return; }
    var jobs := Jobs(plans);
    NoIssueMeansAll(jobs);
    forall i | 0 <= i < |jobs|
      ensures var r := RequestsOf(jobs)[i];
              r.skc == jobs[i].0 && r.key == jobs[i].1.key && Targets(r) == [JsStrings.Trim(jobs[i].0)]
    {
      RequestFits(jobs[i].0, jobs[i].1);
    }
  }

  /** The warning action of a plan carries a valid, closed selection. */
  lemma PlannedWarning(r: R.Requirement, warnings: seq<WarningAssignment>) returns (w: WarningAssignment)
    requires WarningOutcome(r, warnings).Do?
    ensures var v := W.Validate(r.typeCode, w.rules, w.selection);
            v.Valid() && WarningOutcome(r, warnings).action
                           == Action(UpdateWarning(v.selected, w.rules), RequirementKey(r), r.typeCode)
  {
    hide W.Validate;
    var key := RequirementKey(r);
    w := Find((a: WarningAssignment) => KeyOf(a.typeCode, a.typeId) == key, warnings).items[0];
    var v := W.Validate(r.typeCode, w.rules, w.selection);
    assert |WarningCodes(v)| == |v.blockers|;
  }

  /** A warning action planned by the preflight compiles exactly when the texts it copies are
      not blank and no selected id is empty. */
  lemma PlannedWarningCompiles(r: R.Requirement, skc: string, warnings: seq<WarningAssignment>)
    requires var o := WarningOutcome(r, warnings);
             o.Do? && o.action.kind.UpdateWarning? && A.DistinctCodes(W.ActiveFields(o.action.kind.rules))
    ensures var a := WarningOutcome(r, warnings).action;
            var fields := W.ActiveFields(a.kind.rules);
            CompileAction(skc, a).Send? <==>
              && HasText(r.typeCode) && HasText(skc)
              && forall i :: 0 <= i < |fields| ==>
                   HasText(fields[i].code) && "" !in W.Chosen(a.kind.selected, fields[i].code)
  {
    hide W.Validate, W.Build, W.ActiveFields, W.SkcNames, W.Chosen, A.DistinctCodes, WarningOutcome, HasText;
    var w := PlannedWarning(r, warnings);
    SingleSkc(skc);
    A.ValidationAndCompilationAgree(r.typeCode, w.rules, w.selection, r.typeCode, [skc]);
  }

  // ---------------------------------------------------------------- the confirmation token

  /** The token of a plan document; the digest is taken to be injective, so it is its text. */
  function Token(secret: Text, document: Json): Text {
    secret + [COLON] + StableJson(document)
  }

  /** A token confirms exactly the documents that are equal up to key order. */
  lemma TokenConfirmsOnePlan(secret: Text, confirmed: Json, executed: Json)
    requires WellFormed(confirmed) && WellFormed(executed)
    ensures Token(secret, confirmed) == Token(secret, executed) <==> Same(confirmed, executed)
  {
    StableJsonCanonical(confirmed, executed);
    var prefix := secret + [COLON];
    assert Token(secret, confirmed)[|prefix|..] == StableJson(confirmed);
    assert Token(secret, executed)[|prefix|..] == StableJson(executed);
  }

  lemma SameTail(a: Text, b: Text, tail: Text)
    ensures a + tail == b + tail <==> a == b
  {
    if a + tail == b + tail {
      assert |a| == |b|;
      assert a == (a + tail)[..|a|] == (b + tail)[..|b|] == b;
    }
  }

  lemma TokenParts(secret: Text, document: Json)
    ensures Token(secret, document) == secret + ([COLON] + StableJson(document))
  {
    hide StableJson;
  }

  /** A token made with one secret does not fit under another. */
  lemma TokenNeedsSecret(secret: Text, other: Text, document: Json)
    ensures Token(secret, document) == Token(other, document) <==> secret == other
  {
    hide StableJson, Token;
    TokenParts(secret, document);
    TokenParts(other, document);
    SameTail(secret, other, [COLON] + StableJson(document));
  }

  // ---------------------------------------------------------------- execution

  /** The platform's answer to a write. */
  datatype Reply = Threw | Replied(failedList: bool)

  datatype Verifier = NoVerifier | Verifies | VerifierThrows

  datatype Mode = DryRun | Blocked | FailedWrite | Executed | Raised

  datatype Result = Result(mode: Mode, executed: bool, results: seq<Request>, issues: seq<Issue>)

  predicate Succeeds(r: Request, reply: Reply) {
    reply.Replied? && !(r.body.WarningUpdate? && reply.failedList)
  }

  /** How many requests succeed before the first failure. */
  function Successes(requests: seq<Request>, replies: nat -> Reply, from: nat): (n: nat)
    requires from <= |requests|
    ensures from <= n <= |requests|
    ensures forall i :: from <= i < n ==> Succeeds(requests[i], replies(i))
    ensures n < |requests| ==> !Succeeds(requests[n], replies(n))
    decreases |requests| - from
  {
    if from == |requests| || !Succeeds(requests[from], replies(from)) then from
    else Successes(requests, replies, from + 1)
  }

  /** The sending stops at the first write that throws, or that is a warning update with failed SKCs. */
  lemma FirstFailure(requests: seq<Request>, replies: nat -> Reply)
    ensures var n := Successes(requests, replies, 0);
      && (forall i :: 0 <= i < n ==>
            replies(i).Replied? && !(requests[i].body.WarningUpdate? && replies(i).failedList))
      && (n < |requests| ==> replies(n).Threw? || (requests[n].body.WarningUpdate? && replies(n).failedList))
  {
  }

  class Executor {
    var sent: seq<Request>
    const enabled: bool
    const secret: Text

    constructor (enabled: bool, secret: Text)
      ensures sent == [] && this.enabled == enabled && this.secret == secret
    {
      sent := [];
      this.enabled, this.secret := enabled, secret;
    }

    /** Everything that must hold before a write may leave. */
    predicate GateOpen(document: Json, execute: bool, token: Text) {
      execute && enabled && !Throws(document) && Compile(ReadPlans(document)).executable && secret != [] && token == Token(secret, document)
    }

    /** The sending loop: it stops behind the first write that fails. */
    method SendAll(requests: seq<Request>, replies: nat -> Reply) returns (results: seq<Request>)
      modifies this
      ensures var n := Successes(requests, replies, 0);
              results == requests[..n] && sent == old(sent) + requests[..if n < |requests| then n + 1 else n]
    {
      hide Succeeds;
      results := [];
      for i := 0 to |requests|
        invariant results == requests[..i] && sent == old(sent) + requests[..i]
        invariant Successes(requests, replies, 0) == Successes(requests, replies, i)
      {
        sent := sent + [requests[i]];
        if !Succeeds(requests[i], replies(i)) {
          return;
        }
        results := results + [requests[i]];
      }
    }

    /** `execute`: `document` is the plan list, `replies` answers the i-th write. */
    method Execute(document: Json, execute: bool, token: Text, replies: nat -> Reply, verifier: Verifier)
      returns (r: Result)
      modifies this
      ensures !GateOpen(document, execute, token) ==> sent == old(sent) && !r.executed && r.results == []
      ensures GateOpen(document, execute, token) ==>
        var requests := Compile(ReadPlans(document)).requests;
        var n := Successes(requests, replies, 0);
        && r.results == requests[..n]
        && sent == old(sent) + requests[..if n < |requests| then n + 1 else n]
        && r.mode == (if n < |requests| then FailedWrite
                      else match verifier
                           case NoVerifier => Blocked
                           case Verifies => Executed
                           case VerifierThrows => Raised)
      ensures r.executed <==> r.mode == Executed
      ensures r.executed ==>
        && GateOpen(document, execute, token) && verifier == Verifies
        && r.results == Compile(ReadPlans(document)).requests && sent == old(sent) + Compile(ReadPlans(document)).requests
      ensures r.mode == DryRun <==> !execute && !Throws(document)
      ensures Throws(document) ==> r.mode == Raised
      ensures !Throws(document) ==>
        var w := Compile(ReadPlans(document));
        if !execute then r.issues == w.issues
        else if !enabled then r.mode == Blocked && r.issues == w.issues + [Issue(WriteDisabled, "", "")]
        else if !w.executable then r.mode == Blocked && r.issues == w.issues
        else if secret == [] then r.mode == Raised
        else if token != Token(secret, document) then
          r.mode == Blocked && r.issues == w.issues + [Issue(ConfirmationRequired, "", "")]
        else if |r.results| < |w.requests| then
          r.issues == w.issues + [Issue(if replies(|r.results|).Threw? then WriteFailed else PartialFailure, "", "")]
        else verifier == NoVerifier ==> r.issues == w.issues + [Issue(ReadbackRequired, "", "")]
    {
      hide Compile, Token, Successes, Throws;
      if Throws(document) {
        return Result(Raised, false, [], []);
      }
      var w := CompileComplianceWriteRequests(ReadPlans(document));
      if !execute {
        return Result(DryRun, false, [], w.issues);
      }
      if !enabled {
        return Result(Blocked, false, [], w.issues + [Issue(WriteDisabled, "", "")]);
      }
      if !w.executable {
        return Result(Blocked, false, [], w.issues);
      }
      if secret == [] {
        return Result(Raised, false, [], w.issues);
      }
      if token != Token(secret, document) {
        return Result(Blocked, false, [], w.issues + [Issue(ConfirmationRequired, "", "")]);
      }
      var results := SendAll(w.requests, replies);
      if |results| < |w.requests| {
        var code := if replies(|results|).Threw? then WriteFailed else PartialFailure;
        return Result(FailedWrite, false, results, w.issues + [Issue(code, "", "")]);
      }
      match verifier {
        case NoVerifier => return Result(Blocked, false, results, w.issues + [Issue(ReadbackRequired, "", "")]);
        case VerifierThrows => return Result(Raised, false, results, w.issues);
        case Verifies => return Result(Executed, true, results, w.issues);
      }
    }
  }

  /** The writes that a token lets out are the writes of the document it was made for, whatever the
      order of keys in the document executed. */
  lemma ConfirmedWritesAreSent(e: Executor, confirmed: Json, executed: Json, token: Text)
    requires WellFormed(confirmed) && WellFormed(executed)
    ensures token == Token(e.secret, confirmed) && e.GateOpen(executed, true, token) ==>
      && Same(confirmed, executed)
      && Compile(ReadPlans(executed)) == Compile(ReadPlans(confirmed)) && Compile(ReadPlans(confirmed)).executable
  {
    hide Compile, Token, ReadPlans, Throws;
    if token == Token(e.secret, confirmed) && e.GateOpen(executed, true, token) {
      TokenConfirmsOnePlan(e.secret, confirmed, executed);
      SameDocumentsSamePlans(confirmed, executed);
    }
  }
}
