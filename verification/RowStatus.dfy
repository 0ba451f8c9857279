/** The status shown for a compliance row, and how it relates to the plan of the preflight: both look
    at the same items, but not with the same eyes. */
module RowStatus {
  import opened ComplianceRows
  import opened Preflight

  datatype ListStatus = NotNeeded | ListFailed | ListMissing | ListReviewing | ListUnsynced | ListPassed

  datatype RowState = NeedsFix | NeedsMaterial | InReview | AwaitingSync | AllPassed

  /** `requirementStatus` */
  function RequirementStatus(items: seq<Requirement>): ListStatus {
    if items == [] then NotNeeded
    else if exists r :: r in items && r.reviewState == REJECTED then ListFailed
    else if exists r :: r in items && r.isRequired == 1 && r.reviewState == MISSING then ListMissing
    else if exists r :: r in items && r.reviewState == REVIEWING then ListReviewing
    else if exists r :: r in items && r.isRequired == UNKNOWN_REQUIRED then ListUnsynced
    else if exists r :: r in items && r.reviewState == PASSED then ListPassed
    else NotNeeded
  }

  /** `photoStatus` */
  function PhotoStatus(items: seq<Photo>): ListStatus {
    if items == [] then NotNeeded
    else if exists p :: p in items && p.isRequired == 1 && p.reviewStatus == REJECTED then ListFailed
    else if exists p :: p in items && p.isRequired == 1 && p.reviewStatus == MISSING then ListMissing
    else if exists p :: p in items && p.isRequired == UNKNOWN_REQUIRED then ListUnsynced
    else if exists p :: p in items && p.isRequired == 1 && p.reviewStatus in [REVIEWING, PASSED] then ListPassed
    else NotNeeded
  }

  /** `overallStatus` */
  function Overall(statuses: seq<ListStatus>): RowState {
    if ListFailed in statuses then NeedsFix
    else if ListMissing in statuses then NeedsMaterial
    else if ListReviewing in statuses then InReview
    else if ListUnsynced in statuses then AwaitingSync
    else AllPassed
  }

  function StateOf(row: Row): RowState {
    Overall([RequirementStatus(row.certificates), RequirementStatus(row.agencies), RequirementStatus(row.warnings),
             RequirementStatus(row.unsupported), PhotoStatus(row.packagePhotos), PhotoStatus(row.bodyPhotos)])
  }

  // ---------------------------------------------------------------- when a row counts as passed

  predicate Clear(r: Requirement) {
    && r.reviewState != REJECTED && r.reviewState != REVIEWING && r.isRequired != UNKNOWN_REQUIRED
    && !(r.isRequired == 1 && r.reviewState == MISSING)
  }

  predicate PhotoClear(p: Photo) {
    p.isRequired != UNKNOWN_REQUIRED && !(p.isRequired == 1 && p.reviewStatus in [MISSING, REJECTED])
  }

  ghost predicate AllClear(rs: seq<Requirement>) { forall r :: r in rs ==> Clear(r) }

  ghost predicate PhotosClear(ps: seq<Photo>) { forall p :: p in ps ==> PhotoClear(p) }

  predicate Fine(s: ListStatus) { s.NotNeeded? || s.ListPassed? }

  lemma RequirementStatusFine(items: seq<Requirement>)
    ensures Fine(RequirementStatus(items)) <==> AllClear(items)
  {
  }

  lemma PhotoStatusFine(items: seq<Photo>)
    ensures Fine(PhotoStatus(items)) <==> PhotosClear(items)
  {
  }

  /** A row counts as passed exactly when all of its items are clear; also when there are none. */
  lemma PassedIff(row: Row)
    ensures StateOf(row) == AllPassed <==>
      && AllClear(row.certificates) && AllClear(row.agencies) && AllClear(row.warnings) && AllClear(row.unsupported)
      && PhotosClear(row.packagePhotos) && PhotosClear(row.bodyPhotos)
  {
    hide RequirementStatus, PhotoStatus, AllClear, PhotosClear;
    RequirementStatusFine(row.certificates);
    RequirementStatusFine(row.agencies);
    RequirementStatusFine(row.warnings);
    RequirementStatusFine(row.unsupported);
    PhotoStatusFine(row.packagePhotos);
    PhotoStatusFine(row.bodyPhotos);
  }

  // ---------------------------------------------------------------- the other states

  ghost function Items(row: Row): set<Requirement> {
    set r | r in row.certificates + row.agencies + row.warnings + row.unsupported
  }

  ghost function Pictures(row: Row): set<Photo> { set p | p in row.packagePhotos + row.bodyPhotos }

  /** Something was rejected: any requirement, or a required photo. */
  ghost predicate Rejections(row: Row) {
    (exists r :: r in Items(row) && r.reviewState == 3)
    || exists p :: p in Pictures(row) && p.isRequired == 1 && p.reviewStatus == 3
  }

  /** Something required is missing. */
  ghost predicate Gaps(row: Row) {
    (exists r :: r in Items(row) && r.isRequired == 1 && r.reviewState == 0)
    || exists p :: p in Pictures(row) && p.isRequired == 1 && p.reviewStatus == 0
  }

  ghost predicate Reviews(row: Row) { exists r :: r in Items(row) && r.reviewState == 1 }

  ghost predicate Unknowns(row: Row) {
    (exists r :: r in Items(row) && r.isRequired == 10) || exists p :: p in Pictures(row) && p.isRequired == 10
  }

  lemma ListStatusExact(rs: seq<Requirement>)
    ensures var s := RequirementStatus(rs);
      && (s == ListFailed <==> exists r :: r in rs && r.reviewState == 3)
      && (s == ListMissing ==> exists r :: r in rs && r.isRequired == 1 && r.reviewState == 0)
      && ((exists r :: r in rs && r.isRequired == 1 && r.reviewState == 0) ==> s == ListFailed || s == ListMissing)
      && (s == ListReviewing ==> exists r :: r in rs && r.reviewState == 1)
      && ((exists r :: r in rs && r.reviewState == 1) ==> s == ListFailed || s == ListMissing || s == ListReviewing)
      && (s == ListUnsynced ==> exists r :: r in rs && r.isRequired == 10)
      && ((exists r :: r in rs && r.isRequired == 10) ==> !Fine(s))
  {
  }

  lemma PhotoListExact(ps: seq<Photo>)
    ensures var s := PhotoStatus(ps);
      && (s == ListFailed <==> exists p :: p in ps && p.isRequired == 1 && p.reviewStatus == 3)
      && (s == ListMissing ==> exists p :: p in ps && p.isRequired == 1 && p.reviewStatus == 0)
      && ((exists p :: p in ps && p.isRequired == 1 && p.reviewStatus == 0) ==> s == ListFailed || s == ListMissing)
      && s != ListReviewing
      && (s == ListUnsynced ==> exists p :: p in ps && p.isRequired == 10)
      && ((exists p :: p in ps && p.isRequired == 10) ==> !Fine(s))
  {
  }

  /** What the row shows: the gravest of what its items say. */
  lemma StateExact(row: Row)
    ensures var s := StateOf(row);
      && (s == NeedsFix <==> Rejections(row))
      && (s == NeedsMaterial <==> !Rejections(row) && Gaps(row))
      && (s == InReview <==> !Rejections(row) && !Gaps(row) && Reviews(row))
      && (s == AwaitingSync <==> !Rejections(row) && !Gaps(row) && !Reviews(row) && Unknowns(row))
      && (s == AllPassed <==> !Rejections(row) && !Gaps(row) && !Reviews(row) && !Unknowns(row))
  {
    ListStatusExact(row.certificates);
    ListStatusExact(row.agencies);
    ListStatusExact(row.warnings);
    ListStatusExact(row.unsupported);
    PhotoListExact(row.packagePhotos);
    PhotoListExact(row.bodyPhotos);
    hide RequirementStatus, PhotoStatus;
    forall r ensures r in Items(row) <==>
      r in row.certificates || r in row.agencies || r in row.warnings || r in row.unsupported {}
    forall p ensures p in Pictures(row) <==> p in row.packagePhotos || p in row.bodyPhotos {}
    hide Items, Pictures;
  }

  // ---------------------------------------------------------------- when a plan has nothing to do

  ghost predicate Idle(os: seq<Outcome>) { BlockersOf(os) == [] && ActionsOf(os) == [] && WaitingOf(os) == [] }

  ghost predicate AllNothing(os: seq<Outcome>) { forall o :: o in os ==> o.Nothing? }

  ghost predicate BlocksSpeak(os: seq<Outcome>) { forall o :: o in os && o.Block? ==> o.blockers != [] }

  lemma IdleSnoc(os: seq<Outcome>)
    requires os != [] && BlocksSpeak(os)
    ensures Idle(os) <==> Idle(os[..|os| - 1]) && os[|os| - 1].Nothing?
  {
    var n := |os| - 1;
    assert os[n] in os;
    assert |BlockersOf(os)| == |BlockersOf(os[..n])| + if os[n].Block? then |os[n].blockers| else 0;
    assert |ActionsOf(os)| == |ActionsOf(os[..n])| + if os[n].Do? then 1 else 0;
    assert |WaitingOf(os)| == |WaitingOf(os[..n])| + if os[n].Wait? then 1 else 0;
  }

  lemma {:induction false} NothingLeft(os: seq<Outcome>)
    requires BlocksSpeak(os)
    ensures Idle(os) <==> AllNothing(os)
  {
    if os != [] {
      var n := |os| - 1;
      assert os == os[..n] + [os[n]];
      NothingLeft(os[..n]);
      IdleSnoc(os);
    }
  }

  /** The preflight has nothing to do or to wait for about this requirement. */
  predicate Quiet(r: Requirement) {
    && r.isRequired != UNKNOWN_REQUIRED && r.reviewState != REVIEWING
    && (r.reviewState == PASSED || (r.isRequired != 1 && r.reviewState != REJECTED))
  }

  lemma RequirementNothing(r: Requirement, skc: string, inputs: Inputs)
    requires IsCertificate(r) || IsAgency(r) || IsWarning(r)
    ensures RequirementOutcome(r, skc, inputs).Nothing? <==> Quiet(r)
  {
    RequirementDecided(r, skc, inputs);
  }

  predicate UnsupportedQuiet(r: Requirement) {
    r.reviewState == PASSED || (r.isRequired != 1 && r.reviewState != REJECTED)
  }

  predicate PhotoQuiet(p: Photo) {
    p.isRequired != UNKNOWN_REQUIRED && !PhotoUnresolved(p)
  }

  lemma PhotoNothing(p: Photo, inputs: Inputs)
    ensures PhotoOutcome(p, inputs).Nothing? <==> PhotoQuiet(p)
  {
    PhotoDecided(p, inputs);
  }

  /** Both answers came and the rules of the template, if there is one, are fresh. */
  ghost predicate SourcesReady(row: Row, hasTemplate: bool, snapshot: Snapshot, now: int, maxAge: int) {
    && row.requirementsReturned && row.photosReturned
    && (hasTemplate ==> !snapshot.NoSnapshot? && (snapshot.ReadAt? ==> now - snapshot.time <= maxAge))
  }

  /** A plan has nothing to do exactly when the sources are ready and requirements, unsupported items
      and photos are quiet. */
  lemma CompliantIff(row: Row, inputs: Inputs, hasTemplate: bool, snapshot: Snapshot, now: int, maxAge: int)
    requires Grouped(row)
    ensures MakePlan(row, inputs, hasTemplate, snapshot, now, maxAge).status == Compliant <==>
      && SourcesReady(row, hasTemplate, snapshot, now, maxAge)
      && (forall r :: r in Requirements(row) ==> Quiet(r))
      && (forall r :: r in row.unsupported ==> UnsupportedQuiet(r))
      && (forall p :: p in Photos(row) ==> PhotoQuiet(p))
  {
    hide RequirementOutcome, PhotoOutcome, UnsupportedOutcome, Grouped, ActionsOf, BlockersOf, WaitingOf;
    StatusExact(row, inputs, hasTemplate, snapshot, now, maxAge);
    OutcomesBlock(row, inputs);
    NothingLeft(Outcomes(row, inputs));
    OutcomesNothing(row, inputs);
  }

  lemma OutcomeCases(row: Row, inputs: Inputs, o: Outcome)
    ensures o in Outcomes(row, inputs) <==>
      || (exists r :: r in Requirements(row) && o == RequirementOutcome(r, row.skc, inputs))
      || (exists r :: r in row.unsupported && o == UnsupportedOutcome(r))
      || (exists p :: p in Photos(row) && o == PhotoOutcome(p, inputs))
  {
    hide RequirementOutcome, PhotoOutcome, UnsupportedOutcome;
    var a := RequirementOutcomes(Requirements(row), row.skc, inputs);
    var b := UnsupportedOutcomes(row.unsupported);
    var c := PhotoOutcomes(Photos(row), inputs);
    assert o in Outcomes(row, inputs) <==> o in a || o in b || o in c;
    if o in a { var i :| 0 <= i < |a| && a[i] == o; assert Requirements(row)[i] in Requirements(row); }
    if o in b { var i :| 0 <= i < |b| && b[i] == o; assert row.unsupported[i] in row.unsupported; }
    if o in c { var i :| 0 <= i < |c| && c[i] == o; assert Photos(row)[i] in Photos(row); }
    if r :| r in Requirements(row) && o == RequirementOutcome(r, row.skc, inputs) {
      var i :| 0 <= i < |a| && Requirements(row)[i] == r;
      assert a[i] == o;
    }
    if r :| r in row.unsupported && o == UnsupportedOutcome(r) {
      var i :| 0 <= i < |b| && row.unsupported[i] == r;
      assert b[i] == o;
    }
    if p :| p in Photos(row) && o == PhotoOutcome(p, inputs) {
      var i :| 0 <= i < |c| && Photos(row)[i] == p;
      assert c[i] == o;
    }
  }

  lemma GroupedKinds(row: Row, r: Requirement)
    requires Grouped(row) && r in Requirements(row)
    ensures IsCertificate(r) || IsAgency(r) || IsWarning(r)
  {
  }

  lemma OutcomesBlock(row: Row, inputs: Inputs)
    requires Grouped(row)
    ensures forall o :: o in Outcomes(row, inputs) && o.Block? ==> o.blockers != []
  {
    hide RequirementOutcome, PhotoOutcome, Outcomes, Grouped;
    forall o | o in Outcomes(row, inputs) && o.Block? ensures o.blockers != [] {
      OutcomeCases(row, inputs, o);
      if r :| r in Requirements(row) && o == RequirementOutcome(r, row.skc, inputs) {
        GroupedKinds(row, r);
        RequirementDecided(r, row.skc, inputs);
      } else if p :| p in Photos(row) && o == PhotoOutcome(p, inputs) {
        PhotoDecided(p, inputs);
      }
    }
  }

  lemma OutcomesNothing(row: Row, inputs: Inputs)
    requires Grouped(row)
    ensures (forall o :: o in Outcomes(row, inputs) ==> o.Nothing?) <==>
      && (forall r :: r in Requirements(row) ==> Quiet(r))
      && (forall r :: r in row.unsupported ==> UnsupportedQuiet(r))
      && (forall p :: p in Photos(row) ==> PhotoQuiet(p))
  {
    hide RequirementOutcome, PhotoOutcome, Outcomes, Grouped, Quiet, PhotoQuiet, Requirements, Photos;
    forall r | r in Requirements(row) ensures RequirementOutcome(r, row.skc, inputs).Nothing? <==> Quiet(r) {
      GroupedKinds(row, r);
      RequirementNothing(r, row.skc, inputs);
    }
    forall p | p in Photos(row) ensures PhotoOutcome(p, inputs).Nothing? <==> PhotoQuiet(p) {
      PhotoNothing(p, inputs);
    }
    forall r | r in row.unsupported ensures UnsupportedOutcome(r).Nothing? <==> UnsupportedQuiet(r) {}
    forall o ensures o in Outcomes(row, inputs) <==>
      || (exists r :: r in Requirements(row) && o == RequirementOutcome(r, row.skc, inputs))
      || (exists r :: r in row.unsupported && o == UnsupportedOutcome(r))
      || (exists p :: p in Photos(row) && o == PhotoOutcome(p, inputs))
    {
      OutcomeCases(row, inputs, o);
    }
    forall r | r in Requirements(row) ensures RequirementOutcome(r, row.skc, inputs) in Outcomes(row, inputs) {}
    forall r | r in row.unsupported ensures UnsupportedOutcome(r) in Outcomes(row, inputs) {}
    forall p | p in Photos(row) ensures PhotoOutcome(p, inputs) in Outcomes(row, inputs) {}
  }

  // ---------------------------------------------------------------- where the two differ

  lemma ListedItems(row: Row)
    ensures AllClear(Requirements(row)) <==>
      AllClear(row.certificates) && AllClear(row.agencies) && AllClear(row.warnings)
    ensures PhotosClear(Photos(row)) <==> PhotosClear(row.packagePhotos) && PhotosClear(row.bodyPhotos)
  {
    hide Clear, PhotoClear;
    forall r ensures r in Requirements(row) <==> r in row.certificates || r in row.agencies || r in row.warnings {}
    forall p ensures p in Photos(row) <==> p in row.packagePhotos || p in row.bodyPhotos {}
  }

  /** A row shown as passed has nothing to do exactly when the sources are ready, every required item
      is known to have passed, a photo at least to be under review, and no optional photo was rejected:
      the status overlooks these. */
  lemma PassedRowIsCompliantIff(
      row: Row, inputs: Inputs, hasTemplate: bool, snapshot: Snapshot, now: int, maxAge: int)
    requires Grouped(row) && StateOf(row) == AllPassed
    ensures MakePlan(row, inputs, hasTemplate, snapshot, now, maxAge).status == Compliant <==>
      && SourcesReady(row, hasTemplate, snapshot, now, maxAge)
      && (forall r :: r in Requirements(row) + row.unsupported && r.isRequired == 1 ==> r.reviewState == PASSED)
      && (forall p :: p in Photos(row) ==>
            if p.isRequired == 1 then p.reviewStatus in [REVIEWING, PASSED] else p.reviewStatus != REJECTED)
  {
    hide MakePlan, StateOf, Grouped, SourcesReady, Requirements, Photos;
    PassedIff(row);
    ListedItems(row);
    CompliantIff(row, inputs, hasTemplate, snapshot, now, maxAge);
    forall r | r in Requirements(row) ensures Clear(r) {}
    forall r | r in row.unsupported ensures Clear(r) {}
    forall p | p in Photos(row) ensures PhotoClear(p) {}
  }

  /** A row with nothing to do is shown as passed exactly when no unsupported item is under review or
      of unknown necessity. */
  lemma CompliantRowIsPassedIff(
      row: Row, inputs: Inputs, hasTemplate: bool, snapshot: Snapshot, now: int, maxAge: int)
    requires Grouped(row)
    requires MakePlan(row, inputs, hasTemplate, snapshot, now, maxAge).status == Compliant
    ensures StateOf(row) == AllPassed <==>
      forall r :: r in row.unsupported ==> r.reviewState != REVIEWING && r.isRequired != UNKNOWN_REQUIRED
  {
    hide MakePlan, StateOf, Grouped, SourcesReady, Requirements, Photos;
    PassedIff(row);
    ListedItems(row);
    CompliantIff(row, inputs, hasTemplate, snapshot, now, maxAge);
    forall r | r in Requirements(row) ensures Clear(r) { assert Quiet(r); }
    forall p | p in Photos(row) ensures PhotoClear(p) { assert PhotoQuiet(p); }
    forall r | r in row.unsupported
      ensures Clear(r) <==> r.reviewState != REVIEWING && r.isRequired != UNKNOWN_REQUIRED
    {
      assert UnsupportedQuiet(r);
    }
  }

  /** A rejected photo that is not required: the row is shown as passed, the plan has something to do. */
  lemma PassedRowWithWork(inputs: Inputs, snapshot: Snapshot, now: int, maxAge: int)
    ensures var row := Row("s", [], [], [], [], [], [Photo("label", "1", 0, REJECTED)], true, true);
      StateOf(row) == AllPassed && MakePlan(row, inputs, false, snapshot, now, maxAge).status != Compliant
  {
    var p := Photo("label", "1", 0, REJECTED);
    var row := Row("s", [], [], [], [], [], [p], true, true);
    assert p in Photos(row);
    PassedIff(row);
    PassedRowIsCompliantIff(row, inputs, false, snapshot, now, maxAge);
  }

  /** An optional unsupported item under review: the plan has nothing to do, the row is not shown as
      passed. */
  lemma CompliantRowNotPassed(inputs: Inputs, snapshot: Snapshot, now: int, maxAge: int)
    ensures var row := Row("s", [], [], [], [UNDER_REVIEW], [], [], true, true);
      StateOf(row) != AllPassed && MakePlan(row, inputs, false, snapshot, now, maxAge).status == Compliant
  {
    hide MakePlan, StateOf;
    OneUnderReview(Row("s", [], [], [], [UNDER_REVIEW], [], [], true, true), inputs, snapshot, now, maxAge);
  }

  const UNDER_REVIEW := Requirement("code", "1", "name", "", "OTHER", false, 0, REVIEWING)

  lemma OneUnderReview(row: Row, inputs: Inputs, snapshot: Snapshot, now: int, maxAge: int)
    requires Requirements(row) == [] && Photos(row) == [] && row.unsupported == [UNDER_REVIEW]
    requires row.requirementsReturned && row.photosReturned
    ensures StateOf(row) != AllPassed && MakePlan(row, inputs, false, snapshot, now, maxAge).status == Compliant
  {
    assert UNDER_REVIEW in row.unsupported && UnsupportedQuiet(UNDER_REVIEW);
    hide MakePlan, StateOf, Requirements, Photos;
    CompliantIff(row, inputs, false, snapshot, now, maxAge);
    CompliantRowIsPassedIff(row, inputs, false, snapshot, now, maxAge);
  }
}
