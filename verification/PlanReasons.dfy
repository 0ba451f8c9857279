/** What a plan says about its row as a whole: everything that blocks it, and everything it waits for. */
module PlanReasons {
  import opened JsStrings
  import opened ComplianceRows
  import opened Preflight
  import opened PreflightChoices
  import opened RowStatus

  /** Blockers about the row's sources and the template's rules, which name no requirement. */
  ghost predicate OfSources(b: Blocker, row: Row, hasTemplate: bool, snapshot: Snapshot, now: int, maxAge: int) {
    b.key == "" &&
      (|| (b.code == RequirementsNotSynced && !row.requirementsReturned)
       || (b.code == PhotoRequirementsNotSynced && !row.photosReturned)
       || (b.code == RuleSnapshotMissing && hasTemplate && snapshot.NoSnapshot?)
       || (b.code == RuleSnapshotStale && hasTemplate && snapshot.ReadAt? && now - snapshot.time > maxAge))
  }

  lemma {:induction false} BlockersMember(os: seq<Outcome>, b: Blocker)
    ensures b in BlockersOf(os) <==> exists o :: o in os && o.Block? && b in o.blockers
  {
    if os != [] {
      var n := |os| - 1;
      BlockersMember(os[..n], b);
      assert os == os[..n] + [os[n]];
    }
  }

  /** A plan is blocked by exactly this: its sources, and what blocks one of the row's items. */
  lemma PlanBlockedBy(
      row: Row, inputs: Inputs, hasTemplate: bool, snapshot: Snapshot, now: int, maxAge: int, b: Blocker)
    ensures b in MakePlan(row, inputs, hasTemplate, snapshot, now, maxAge).blockers <==>
      || OfSources(b, row, hasTemplate, snapshot, now, maxAge)
      || (exists r :: r in row.certificates + row.agencies + row.warnings && Refused(RequirementOutcome(r, row.skc, inputs), b))
      || (exists r :: r in row.unsupported && Refused(UnsupportedOutcome(r), b))
      || (exists p :: p in row.bodyPhotos + row.packagePhotos && Refused(PhotoOutcome(p, inputs), b))
  {
    var os := Outcomes(row, inputs);
    BlockersMember(os, b);
    forall o ensures o in os <==>
      || (exists r :: r in Requirements(row) && o == RequirementOutcome(r, row.skc, inputs))
      || (exists r :: r in row.unsupported && o == UnsupportedOutcome(r))
      || (exists p :: p in Photos(row) && o == PhotoOutcome(p, inputs))
    {
      OutcomeCases(row, inputs, o);
    }
    SourcesMember(row, hasTemplate, snapshot, now, maxAge, b);
    hide RequirementOutcome, UnsupportedOutcome, PhotoOutcome, Outcomes, BlockersOf, SourceBlockers, SnapshotBlockers, OfSources;
    forall r | r in Requirements(row) ensures RequirementOutcome(r, row.skc, inputs) in os {}
    forall r | r in row.unsupported ensures UnsupportedOutcome(r) in os {}
    forall p | p in Photos(row) ensures PhotoOutcome(p, inputs) in os {}
  }

  ghost predicate Refused(o: Outcome, b: Blocker) { o.Block? && b in o.blockers }

  lemma SourcesMember(row: Row, hasTemplate: bool, snapshot: Snapshot, now: int, maxAge: int, b: Blocker)
    ensures b in SourceBlockers(row) + SnapshotBlockers(hasTemplate, snapshot, now, maxAge) <==>
            OfSources(b, row, hasTemplate, snapshot, now, maxAge)
  {
  }

  predicate UnderReview(r: Requirement) { r.isRequired != 10 && r.reviewState == 1 }

  /** Named in the same order, each by its own key. */
  ghost predicate NamedInOrder(keys: seq<string>, rs: seq<Requirement>) {
    |keys| == |rs| && forall i :: 0 <= i < |rs| ==> Names(rs[i].typeCode, rs[i].typeId, keys[i])
  }

  lemma {:induction false} RequirementsWait(rs: seq<Requirement>, skc: string, inputs: Inputs)
    ensures NamedInOrder(WaitingOf(RequirementOutcomes(rs, skc, inputs)), Filter(UnderReview, rs))
  {
    hide RequirementOutcome, Names;
    if rs != [] {
      var n := |rs| - 1;
      assert RequirementOutcomes(rs, skc, inputs)[..n] == RequirementOutcomes(rs[..n], skc, inputs);
      RequirementsWait(rs[..n], skc, inputs);
      OtherwiseIff(rs[n], skc, inputs);
    }
  }

  lemma {:induction false} NothingWaits(os: seq<Outcome>)
    requires forall o :: o in os ==> !o.Wait?
    ensures WaitingOf(os) == []
  {
    if os != [] {
      assert os[|os| - 1] in os && forall o :: o in os[..|os| - 1] ==> o in os;
      NothingWaits(os[..|os| - 1]);
    }
  }

  lemma {:induction false} WaitingConcat(a: seq<Outcome>, b: seq<Outcome>)
    ensures WaitingOf(a + b) == WaitingOf(a) + WaitingOf(b)
  {
    if b == [] {
      assert a + b == a;
    } else {
      var n := |b| - 1;
      WaitingConcat(a, b[..n]);
      assert (a + b)[..|a + b| - 1] == a + b[..n];
    }
  }

  /** A plan waits for exactly the requirements under review, in their order. */
  lemma PlanWaitsFor(row: Row, inputs: Inputs, hasTemplate: bool, snapshot: Snapshot, now: int, maxAge: int)
    ensures NamedInOrder(MakePlan(row, inputs, hasTemplate, snapshot, now, maxAge).waiting,
                         Filter(UnderReview, row.certificates + row.agencies + row.warnings))
  {
    var a := RequirementOutcomes(Requirements(row), row.skc, inputs);
    var b := UnsupportedOutcomes(row.unsupported);
    var c := PhotoOutcomes(Photos(row), inputs);
    forall o: Outcome | o in b + c ensures !o.Wait? {}
    assert Outcomes(row, inputs) == a + (b + c);
    RequirementsWait(Requirements(row), row.skc, inputs);
    hide RequirementOutcome, UnsupportedOutcome, PhotoOutcome, NamedInOrder, WaitingOf;
    NothingWaits(b + c);
    WaitingConcat(a, b + c);
    assert WaitingOf(a) + [] == WaitingOf(a);
  }
}
