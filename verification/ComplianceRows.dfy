/** Compliance rows as the sync builds them from the platform's answers: every requirement and
    photo is filed under the list it is handled by. */
module ComplianceRows {
  import opened JsStrings

  const CERTIFICATE_GROUP := "ZSZZL"
  const AGENCY_GROUP := "GSL"
  const WARNING_GROUP := "HGXXL"

  /** `typeText` is the field `certificateType`. `isRequired`: 1 required, 10 unknown. `reviewState`: 0 missing,
      1 reviewing, 2 passed, 3 rejected. */
  datatype Requirement = Requirement(
    typeCode: string,
    typeId: string,
    typeName: string,
    typeText: string,
    group: string,
    isManualWarning: bool,
    isRequired: int,
    reviewState: int)

  datatype Photo = Photo(labelId: string, labelGroup: string, isRequired: int, reviewStatus: int)

  const MISSING := 0
  const REVIEWING := 1
  const PASSED := 2
  const REJECTED := 3
  const UNKNOWN_REQUIRED := 10

  datatype Row = Row(
    skc: string,
    certificates: seq<Requirement>,
    agencies: seq<Requirement>,
    warnings: seq<Requirement>,
    unsupported: seq<Requirement>,
    packagePhotos: seq<Photo>,
    bodyPhotos: seq<Photo>,
    requirementsReturned: bool,
    photosReturned: bool)

  predicate IsCertificate(r: Requirement) { r.group == CERTIFICATE_GROUP }

  predicate IsAgency(r: Requirement) { r.group == AGENCY_GROUP }

  predicate IsWarning(r: Requirement) { r.group == WARNING_GROUP && r.isManualWarning }

  predicate IsUnsupported(r: Requirement) {
    && r.group !in [CERTIFICATE_GROUP, AGENCY_GROUP]
    && !(r.group == WARNING_GROUP && r.isManualWarning)
  }

  datatype Answer<T> = Absent | Returned(items: seq<T>) {
    function Items(): seq<T> { if Returned? then items else [] }
  }

  /** The row of one SKC in `normalizeComplianceRows`. */
  function BuildRow(skc: string, requirements: Answer<Requirement>, photos: Answer<Photo>): Row {
    var items := requirements.Items();
    Row(skc,
        Filter(IsCertificate, items),
        Filter(IsAgency, items),
        Filter(IsWarning, items),
        Filter(IsUnsupported, items),
        Filter((p: Photo) => p.labelGroup == "2", photos.Items()),
        Filter((p: Photo) => p.labelGroup == "1", photos.Items()),
        requirements.Returned?,
        photos.Returned?)
  }

  lemma FilterSplits(items: seq<Requirement>)
    ensures multiset(items) == multiset(Filter(IsCertificate, items)) + multiset(Filter(IsAgency, items))
                             + multiset(Filter(IsWarning, items)) + multiset(Filter(IsUnsupported, items))
  {
    forall r
      ensures multiset(items)[r] == multiset(Filter(IsCertificate, items))[r] + multiset(Filter(IsAgency, items))[r]
                                  + multiset(Filter(IsWarning, items))[r] + multiset(Filter(IsUnsupported, items))[r]
    {
      FilterCount(IsCertificate, items, r);
      FilterCount(IsAgency, items, r);
      FilterCount(IsWarning, items, r);
      FilterCount(IsUnsupported, items, r);
    }
  }

  /** Every returned requirement lands in exactly one of the four lists, as often as it was returned. */
  lemma RequirementsPartitioned(skc: string, requirements: Answer<Requirement>, photos: Answer<Photo>, r: Requirement)
    ensures var row := BuildRow(skc, requirements, photos);
      && multiset(requirements.Items())
           == multiset(row.certificates) + multiset(row.agencies) + multiset(row.warnings) + multiset(row.unsupported)
      && (r in requirements.Items() <==>
            r in row.certificates || r in row.agencies || r in row.warnings || r in row.unsupported)
      && !(r in row.certificates && (r in row.agencies || r in row.warnings || r in row.unsupported))
      && !(r in row.agencies && (r in row.warnings || r in row.unsupported))
      && !(r in row.warnings && r in row.unsupported)
  {
    var items := requirements.Items();
    FilterSplits(items);
    FilterMember(IsCertificate, items, r);
    FilterMember(IsAgency, items, r);
    FilterMember(IsWarning, items, r);
    FilterMember(IsUnsupported, items, r);
  }

  /** A returned photo is kept exactly when its label group is "1" or "2". */
  lemma PhotosFiled(skc: string, requirements: Answer<Requirement>, photos: Answer<Photo>, p: Photo)
    requires p in photos.Items()
    ensures var row := BuildRow(skc, requirements, photos);
      && (p in row.bodyPhotos || p in row.packagePhotos <==> p.labelGroup == "1" || p.labelGroup == "2")
      && !(p in row.bodyPhotos && p in row.packagePhotos)
  {
    FilterMember((q: Photo) => q.labelGroup == "2", photos.Items(), p);
    FilterMember((q: Photo) => q.labelGroup == "1", photos.Items(), p);
  }

  /** Each list of the row holds the returned items of its own kind, as often as they were returned, and
      the row tells whether there were answers. */
  lemma RowExact(skc: string, requirements: Answer<Requirement>, photos: Answer<Photo>, r: Requirement, p: Photo)
    ensures var row := BuildRow(skc, requirements, photos);
            var n := multiset(requirements.Items())[r]; var m := multiset(photos.Items())[p];
      && row.skc == skc && row.requirementsReturned == requirements.Returned? && row.photosReturned == photos.Returned?
      && multiset(row.certificates)[r] == (if r.group == "ZSZZL" then n else 0)
      && multiset(row.agencies)[r] == (if r.group == "GSL" then n else 0)
      && multiset(row.warnings)[r] == (if r.group == "HGXXL" && r.isManualWarning then n else 0)
      && multiset(row.unsupported)[r] ==
           (if r.group != "ZSZZL" && r.group != "GSL" && !(r.group == "HGXXL" && r.isManualWarning) then n else 0)
      && multiset(row.packagePhotos)[p] == (if p.labelGroup == "2" then m else 0)
      && multiset(row.bodyPhotos)[p] == (if p.labelGroup == "1" then m else 0)
  {
    FilterCount(IsCertificate, requirements.Items(), r);
    FilterCount(IsAgency, requirements.Items(), r);
    FilterCount(IsWarning, requirements.Items(), r);
    FilterCount(IsUnsupported, requirements.Items(), r);
    FilterCount((q: Photo) => q.labelGroup == "2", photos.Items(), p);
    FilterCount((q: Photo) => q.labelGroup == "1", photos.Items(), p);
  }

  /** The items stand at rising places of the list that was returned. */
  ghost predicate InOrder<T>(kept: seq<T>, items: seq<T>) {
    exists places: seq<nat> :: Rising(kept, items, places)
  }

  ghost predicate Rising<T>(kept: seq<T>, items: seq<T>, places: seq<nat>) {
    && |places| == |kept| && (forall k :: 0 <= k < |places| ==> places[k] < |items| && kept[k] == items[places[k]])
    && (forall j, k :: 0 <= j < k < |places| ==> places[j] < places[k])
  }

  /** Every list of the row keeps the order of the answer. */
  lemma RowInOrder(skc: string, requirements: Answer<Requirement>, photos: Answer<Photo>)
    ensures var row := BuildRow(skc, requirements, photos); var rs := requirements.Items(); var ps := photos.Items();
      && InOrder(row.certificates, rs) && InOrder(row.agencies, rs) && InOrder(row.warnings, rs)
      && InOrder(row.unsupported, rs) && InOrder(row.packagePhotos, ps) && InOrder(row.bodyPhotos, ps)
  {
    FilteredInOrder(IsCertificate, requirements.Items());
    FilteredInOrder(IsAgency, requirements.Items());
    FilteredInOrder(IsWarning, requirements.Items());
    FilteredInOrder(IsUnsupported, requirements.Items());
    FilteredInOrder((q: Photo) => q.labelGroup == "2", photos.Items());
    FilteredInOrder((q: Photo) => q.labelGroup == "1", photos.Items());
  }

  lemma FilteredInOrder<T>(p: T -> bool, xs: seq<T>)
    ensures InOrder(Filter(p, xs), xs)
  {
    var places := FilterInOrder(p, xs);
    assert Rising(Filter(p, xs), xs, places);
  }
}
