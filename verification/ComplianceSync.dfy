/** Compliance sync jobs: batches of 20 SKCs are fetched, merged one by one into the cached rows
    and tracked as successes and failures; a job ends by replacing or merging the rows. */
module ComplianceSync {
  import opened JsStrings
  import opened ComplianceRows

  const BATCH_SIZE := 20

  type Rows = seq<Row>

  /** What the platform answers to the two queries of one batch. An answer in which a row is null is
      `Unreadable`: looking at the row throws, at the end of the batch and again at the end of the sync. */
  datatype Reply =
    | Complete(requirements: seq<(string, Answer<Requirement>)>, photos: seq<(string, Answer<Photo>)>)
    | PhotosFailed(requirements: seq<(string, Answer<Requirement>)>)
    | RequirementsFailed
    | Unreadable

  /** `uniqueSkcNames` */
  function UniqueNames(names: seq<string>): seq<string> {
    UniqueStrings(seq(|names|, i requires 0 <= i < |names| => Trim(names[i])))
  }

  function Chunks(names: seq<string>): seq<seq<string>> {
    if names == [] then []
    else if |names| <= BATCH_SIZE then [names]
    else [names[..BATCH_SIZE]] + Chunks(names[BATCH_SIZE..])
  }

  function Flatten<T>(xss: seq<seq<T>>): seq<T> {
    if xss == [] then [] else Flatten(xss[..|xss| - 1]) + xss[|xss| - 1]
  }

  /** The last answer listed for a name. */
  function Lookup<T>(answers: seq<(string, Answer<T>)>, name: string): Answer<T> {
    if answers == [] then Absent
    else if answers[|answers| - 1].0 == name then answers[|answers| - 1].1
    else Lookup(answers[..|answers| - 1], name)
  }

  function RowsFor(
      names: seq<string>, requirements: seq<(string, Answer<Requirement>)>, photos: seq<(string, Answer<Photo>)>): Rows {
    seq(|names|, i requires 0 <= i < |names| =>
      BuildRow(names[i], Lookup(requirements, names[i]), Lookup(photos, names[i])))
  }

  /** `normalizeComplianceRows` */
  function NormalizeRows(
      names: seq<string>, requirements: seq<(string, Answer<Requirement>)>, photos: seq<(string, Answer<Photo>)>): Rows {
    RowsFor(UniqueNames(names), requirements, photos)
  }

  // ---------------------------------------------------------------- merging

  /** A row replaces the row of its SKC or goes last. */
  function PutRow(rows: Rows, r: Row): Rows {
    if rows == [] then [r]
    else if rows[0].skc == r.skc then [r] + rows[1..]
    else [rows[0]] + PutRow(rows[1..], r)
  }

  function MergeInto(rows: Rows, next: Rows): Rows {
    if next == [] then rows else PutRow(MergeInto(rows, next[..|next| - 1]), next[|next| - 1])
  }

  /** `mergeRowsBySkc` */
  function MergeRows(existing: Rows, next: Rows): Rows { MergeInto([], existing + next) }

  ghost predicate DistinctRows(rows: Rows) {
    forall i, j :: 0 <= i < j < |rows| ==> rows[i].skc != rows[j].skc
  }

  ghost function Skcs(rows: Rows): set<string> { set r | r in rows :: r.skc }

  lemma {:induction false} PutRowKeeps(rows: Rows, r: Row)
    requires DistinctRows(rows)
    ensures DistinctRows(PutRow(rows, r)) && r in PutRow(rows, r)
    ensures forall q :: q in PutRow(rows, r) <==> q == r || (q in rows && q.skc != r.skc)
  {
    if rows != [] {
      assert rows == [rows[0]] + rows[1..];
      if rows[0].skc != r.skc {
        PutRowKeeps(rows[1..], r);
        var t := PutRow(rows[1..], r);
        forall i | 0 <= i < |t| ensures t[i].skc != rows[0].skc { assert t[i] in t; }
      }
    }
  }

  lemma PutRowSkcs(rows: Rows, r: Row)
    requires DistinctRows(rows)
    ensures DistinctRows(PutRow(rows, r)) && Skcs(PutRow(rows, r)) == Skcs(rows) + {r.skc}
  {
    PutRowKeeps(rows, r);
    forall k | k in Skcs(rows) ensures k in Skcs(PutRow(rows, r)) {
      var q :| q in rows && q.skc == k;
      if k != r.skc { assert q in PutRow(rows, r); }
    }
  }

  lemma {:induction false} MergeIntoKeeps(rows: Rows, next: Rows)
    requires DistinctRows(rows)
    ensures DistinctRows(MergeInto(rows, next)) && Skcs(MergeInto(rows, next)) == Skcs(rows) + Skcs(next)
  {
    hide DistinctRows, PutRow;
    if next != [] {
      var n := |next| - 1;
      MergeIntoKeeps(rows, next[..n]);
      PutRowSkcs(MergeInto(rows, next[..n]), next[n]);
      SkcsSnoc(next);
    }
  }

  lemma SkcsSnoc(rows: Rows)
    requires rows != []
    ensures Skcs(rows) == Skcs(rows[..|rows| - 1]) + {rows[|rows| - 1].skc}
  {
    var n := |rows| - 1;
    assert rows == rows[..n] + [rows[n]];
  }

  lemma {:induction false} MergeIntoConcat(rows: Rows, a: Rows, b: Rows)
    ensures MergeInto(rows, a + b) == MergeInto(MergeInto(rows, a), b)
  {
    if b == [] {
      assert a + b == a;
    } else {
      var n := |b| - 1;
      MergeIntoConcat(rows, a, b[..n]);
      assert (a + b)[..|a + b| - 1] == a + b[..n];
    }
  }

  lemma {:induction false} PutRowAppends(rows: Rows, r: Row)
    requires r.skc !in Skcs(rows)
    ensures PutRow(rows, r) == rows + [r]
  {
    if rows != [] {
      assert rows[0] in rows;
      assert forall q :: q in rows[1..] ==> q in rows;
      PutRowAppends(rows[1..], r);
      assert rows == [rows[0]] + rows[1..];
    }
  }

  lemma {:induction false} MergeOfDistinct(rows: Rows)
    requires DistinctRows(rows)
    ensures MergeInto([], rows) == rows
  {
    if rows != [] {
      var n := |rows| - 1;
      MergeOfDistinct(rows[..n]);
      assert rows[n].skc !in Skcs(rows[..n]);
      PutRowAppends(rows[..n], rows[n]);
      assert rows == rows[..n] + [rows[n]];
    }
  }

  /** Merging twice is merging once with both: the incremental form equals the one-shot form. */
  lemma MergeTwice(rows: Rows, a: Rows, b: Rows)
    ensures MergeRows(MergeRows(rows, a), b) == MergeRows(rows, a + b)
  {
    var m := MergeRows(rows, a);
    MergeIntoKeeps([], rows + a);
    MergeOfDistinct(m);
    MergeIntoConcat([], m, b);
    MergeIntoConcat([], rows + a, b);
    assert rows + a + b == rows + (a + b);
  }

  lemma {:induction false} PutRowKnown(rows: Rows, r: Row)
    requires DistinctRows(rows) && r in rows
    ensures PutRow(rows, r) == rows
  {
    assert rows == [rows[0]] + rows[1..];
    if rows[0] != r {
      var i :| 0 <= i < |rows| && rows[i] == r;
      assert rows[1..][i - 1] == r;
      PutRowKnown(rows[1..], r);
    }
  }

  lemma PutRowStays(rows: Rows, q: Row, r: Row)
    requires DistinctRows(rows)
    requires q == r || (q in rows && q.skc != r.skc)
    ensures q in PutRow(rows, r)
  {
    PutRowKeeps(rows, r);
  }

  lemma {:induction false} MergedStay(rows: Rows, next: Rows, i: nat)
    requires DistinctRows(rows) && DistinctRows(next) && i < |next|
    ensures next[i] in MergeInto(rows, next)
  {
    hide PutRow, Skcs;
    var n := |next| - 1;
    MergeIntoKeeps(rows, next[..n]);
    if i < n { MergedStay(rows, next[..n], i); }
    PutRowStays(MergeInto(rows, next[..n]), next[i], next[n]);
  }

  lemma {:induction false} MergeKnown(rows: Rows, next: Rows)
    requires DistinctRows(rows) && forall r :: r in next ==> r in rows
    ensures MergeInto(rows, next) == rows
  {
    if next != [] {
      var n := |next| - 1;
      assert next == next[..n] + [next[n]];
      MergeKnown(rows, next[..n]);
      PutRowKnown(rows, next[n]);
    }
  }

  /** Merging rows that were merged already is a no-op: order stays and nothing is doubled. */
  lemma MergeAgain(rows: Rows, next: Rows)
    requires DistinctRows(next)
    ensures MergeRows(MergeRows(rows, next), next) == MergeRows(rows, next)
    ensures DistinctRows(MergeRows(rows, next))
  {
    var m := MergeRows(rows, next);
    MergeIntoConcat([], rows, next);
    MergeIntoKeeps([], rows);
    MergeIntoKeeps(MergeInto([], rows), next);
    forall r | r in next ensures r in m {
      var i :| 0 <= i < |next| && next[i] == r;
      MergedStay(MergeInto([], rows), next, i);
    }
    MergeOfDistinct(m);
    MergeIntoConcat([], m, next);
    MergeKnown(m, next);
  }

  // ---------------------------------------------------------------- one job, batch by batch

  /** The batches and what the platform answers to each. */
  datatype Fetch = Fetch(batches: seq<seq<string>>, replies: nat -> Reply)

  function BatchRows(f: Fetch, i: nat): Rows
    requires i < |f.batches|
  {
    match f.replies(i)
    case Complete(requirements, photos) => NormalizeRows(f.batches[i], requirements, photos)
    case _ => []
  }

  function Successes(f: Fetch, n: nat): seq<string>
    requires n <= |f.batches|
  {
    if n == 0 then [] else Successes(f, n - 1) + if f.replies(n - 1).Complete? then f.batches[n - 1] else []
  }

  function Failures(f: Fetch, n: nat): seq<string>
    requires n <= |f.batches|
  {
    if n == 0 then [] else Failures(f, n - 1) + if f.replies(n - 1).Complete? then [] else f.batches[n - 1]
  }

  /** The requirement rows of one reply. */
  function RequirementsIn(reply: Reply): seq<(string, Answer<Requirement>)> {
    if reply.Complete? || reply.PhotosFailed? then reply.requirements else []
  }

  /** All requirement answers so far, also those of batches whose photo query failed. */
  function AllRequirements(f: Fetch, n: nat): seq<(string, Answer<Requirement>)>
    requires n <= |f.batches|
  {
    if n == 0 then [] else AllRequirements(f, n - 1) + RequirementsIn(f.replies(n - 1))
  }

  function AllPhotos(f: Fetch, n: nat): seq<(string, Answer<Photo>)>
    requires n <= |f.batches|
  {
    if n == 0 then []
    else AllPhotos(f, n - 1) + if f.replies(n - 1).Complete? then f.replies(n - 1).photos else []
  }

  /** The rows of all batches so far, one batch after the other. */
  function AllBatchRows(f: Fetch, n: nat): Rows
    requires n <= |f.batches|
  {
    if n == 0 then [] else AllBatchRows(f, n - 1) + BatchRows(f, n - 1)
  }

  /** The cached rows after the callbacks of the first `n` batches. */
  function CachedRows(rows: Rows, f: Fetch, n: nat): Rows
    requires n <= |f.batches|
  {
    if n == 0 then rows else MergeRows(CachedRows(rows, f, n - 1), BatchRows(f, n - 1))
  }

  /** No reply to the first `n` batches has a null row. */
  predicate Readable(f: Fetch, n: nat) { forall i: nat | i < n :: !f.replies(i).Unreadable? }

  /** The rows that the sync returns at its end, if every reply can be read. */
  function FinalRows(f: Fetch): Rows {
    var n := |f.batches|;
    NormalizeRows(Successes(f, n), AllRequirements(f, n), AllPhotos(f, n))
  }

  /** The compliance record of a store. */
  datatype Record = Record(rows: Rows, failedSkcNames: seq<string>)

  function Plan(names: seq<string>, replies: nat -> Reply): Fetch {
    Fetch(Chunks(UniqueNames(names)), replies)
  }

  /** What a job leaves behind. Without a single usable name the sync returns no failure list and
      the job fails, with the record as it was. With a null row the sync throws at its end: the rows
      of the batches stay and the failures of the job are not stored. */
  function AfterJob(before: Record, names: seq<string>, replies: nat -> Reply, replaceRows: bool): Record {
    if UniqueNames(names) == [] then before
    else
      var f := Plan(names, replies);
      var n := |f.batches|;
      if !Readable(f, n) then Record(CachedRows(before.rows, f, n), before.failedSkcNames)
      else
        Record(if replaceRows then FinalRows(f) else MergeRows(CachedRows(before.rows, f, n), FinalRows(f)),
               Unique(Failures(f, n)))
  }

  /** The cached record and the running job of a store, updated in place. */
  class ComplianceStore {
    var rows: Rows
    var failedSkcNames: seq<string>
    var processed: nat
    var success: nat
    var failed: nat
    var completedBatches: nat

    constructor (rows: Rows, failedSkcNames: seq<string>)
      ensures this.rows == rows && this.failedSkcNames == failedSkcNames
    {
      this.rows, this.failedSkcNames := rows, failedSkcNames;
      processed, success, failed, completedBatches := 0, 0, 0, 0;
    }

    function Contents(): Record
      reads this
    {
      Record(rows, failedSkcNames)
    }

    /** The job's callback after each batch. */
    method OnBatch(batch: seq<string>, batchRows: Rows, error: bool)
      modifies this
      ensures rows == MergeRows(old(rows), batchRows) && failedSkcNames == old(failedSkcNames)
      ensures processed == old(processed) + |batch| && completedBatches == old(completedBatches) + 1
      ensures success == old(success) + |batchRows|
      ensures failed == old(failed) + if error then |batch| else 0
    {
      rows := MergeRows(rows, batchRows);
      processed := processed + |batch|;
      success := success + |batchRows|;
      failed := failed + if error then |batch| else 0;
      completedBatches := completedBatches + 1;
    }

    /** The loop of `syncStoreComplianceData`, with `continueOnError`; `nullRow` tells whether the rows
        that were gathered cannot be normalized at the end. */
    method SyncBatches(names: seq<string>, f: Fetch)
      returns (
          nullRow: bool,
          requirements: seq<(string, Answer<Requirement>)>,
          photos: seq<(string, Answer<Photo>)>,
          successes: seq<string>,
          failures: seq<string>)
      requires Normal(names) && f.batches == Chunks(names)
      requires processed == success == failed == completedBatches == 0
      modifies this
      ensures var n := |f.batches|;
        && rows == CachedRows(old(rows), f, n) && failedSkcNames == old(failedSkcNames)
        && (nullRow <==> !Readable(f, n)) && failures == Failures(f, n)
        && (!nullRow ==>
              requirements == AllRequirements(f, n) && photos == AllPhotos(f, n) && successes == Successes(f, n))
      ensures processed == success + failed == |names| && completedBatches == |f.batches|
      ensures success == |Successes(f, |f.batches|)| && failed == |failures|
    {
      nullRow, requirements, photos, successes, failures := false, [], [], [], [];
      hide UniqueNames, Chunks, MergeRows, NormalizeRows, Normal;
      for i := 0 to |f.batches|
        invariant rows == CachedRows(old(rows), f, i) && failedSkcNames == old(failedSkcNames)
        invariant (nullRow <==> !Readable(f, i)) && failures == Failures(f, i)
        invariant !nullRow ==>
          requirements == AllRequirements(f, i) && photos == AllPhotos(f, i) && successes == Successes(f, i)
        invariant completedBatches == i && success == |Successes(f, i)| && failed == |failures|
        invariant processed == success + failed == |Flatten(f.batches[..i])|
      {
        assert f.batches[..i + 1][..i] == f.batches[..i];
        BatchRowsLength(names, f, i);
        var reply := f.replies(i);
        match reply {
          case Complete(requirementRows, photoRows) =>
            requirements := requirements + requirementRows;
            photos := photos + photoRows;
            successes := successes + f.batches[i];
            OnBatch(f.batches[i], NormalizeRows(f.batches[i], requirementRows, photoRows), false);
          case PhotosFailed(requirementRows) =>
            requirements := requirements + requirementRows;
            failures := failures + f.batches[i];
            OnBatch(f.batches[i], [], true);
          case RequirementsFailed =>
            failures := failures + f.batches[i];
            OnBatch(f.batches[i], [], true);
          case Unreadable =>
            nullRow := true;
            successes, failures := successes + f.batches[i], failures + f.batches[i];
            OnBatch(f.batches[i], [], true);
        }
      }
      assert f.batches[..|f.batches|] == f.batches;
      ChunksFlatten(names);
    }

    /** `runComplianceJob` around `syncStoreComplianceData`. */
    method RunComplianceJob(names: seq<string>, replies: nat -> Reply, replaceRows: bool)
      modifies this
      ensures Contents() == AfterJob(old(Contents()), names, replies, replaceRows)
      ensures processed == success + failed == |UniqueNames(names)|
      ensures completedBatches == |Chunks(UniqueNames(names))|
    {
      hide UniqueNames, Chunks, MergeRows, NormalizeRows, Normal, Unique;
      processed, success, failed, completedBatches := 0, 0, 0, 0;
      var skcNames := UniqueNames(names);
      UniqueNamesNormal(names);
      if skcNames == [] {
        ChunksFlatten(skcNames);
        NoChunks();
        return;
      }
      var f := Plan(names, replies);
      var nullRow, requirements, photos, successes, failures := SyncBatches(skcNames, f);
      if nullRow {
        return;
      }
      var finalRows := NormalizeRows(successes, requirements, photos);
      rows := if replaceRows then finalRows else MergeRows(rows, finalRows);
      failedSkcNames := Unique(failures);
    }
  }

  lemma NoChunks()
    ensures Chunks([]) == []
  {
  }

  /** A complete batch gives one row per SKC, a failed one none. */
  lemma BatchRowsLength(names: seq<string>, f: Fetch, i: nat)
    requires Normal(names) && f.batches == Chunks(names) && i < |f.batches|
    ensures |BatchRows(f, i)| == if f.replies(i).Complete? then |f.batches[i]| else 0
  {
    BatchNormal(names, i);
    NormalNames(f.batches[i]);
  }

  // ---------------------------------------------------------------- names

  /** Trimmed, non-blank and without repetitions. */
  ghost predicate Normal(names: seq<string>) {
    NoDuplicates(names) && forall s :: s in names ==> s != "" && Trim(s) == s
  }

  lemma {:induction false} TrimIdempotent(s: string)
    ensures Trim(Trim(s)) == Trim(s)
  {
  }

  lemma UniqueNamesNormal(names: seq<string>)
    ensures Normal(UniqueNames(names))
  {
    var trimmed := seq(|names|, i requires 0 <= i < |names| => Trim(names[i]));
    AddAllNoDuplicates([], Filter((s: string) => s != "", trimmed));
    forall s | s in UniqueNames(names) ensures s != "" && Trim(s) == s {
      UniqueStringsMember(trimmed, s);
      var i :| 0 <= i < |trimmed| && trimmed[i] == s;
      TrimIdempotent(names[i]);
    }
  }

  /** Normalizing normal names changes nothing. */
  lemma NormalNames(names: seq<string>)
    requires Normal(names)
    ensures UniqueNames(names) == names
  {
    var trimmed := seq(|names|, i requires 0 <= i < |names| => Trim(names[i]));
    assert trimmed == names by {
      forall i | 0 <= i < |names| ensures trimmed[i] == names[i] { assert names[i] in names; }
    }
    FilterAll((s: string) => s != "", names);
    UniqueIsIdentity(names);
  }

  lemma {:induction false} FlattenConcat<T>(xss: seq<seq<T>>, yss: seq<seq<T>>)
    ensures Flatten(xss + yss) == Flatten(xss) + Flatten(yss)
  {
    if yss == [] {
      assert xss + yss == xss;
    } else {
      var n := |yss| - 1;
      FlattenConcat(xss, yss[..n]);
      assert (xss + yss)[..|xss + yss| - 1] == xss + yss[..n];
    }
  }

  lemma {:induction false} ChunksFlatten(names: seq<string>)
    ensures Flatten(Chunks(names)) == names
    ensures forall i :: 0 <= i < |Chunks(names)| ==> 0 < |Chunks(names)[i]| <= BATCH_SIZE
    ensures forall i :: 0 <= i < |Chunks(names)| - 1 ==> |Chunks(names)[i]| == 20
  {
    if names == [] {
    } else if |names| <= BATCH_SIZE {
      assert Flatten([names]) == Flatten([names][..0]) + names;
    } else {
      ChunksFlatten(names[BATCH_SIZE..]);
      FlattenConcat([names[..BATCH_SIZE]], Chunks(names[BATCH_SIZE..]));
      assert Flatten([names[..BATCH_SIZE]]) == Flatten([names[..BATCH_SIZE]][..0]) + names[..BATCH_SIZE];
      assert names[..BATCH_SIZE] + names[BATCH_SIZE..] == names;
    }
  }

  lemma {:induction false} FlattenMember<T>(xss: seq<seq<T>>, i: nat)
    requires i < |xss|
    ensures multiset(xss[i]) <= multiset(Flatten(xss))
  {
    var n := |xss| - 1;
    if i < n { FlattenMember(xss[..n], i); }
  }

  lemma {:induction false} NoDuplicatesCount<T>(xs: seq<T>, x: T)
    requires NoDuplicates(xs)
    ensures multiset(xs)[x] <= 1
  {
    if xs != [] {
      var n := |xs| - 1;
      NoDuplicatesCount(xs[..n], x);
      assert xs == xs[..n] + [xs[n]];
      assert xs[n] !in xs[..n];
    }
  }

  lemma DuplicateCounts<T>(xs: seq<T>, i: nat, j: nat)
    requires i < j < |xs| && xs[i] == xs[j]
    ensures multiset(xs)[xs[i]] >= 2
  {
    assert xs == xs[..j] + xs[j..];
    assert xs[..j][i] in multiset(xs[..j]) && xs[j..][0] in multiset(xs[j..]);
  }

  /** A part of normal names is normal. */
  lemma SubNormal(part: seq<string>, names: seq<string>)
    requires Normal(names) && multiset(part) <= multiset(names)
    ensures Normal(part)
  {
    forall i, j | 0 <= i < j < |part| ensures part[i] != part[j] {
      if part[i] == part[j] {
        DuplicateCounts(part, i, j);
        NoDuplicatesCount(names, part[i]);
      }
    }
    forall s | s in part ensures s in names { assert s in multiset(part); }
  }

  lemma BatchNormal(names: seq<string>, i: nat)
    requires Normal(names) && i < |Chunks(names)|
    ensures Normal(Chunks(names)[i])
  {
    ChunksFlatten(names);
    FlattenMember(Chunks(names), i);
    SubNormal(Chunks(names)[i], names);
  }
}
