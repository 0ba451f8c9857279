/** Whole compliance syncs: what the rows and the failure list hold after a full sync and any number
    of retries, and why the rows merged batch by batch are the rows returned at the end. */
module ComplianceRuns {
  import opened JsStrings
  import opened ComplianceRows
  import opened ComplianceSync

  const MAX_SKC_NAMES := 5000

  // ---------------------------------------------------------------- incremental equals one-shot

  ghost predicate Named<T>(answers: seq<(string, Answer<T>)>, name: string) {
    exists i :: 0 <= i < |answers| && answers[i].0 == name
  }

  /** Each reply answers only for SKCs of its own batch. */
  ghost predicate OwnNames(f: Fetch) {
    forall i: nat, name | i < |f.batches| && name !in f.batches[i] :: Silent(f.replies(i), name)
  }

  /** The reply says nothing about an SKC. */
  ghost predicate Silent(reply: Reply, name: string) {
    match reply
    case Complete(requirements, photos) => !Named(requirements, name) && !Named(photos, name)
    case PhotosFailed(requirements) => !Named(requirements, name)
    case _ => true
  }

  lemma {:induction false} LookupAbsent<T>(answers: seq<(string, Answer<T>)>, name: string)
    requires !Named(answers, name)
    ensures Lookup(answers, name) == Absent
  {
    if answers != [] {
      var n := |answers| - 1;
      assert !Named(answers[..n], name) by {
        forall i | 0 <= i < n ensures answers[..n][i].0 != name { assert answers[i].0 != name; }
      }
      LookupAbsent(answers[..n], name);
    }
  }

  lemma {:induction false} LookupConcat<T>(a: seq<(string, Answer<T>)>, b: seq<(string, Answer<T>)>, name: string)
    ensures Lookup(a + b, name) == if Named(b, name) then Lookup(b, name) else Lookup(a, name)
  {
    if b == [] {
      assert a + b == a;
    } else {
      var n := |b| - 1;
      assert (a + b)[..|a + b| - 1] == a + b[..n];
      if b[n].0 != name {
        LookupConcat(a, b[..n], name);
        assert Named(b, name) <==> Named(b[..n], name) by {
          if Named(b, name) {
            var i :| 0 <= i < |b| && b[i].0 == name;
            assert b[..n][i].0 == name;
          }
        }
      }
    }
  }

  lemma {:induction false} FlattenTwice<T>(xss: seq<seq<T>>, i: nat, j: nat, x: T)
    requires i < j < |xss| && x in xss[i] && x in xss[j]
    ensures multiset(Flatten(xss))[x] >= 2
  {
    var n := |xss| - 1;
    assert x in multiset(xss[i]) && x in multiset(xss[j]);
    if j < n {
      FlattenTwice(xss[..n], i, j, x);
    } else {
      FlattenMember(xss[..n], i);
      assert xss[..n][i] == xss[i];
    }
  }

  /** An SKC is in one batch only. */
  lemma BatchesApart(names: seq<string>, i: nat, j: nat, name: string)
    requires Normal(names) && i < |Chunks(names)| && j < |Chunks(names)|
    requires name in Chunks(names)[i] && name in Chunks(names)[j]
    ensures i == j
  {
    ChunksFlatten(names);
    NoDuplicatesCount(names, name);
    if i < j { FlattenTwice(Chunks(names), i, j, name); }
    if j < i { FlattenTwice(Chunks(names), j, i, name); }
  }

  /** The planned batches of normal names, answered each for its own. */
  ghost predicate Answered(names: seq<string>, f: Fetch) {
    Normal(names) && f.batches == Chunks(names) && OwnNames(f)
  }

  lemma SilentElsewhere(names: seq<string>, f: Fetch, k: nat, i: nat, name: string)
    requires Answered(names, f) && k < |f.batches| && i < |f.batches| && i != k && name in f.batches[k]
    ensures Silent(f.replies(i), name)
  {
    if name in f.batches[i] { BatchesApart(names, i, k, name); }
  }

  lemma {:induction false} NothingBefore(names: seq<string>, f: Fetch, k: nat, n: nat, name: string)
    requires Answered(names, f) && n <= k < |f.batches| && name in f.batches[k]
    ensures Lookup(AllRequirements(f, n), name) == Absent && Lookup(AllPhotos(f, n), name) == Absent
  {
    if n > 0 {
      NothingBefore(names, f, k, n - 1, name);
      SilentElsewhere(names, f, k, n - 1, name);
      LookupStep(f, n, name);
    }
  }

  lemma LookupStep(f: Fetch, n: nat, name: string)
    requires 0 < n <= |f.batches| && Silent(f.replies(n - 1), name)
    ensures Lookup(AllRequirements(f, n), name) == Lookup(AllRequirements(f, n - 1), name)
    ensures Lookup(AllPhotos(f, n), name) == Lookup(AllPhotos(f, n - 1), name)
  {
    hide Lookup, Named;
    var reply := f.replies(n - 1);
    assert AllRequirements(f, n - 1) + [] == AllRequirements(f, n - 1) && AllPhotos(f, n - 1) + [] == AllPhotos(f, n - 1);
    if reply.Complete? || reply.PhotosFailed? { LookupConcat(AllRequirements(f, n - 1), reply.requirements, name); }
    if reply.Complete? { LookupConcat(AllPhotos(f, n - 1), reply.photos, name); }
  }

  /** Looking an SKC up in all answers finds what its own batch was answered. */
  lemma {:induction false} LookupOwn(names: seq<string>, f: Fetch, k: nat, n: nat, name: string)
    requires Answered(names, f)
    requires k < n <= |f.batches| && name in f.batches[k] && f.replies(k).Complete?
    ensures Lookup(AllRequirements(f, n), name) == Lookup(f.replies(k).requirements, name)
    ensures Lookup(AllPhotos(f, n), name) == Lookup(f.replies(k).photos, name)
  {
    hide Lookup, Named, Silent, Answered, AllRequirements, AllPhotos;
    if n - 1 > k {
      LookupOwn(names, f, k, n - 1, name);
      SilentElsewhere(names, f, k, n - 1, name);
      LookupStep(f, n, name);
    } else {
      NothingBefore(names, f, k, k, name);
      LookupLast(f, k, name);
    }
  }

  lemma LookupLast(f: Fetch, k: nat, name: string)
    requires k < |f.batches| && f.replies(k).Complete?
    requires Lookup(AllRequirements(f, k), name) == Absent && Lookup(AllPhotos(f, k), name) == Absent
    ensures Lookup(AllRequirements(f, k + 1), name) == Lookup(f.replies(k).requirements, name)
    ensures Lookup(AllPhotos(f, k + 1), name) == Lookup(f.replies(k).photos, name)
  {
    hide Lookup, Named;
    var reply := f.replies(k);
    assert AllRequirements(f, k + 1) == AllRequirements(f, k) + reply.requirements;
    assert AllPhotos(f, k + 1) == AllPhotos(f, k) + reply.photos;
    LookupConcat(AllRequirements(f, k), reply.requirements, name);
    LookupConcat(AllPhotos(f, k), reply.photos, name);
    if !Named(reply.requirements, name) { LookupAbsent(reply.requirements, name); }
    if !Named(reply.photos, name) { LookupAbsent(reply.photos, name); }
  }

  lemma RowsOfBatch(names: seq<string>, f: Fetch, k: nat)
    requires Answered(names, f) && k < |f.batches| && f.replies(k).Complete?
    ensures var n := |f.batches|;
      RowsFor(f.batches[k], AllRequirements(f, n), AllPhotos(f, n)) == BatchRows(f, k)
  {
    hide AllRequirements, AllPhotos, Lookup, BuildRow;
    var n, batch := |f.batches|, f.batches[k];
    BatchNormal(names, k);
    NormalNames(batch);
    forall i | 0 <= i < |batch|
      ensures RowsFor(batch, AllRequirements(f, n), AllPhotos(f, n))[i] == BatchRows(f, k)[i]
    {
      LookupOwn(names, f, k, n, batch[i]);
    }
  }

  lemma {:induction false} RowsOfSuccesses(names: seq<string>, f: Fetch, m: nat)
    requires Answered(names, f) && m <= |f.batches|
    ensures var n := |f.batches|;
      RowsFor(Successes(f, m), AllRequirements(f, n), AllPhotos(f, n)) == AllBatchRows(f, m)
  {
    hide AllRequirements, AllPhotos, Answered, RowsFor, NormalizeRows;
    var n := |f.batches|;
    if m == 0 {
      RowsForNone(AllRequirements(f, n), AllPhotos(f, n));
    } else {
      var k := m - 1;
      RowsOfSuccesses(names, f, k);
      if f.replies(k).Complete? {
        RowsOfBatch(names, f, k);
        RowsForConcat(Successes(f, k), f.batches[k], AllRequirements(f, n), AllPhotos(f, n));
      } else {
        assert Successes(f, m) == Successes(f, k);
      }
    }
  }

  lemma RowsForNone(requirements: seq<(string, Answer<Requirement>)>, photos: seq<(string, Answer<Photo>)>)
    ensures RowsFor([], requirements, photos) == []
  {
  }

  lemma RowsForConcat(
      a: seq<string>, b: seq<string>, requirements: seq<(string, Answer<Requirement>)>, photos: seq<(string, Answer<Photo>)>)
    ensures RowsFor(a + b, requirements, photos) == RowsFor(a, requirements, photos) + RowsFor(b, requirements, photos)
  {
  }

  /** The rows returned at the end are the rows of the batches, one batch after the other. */
  lemma FinalRowsAreBatchRows(names: seq<string>, replies: nat -> Reply)
    requires OwnNames(Plan(names, replies))
    ensures var f := Plan(names, replies); FinalRows(f) == AllBatchRows(f, |f.batches|)
  {
    var f := Plan(names, replies);
    UniqueNamesNormal(names);
    OutcomesNormal(UniqueNames(names), f);
    NormalNames(Successes(f, |f.batches|));
    RowsOfSuccesses(UniqueNames(names), f, |f.batches|);
  }

  /** Merging batch by batch is one merge with the rows of all batches. */
  lemma {:induction false} CachedIsOneMerge(rows: Rows, f: Fetch, n: nat)
    requires 0 < n <= |f.batches|
    ensures CachedRows(rows, f, n) == MergeRows(rows, AllBatchRows(f, n))
  {
    if n == 1 {
      assert CachedRows(rows, f, 0) == rows && AllBatchRows(f, 0) == [];
      assert AllBatchRows(f, 1) == BatchRows(f, 0);
    } else {
      CachedIsOneMerge(rows, f, n - 1);
      MergeTwice(rows, AllBatchRows(f, n - 1), BatchRows(f, n - 1));
    }
  }

  /** In a selected or retry job the cached rows after the last batch equal one merge of the rows
      before the job with the returned rows; the closing merge changes nothing, not even the order. */
  lemma IncrementalIsOneShot(before: Record, names: seq<string>, replies: nat -> Reply)
    requires UniqueNames(names) != [] && OwnNames(Plan(names, replies))
    ensures var f := Plan(names, replies);
      && CachedRows(before.rows, f, |f.batches|) == MergeRows(before.rows, FinalRows(f))
      && AfterJob(before, names, replies, false).rows == CachedRows(before.rows, f, |f.batches|)
      && DistinctRows(AfterJob(before, names, replies, false).rows)
  {
    var f := Plan(names, replies);
    UniqueNamesNormal(names);
    ChunksFlatten(UniqueNames(names));
    FinalRowsAreBatchRows(names, replies);
    CachedIsOneMerge(before.rows, f, |f.batches|);
    FinalRowsSkcs(UniqueNames(names), f);
    MergeAgain(before.rows, FinalRows(f));
  }

  // ---------------------------------------------------------------- what a job leaves behind

  ghost function Names(names: seq<string>): set<string> { set s | s in names }

  lemma {:induction false} OutcomesSplit(f: Fetch, n: nat)
    requires n <= |f.batches|
    ensures multiset(Successes(f, n)) + multiset(Failures(f, n)) == multiset(Flatten(f.batches[..n]))
  {
    if n > 0 {
      OutcomesSplit(f, n - 1);
      assert f.batches[..n][..n - 1] == f.batches[..n - 1];
    }
  }

  /** Every name of the job either succeeded or failed, and none did both. */
  lemma OutcomesNormal(names: seq<string>, f: Fetch)
    requires Normal(names) && f.batches == Chunks(names)
    ensures var n := |f.batches|;
      && multiset(Successes(f, n)) + multiset(Failures(f, n)) == multiset(names)
      && Normal(Successes(f, n)) && Normal(Failures(f, n))
  {
    var n := |f.batches|;
    OutcomesSplit(f, n);
    assert f.batches[..n] == f.batches;
    ChunksFlatten(names);
    SubNormal(Successes(f, n), names);
    SubNormal(Failures(f, n), names);
  }

  lemma OutcomesPartition(names: seq<string>, f: Fetch)
    requires Normal(names) && f.batches == Chunks(names)
    ensures var n := |f.batches|;
      Names(Successes(f, n)) + Names(Failures(f, n)) == Names(names) && Names(Successes(f, n)) !! Names(Failures(f, n))
  {
    var n := |f.batches|;
    OutcomesNormal(names, f);
    var a, b := Successes(f, n), Failures(f, n);
    PartsPartition(a, b, names);
  }

  lemma PartsPartition(a: seq<string>, b: seq<string>, names: seq<string>)
    requires Normal(names) && multiset(a) + multiset(b) == multiset(names)
    ensures Names(a) + Names(b) == Names(names) && Names(a) !! Names(b)
  {
    forall s ensures s in Names(a) + Names(b) <==> s in Names(names) {
      assert s in a <==> s in multiset(a);
      assert s in b <==> s in multiset(b);
      assert s in names <==> s in multiset(names);
    }
    forall s | s in Names(a) ensures s !in Names(b) {
      NoDuplicatesCount(names, s);
      assert s in multiset(a);
      assert s in b <==> s in multiset(b);
    }
  }

  lemma RowsForSkcs(
      names: seq<string>, requirements: seq<(string, Answer<Requirement>)>, photos: seq<(string, Answer<Photo>)>)
    requires Normal(names)
    ensures var rows := NormalizeRows(names, requirements, photos); DistinctRows(rows) && Skcs(rows) == Names(names)
  {
    NormalNames(names);
    var rows := NormalizeRows(names, requirements, photos);
    forall s | s in Names(names) ensures s in Skcs(rows) {
      var i :| 0 <= i < |names| && names[i] == s;
      assert rows[i].skc == s;
    }
  }

  lemma FinalRowsSkcs(names: seq<string>, f: Fetch)
    requires Normal(names) && f.batches == Chunks(names)
    ensures DistinctRows(FinalRows(f)) && Skcs(FinalRows(f)) == Names(Successes(f, |f.batches|))
  {
    var n := |f.batches|;
    OutcomesNormal(names, f);
    RowsForSkcs(Successes(f, n), AllRequirements(f, n), AllPhotos(f, n));
  }

  lemma MergeRowsSkcs(rows: Rows, next: Rows)
    ensures DistinctRows(MergeRows(rows, next)) && Skcs(MergeRows(rows, next)) == Skcs(rows) + Skcs(next)
  {
    MergeIntoKeeps([], rows + next);
  }

  lemma {:induction false} CachedRowsSkcs(rows: Rows, names: seq<string>, f: Fetch, n: nat)
    requires Normal(names) && f.batches == Chunks(names) && n <= |f.batches|
    ensures Skcs(CachedRows(rows, f, n)) == Skcs(rows) + Names(Successes(f, n))
  {
    hide Normal, Chunks, MergeRows, NormalizeRows, DistinctRows;
    if n > 0 {
      CachedRowsSkcs(rows, names, f, n - 1);
      MergeRowsSkcs(CachedRows(rows, f, n - 1), BatchRows(f, n - 1));
      if f.replies(n - 1).Complete? {
        BatchNormal(names, n - 1);
        RowsForSkcs(f.batches[n - 1], f.replies(n - 1).requirements, f.replies(n - 1).photos);
      }
    }
  }

  /** Every reply of the job can be read, so the job stores its result. */
  predicate Stores(names: seq<string>, replies: nat -> Reply) {
    var f := Plan(names, replies);
    Readable(f, |f.batches|)
  }

  /** The record after a job, as sets: who has a row and who is listed as failed. */
  lemma JobOutcome(before: Record, names: seq<string>, replies: nat -> Reply, replaceRows: bool)
    requires UniqueNames(names) != [] && Stores(names, replies)
    ensures var f := Plan(names, replies); var after := AfterJob(before, names, replies, replaceRows);
      && after.failedSkcNames == Failures(f, |f.batches|) && Normal(after.failedSkcNames) && DistinctRows(after.rows)
      && Skcs(after.rows) == (if replaceRows then {} else Skcs(before.rows)) + Names(Successes(f, |f.batches|))
  {
    var f := Plan(names, replies);
    var n := |f.batches|;
    UniqueNamesNormal(names);
    OutcomesNormal(UniqueNames(names), f);
    UniqueIsIdentity(Failures(f, n));
    FinalRowsSkcs(UniqueNames(names), f);
    CachedRowsSkcs(before.rows, UniqueNames(names), f, n);
    MergeRowsSkcs(CachedRows(before.rows, f, n), FinalRows(f));
  }

  /** The record after a job that does not store its result. */
  lemma AbortedJob(before: Record, names: seq<string>, replies: nat -> Reply, replaceRows: bool)
    requires UniqueNames(names) != [] && !Stores(names, replies)
    ensures var f := Plan(names, replies); var after := AfterJob(before, names, replies, replaceRows);
      && after.failedSkcNames == before.failedSkcNames
      && Skcs(after.rows) == Skcs(before.rows) + Names(Successes(f, |f.batches|))
      && (DistinctRows(before.rows) ==> DistinctRows(after.rows))
  {
    var f := Plan(names, replies);
    UniqueNamesNormal(names);
    CachedRowsSkcs(before.rows, UniqueNames(names), f, |f.batches|);
    if DistinctRows(before.rows) { CachedRowsDistinct(before.rows, f, |f.batches|); }
  }

  lemma CachedRowsDistinct(rows: Rows, f: Fetch, n: nat)
    requires n <= |f.batches| && DistinctRows(rows)
    ensures DistinctRows(CachedRows(rows, f, n))
  {
    hide DistinctRows, MergeRows, BatchRows;
    if n > 0 { MergeRowsSkcs(CachedRows(rows, f, n - 1), BatchRows(f, n - 1)); }
  }

  // ---------------------------------------------------------------- the sync route over whole runs

  /** One request to the sync route, and what the platform answers to the batches of its job. */
  datatype Call = Call(skcList: seq<string>, retryFailed: bool, replies: nat -> Reply)

  /** The trimmed, non-blank names asked for; repetitions stay. */
  function Requested(call: Call): seq<string> {
    var trimmed := seq(|call.skcList|, i requires 0 <= i < |call.skcList| => Trim(call.skcList[i]));
    Filter((s: string) => s != "", trimmed)
  }

  function SkcNames(before: Record, products: seq<string>, call: Call): seq<string> {
    Unique(if Requested(call) != [] then Requested(call)
           else if call.retryFailed then before.failedSkcNames
           else Filter((s: string) => s != "", products))
  }

  /** The route refuses no names and too many names; else it runs a job. Rows are replaced by a full
      sync only. */
  function Sync(before: Record, products: seq<string>, call: Call): Record {
    var names := SkcNames(before, products, call);
    if names == [] || |names| > MAX_SKC_NAMES then before
    else AfterJob(before, names, call.replies, Requested(call) == [] && !call.retryFailed)
  }

  /** The sync route from the moment its body is read, on a store where no job runs: `seen` is the
      record it read before. A job starts from that record, which is written back. */
  method HandleSync(store: ComplianceStore, seen: Record, products: seq<string>, call: Call)
    modifies store
    ensures var names := SkcNames(seen, products, call);
      store.Contents() == if names == [] || |names| > MAX_SKC_NAMES then old(store.Contents()) else Sync(seen, products, call)
  {
    var names := SkcNames(seen, products, call);
    if names == [] || |names| > MAX_SKC_NAMES {
      return;
    }
    store.rows, store.failedSkcNames := seen.rows, seen.failedSkcNames;
    store.RunComplianceJob(names, call.replies, Requested(call) == [] && !call.retryFailed);
  }

  /** The SKCs with a row and the failed SKCs split the SKCs `all`, each listed once. */
  ghost predicate Partitioned(record: Record, all: set<string>) {
    && DistinctRows(record.rows) && Normal(record.failedSkcNames)
    && Skcs(record.rows) + Names(record.failedSkcNames) == all
    && Skcs(record.rows) !! Names(record.failedSkcNames)
  }

  /** The distinct SKCs of the store's products. */
  function ProductNames(products: seq<string>): seq<string> { Unique(Filter((s: string) => s != "", products)) }

  /** A full sync that has a usable name and whose replies can be read leaves its SKCs split, whatever
      was cached before. */
  lemma FullSyncPartitions(before: Record, products: seq<string>, call: Call)
    requires Requested(call) == [] && !call.retryFailed
    requires var names := ProductNames(products);
      |names| <= MAX_SKC_NAMES && UniqueNames(names) != [] && Stores(names, call.replies)
    ensures Partitioned(Sync(before, products, call), Names(UniqueNames(ProductNames(products))))
  {
    var names := ProductNames(products);
    assert UniqueNames([]) == [];
    JobOutcome(before, names, call.replies, true);
    UniqueNamesNormal(names);
    OutcomesPartition(UniqueNames(names), Plan(names, call.replies));
  }

  /** It does so whatever was cached before exactly when its replies can be read: with a null row in
      one of them, a store without a record gets no failure list. */
  lemma FullSyncPartitionsIff(products: seq<string>, call: Call)
    requires Requested(call) == [] && !call.retryFailed
    requires var names := ProductNames(products); |names| <= MAX_SKC_NAMES && UniqueNames(names) != []
    ensures (forall before :: Partitioned(Sync(before, products, call), Names(UniqueNames(ProductNames(products))))) <==>
            Stores(ProductNames(products), call.replies)
  {
    hide Sync, UniqueNames, Partitioned;
    var names := ProductNames(products);
    if Stores(names, call.replies) {
      forall before ensures Partitioned(Sync(before, products, call), Names(UniqueNames(names))) {
        FullSyncPartitions(before, products, call);
      }
    } else {
      NullRowLosesNames(products, call);
    }
  }

  lemma NullRowLosesNames(products: seq<string>, call: Call)
    requires Requested(call) == [] && !call.retryFailed
    requires var names := ProductNames(products);
      |names| <= MAX_SKC_NAMES && UniqueNames(names) != [] && !Stores(names, call.replies)
    ensures !Partitioned(Sync(Record([], []), products, call), Names(UniqueNames(ProductNames(products))))
  {
    var names := ProductNames(products);
    var f := Plan(names, call.replies);
    var n := |f.batches|;
    assert UniqueNames([]) == [];
    AbortedJob(Record([], []), names, call.replies, true);
    UniqueNamesNormal(names);
    OutcomesPartition(UniqueNames(names), f);
    var i: nat :| i < n && f.replies(i).Unreadable?;
    FailedBatch(UniqueNames(names), f, i);
  }

  /** The SKCs of a batch without a complete answer are listed as failed, and there are some. */
  lemma FailedBatch(names: seq<string>, f: Fetch, i: nat)
    requires Normal(names) && f.batches == Chunks(names) && i < |f.batches| && !f.replies(i).Complete?
    ensures Names(Failures(f, |f.batches|)) != {}
  {
    hide Normal;
    BatchNotEmpty(names, i);
    FailuresGrow(f, i + 1, |f.batches|);
    var s := f.batches[i][0];
    assert Failures(f, i + 1) == Failures(f, i) + f.batches[i];
    assert Failures(f, i + 1)[|Failures(f, i)|] == s;
    assert s in Failures(f, |f.batches|);
    assert s in Names(Failures(f, |f.batches|));
  }

  lemma {:induction false} BatchNotEmpty(names: seq<string>, i: nat)
    requires i < |Chunks(names)|
    ensures Chunks(names)[i] != []
    decreases i
  {
    if i > 0 { BatchNotEmpty(names[BATCH_SIZE..], i - 1); }
  }

  lemma {:induction false} FailuresGrow(f: Fetch, m: nat, n: nat)
    requires m <= n <= |f.batches|
    ensures Failures(f, m) <= Failures(f, n)
  {
    if m < n { FailuresGrow(f, m, n - 1); }
  }

  ghost predicate IsRetry(call: Call) { Requested(call) == [] && call.retryFailed }

  /** A retry of the failures keeps them apart from the rows: it is refused, or its replies can be
      read, or none of its batches was answered. */
  predicate KeepsApart(before: Record, call: Call) {
    var names := before.failedSkcNames;
    var f := Plan(names, call.replies);
    |names| > MAX_SKC_NAMES || Stores(names, call.replies) || forall i: nat | i < |f.batches| :: !f.replies(i).Complete?
  }

  lemma RetryIsJob(before: Record, products: seq<string>, call: Call)
    requires IsRetry(call) && Normal(before.failedSkcNames)
    ensures var names := before.failedSkcNames;
      Sync(before, products, call) == if names == [] || |names| > MAX_SKC_NAMES then before
                                      else AfterJob(before, names, call.replies, false)
    ensures UniqueNames(before.failedSkcNames) == before.failedSkcNames
  {
    UniqueIsIdentity(before.failedSkcNames);
    NormalNames(before.failedSkcNames);
    hide Normal, UniqueNames, AfterJob;
  }

  /** In a retry nobody loses a row, nobody newly fails and nobody gets lost, even if its result is
      not stored. */
  lemma RetryOutcome(before: Record, products: seq<string>, call: Call)
    requires IsRetry(call) && Normal(before.failedSkcNames)
    ensures var after := Sync(before, products, call);
      && Normal(after.failedSkcNames) && multiset(after.failedSkcNames) <= multiset(before.failedSkcNames)
      && Skcs(before.rows) <= Skcs(after.rows) && (DistinctRows(before.rows) ==> DistinctRows(after.rows))
      && Skcs(after.rows) + Names(after.failedSkcNames) == Skcs(before.rows) + Names(before.failedSkcNames)
  {
    var names := before.failedSkcNames;
    hide Normal, UniqueNames, Chunks, AfterJob, DistinctRows, Plan, Stores, Successes, Failures, Sync, Skcs, Names, IsRetry;
    RetryIsJob(before, products, call);
    if names != [] && |names| <= MAX_SKC_NAMES {
      RetryParts(before, names, call.replies);
      if Stores(names, call.replies) {
        JobOutcome(before, names, call.replies, false);
      } else {
        AbortedJob(before, names, call.replies, false);
      }
    }
  }

  lemma RetryParts(before: Record, names: seq<string>, replies: nat -> Reply)
    requires Normal(names) && names == before.failedSkcNames
    ensures var f := Plan(names, replies); var n := |f.batches|;
      && Normal(Failures(f, n)) && multiset(Failures(f, n)) <= multiset(names)
      && Names(Successes(f, n)) + Names(Failures(f, n)) == Names(names)
      && Names(Successes(f, n)) !! Names(Failures(f, n))
      && (Names(Successes(f, n)) == {} <==> forall i: nat | i < n :: !f.replies(i).Complete?)
  {
    var f := Plan(names, replies);
    PlanBatches(names, replies);
    OutcomesNormal(names, f);
    OutcomesPartition(names, f);
    NoCompleteIff(names, f);
  }

  /** A retry keeps the split exactly when its replies can be read, if there are batches and one of
      them is answered: else who got a row is still listed as failed. */
  lemma RetryKeepsPartitionIff(before: Record, products: seq<string>, call: Call, all: set<string>)
    requires IsRetry(call) && Partitioned(before, all)
    ensures Partitioned(Sync(before, products, call), all) <==> KeepsApart(before, call)
  {
    var names := before.failedSkcNames;
    UniqueIsIdentity(names);
    NormalNames(names);
    RetryOutcome(before, products, call);
    if names != [] && |names| <= MAX_SKC_NAMES {
      hide Normal, UniqueNames, Chunks, AfterJob, DistinctRows, Plan, Successes, Failures;
      RetryParts(before, names, call.replies);
      if Stores(names, call.replies) {
        JobOutcome(before, names, call.replies, false);
      } else {
        AbortedJob(before, names, call.replies, false);
      }
    } else if names == [] {
      NoBatches(call.replies);
    }
  }

  lemma NoBatches(replies: nat -> Reply)
    ensures Plan([], replies).batches == []
  {
  }

  lemma PlanBatches(names: seq<string>, replies: nat -> Reply)
    requires Normal(names)
    ensures Plan(names, replies).batches == Chunks(names) && Plan(names, replies).replies == replies
  {
    NormalNames(names);
  }

  /** Nobody succeeds exactly when no batch is answered. */
  lemma NoCompleteIff(names: seq<string>, f: Fetch)
    requires f.batches == Chunks(names)
    ensures Names(Successes(f, |f.batches|)) == {} <==> forall i: nat | i < |f.batches| :: !f.replies(i).Complete?
  {
    SuccessesEmptyIff(names, f, |f.batches|);
    assert Successes(f, |f.batches|) != [] ==> Successes(f, |f.batches|)[0] in Names(Successes(f, |f.batches|));
  }

  lemma {:induction false} SuccessesEmptyIff(names: seq<string>, f: Fetch, n: nat)
    requires f.batches == Chunks(names) && n <= |f.batches|
    ensures Successes(f, n) == [] <==> forall i: nat | i < n :: !f.replies(i).Complete?
  {
    if n > 0 {
      SuccessesEmptyIff(names, f, n - 1);
      BatchNotEmpty(names, n - 1);
    }
  }

  /** Each SKC of `all` has a row or is listed as failed, and nobody else. */
  ghost predicate Covers(record: Record, all: set<string>) { Skcs(record.rows) + Names(record.failedSkcNames) == all }

  function Retries(before: Record, products: seq<string>, calls: seq<Call>): Record {
    if calls == [] then before
    else Sync(Retries(before, products, calls[..|calls| - 1]), products, calls[|calls| - 1])
  }

  lemma RetriesSnoc(before: Record, products: seq<string>, calls: seq<Call>, i: nat)
    requires i < |calls|
    ensures Retries(before, products, calls[..i + 1]) == Sync(Retries(before, products, calls[..i]), products, calls[i])
  {
    assert calls[..i + 1][..i] == calls[..i];
  }

  /** Each retry keeps failures and rows apart. */
  ghost predicate AllKeepApart(before: Record, products: seq<string>, calls: seq<Call>) {
    forall i :: 0 <= i < |calls| ==> KeepsApart(Retries(before, products, calls[..i]), calls[i])
  }

  lemma {:induction false} RetriesKeepPartition(
      before: Record, products: seq<string>, calls: seq<Call>, all: set<string>, n: nat)
    requires (forall i :: 0 <= i < |calls| ==> IsRetry(calls[i])) && Partitioned(before, all)
    requires AllKeepApart(before, products, calls) && n <= |calls|
    ensures var after := Retries(before, products, calls[..n]);
      Partitioned(after, all)
  {
    hide Partitioned, KeepsApart, Sync, IsRetry;
    if n > 0 {
      RetriesKeepPartition(before, products, calls, all, n - 1);
      RetriesSnoc(before, products, calls, n - 1);
      RetryKeepsPartitionIff(Retries(before, products, calls[..n - 1]), products, calls[n - 1], all);
    }
  }

  /** Retries only ever shrink the failure list, add to the rows and lose nobody. */
  lemma {:induction false} RetriesShrink(before: Record, products: seq<string>, calls: seq<Call>)
    requires (forall i :: 0 <= i < |calls| ==> IsRetry(calls[i])) && Normal(before.failedSkcNames)
    ensures var after := Retries(before, products, calls);
      && Normal(after.failedSkcNames) && multiset(after.failedSkcNames) <= multiset(before.failedSkcNames)
      && Skcs(before.rows) <= Skcs(after.rows)
      && Skcs(after.rows) + Names(after.failedSkcNames) == Skcs(before.rows) + Names(before.failedSkcNames)
  {
    hide Sync, IsRetry, Normal;
    if calls != [] {
      var n := |calls| - 1;
      RetriesShrink(before, products, calls[..n]);
      RetryOutcome(Retries(before, products, calls[..n]), products, calls[n]);
    }
  }

  /** Whatever was split stays split through retries exactly when each of them keeps it. */
  lemma RetriesKeepPartitionIff(before: Record, products: seq<string>, calls: seq<Call>, all: set<string>)
    requires (forall i :: 0 <= i < |calls| ==> IsRetry(calls[i])) && Partitioned(before, all)
    ensures (forall n :: 0 <= n <= |calls| ==> Partitioned(Retries(before, products, calls[..n]), all)) <==>
            AllKeepApart(before, products, calls)
  {
    hide Partitioned, KeepsApart, Sync, IsRetry;
    if AllKeepApart(before, products, calls) {
      forall n | 0 <= n <= |calls| ensures Partitioned(Retries(before, products, calls[..n]), all) {
        RetriesKeepPartition(before, products, calls, all, n);
      }
    }
    if forall n :: 0 <= n <= |calls| ==> Partitioned(Retries(before, products, calls[..n]), all) {
      forall i | 0 <= i < |calls| ensures KeepsApart(Retries(before, products, calls[..i]), calls[i]) {
        RetriesSnoc(before, products, calls, i);
        RetryKeepsPartitionIff(Retries(before, products, calls[..i]), products, calls[i], all);
      }
    }
  }

  /** After a full sync whose replies can be read the rows and the failure list split its SKCs, and
      they do so after each of the retries that follow, whatever fails on the way, exactly when each
      retry keeps them apart. In any case the failure list only ever shrinks and nobody is lost. */
  lemma RowsAndFailuresPartition(before: Record, products: seq<string>, full: Call, retries: seq<Call>)
    requires Requested(full) == [] && !full.retryFailed
    requires var names := ProductNames(products);
      |names| <= MAX_SKC_NAMES && UniqueNames(names) != [] && Stores(names, full.replies)
    requires forall i :: 0 <= i < |retries| ==> IsRetry(retries[i])
    ensures var first := Sync(before, products, full); var all := Names(UniqueNames(ProductNames(products)));
      && Partitioned(first, all)
      && ((forall n :: 0 <= n <= |retries| ==> Partitioned(Retries(first, products, retries[..n]), all)) <==>
            AllKeepApart(first, products, retries))
      && multiset(Retries(first, products, retries).failedSkcNames) <= multiset(first.failedSkcNames)
      && Covers(Retries(first, products, retries), all)
  {
    hide Sync, UniqueNames, Stores, IsRetry, AllKeepApart;
    var first, all := Sync(before, products, full), Names(UniqueNames(ProductNames(products)));
    FullSyncPartitions(before, products, full);
    RetriesKeepPartitionIff(first, products, retries, all);
    RetriesShrink(first, products, retries);
  }

  /** No reply has a null row. */
  ghost predicate NoNullRow(replies: nat -> Reply) { forall i: nat :: !replies(i).Unreadable? }

  /** A job on selected SKCs replaces the failure list. Whatever the platform answers, null rows apart,
      it keeps the split exactly when it covers every SKC that had failed and none that has a row. */
  lemma SelectedKeepsPartitionIff(
      before: Record, products: seq<string>, skcList: seq<string>, retryFailed: bool, all: set<string>)
    requires Partitioned(before, all)
    requires Selects(before, products, Call(skcList, retryFailed, NONE_ANSWERED))
    ensures var names := Names(UniqueNames(SkcNames(before, products, Call(skcList, retryFailed, NONE_ANSWERED))));
      (forall replies :: NoNullRow(replies) ==>
         Partitioned(Sync(before, products, Call(skcList, retryFailed, replies)), all + names)) <==>
        Names(before.failedSkcNames) <= names && names !! Skcs(before.rows)
  {
    hide Partitioned, UniqueNames, Sync;
    var names := Names(UniqueNames(SkcNames(before, products, Call(skcList, retryFailed, NONE_ANSWERED))));
    forall replies: nat -> Reply | NoNullRow(replies)
      ensures Partitioned(Sync(before, products, Call(skcList, retryFailed, replies)), all + names) <==>
        && Names(before.failedSkcNames) <= names
        && Names(Sync(before, products, Call(skcList, retryFailed, replies)).failedSkcNames) !! Skcs(before.rows)
      ensures Names(Sync(before, products, Call(skcList, retryFailed, replies)).failedSkcNames) <= names
    {
      SameNames(before, products, Call(skcList, retryFailed, NONE_ANSWERED), replies);
      SelectedOnce(before, products, Call(skcList, retryFailed, replies), all);
    }
    NoneAnsweredFails(before, products, Call(skcList, retryFailed, NONE_ANSWERED));
  }

  /** A request for SKCs that a job takes up. */
  ghost predicate Selects(before: Record, products: seq<string>, call: Call) {
    var names := SkcNames(before, products, call);
    Requested(call) != [] && |names| <= MAX_SKC_NAMES && names != [] && UniqueNames(names) != []
  }

  const NONE_ANSWERED: nat -> Reply := (i: nat) => RequirementsFailed

  lemma SameNames(before: Record, products: seq<string>, call: Call, replies: nat -> Reply)
    ensures Requested(call.(replies := replies)) == Requested(call)
    ensures SkcNames(before, products, call.(replies := replies)) == SkcNames(before, products, call)
  {
    var other := call.(replies := replies);
    assert seq(|other.skcList|, i requires 0 <= i < |other.skcList| => Trim(other.skcList[i]))
        == seq(|call.skcList|, i requires 0 <= i < |call.skcList| => Trim(call.skcList[i]));
  }

  /** One answered job: whether the split is kept depends on who failed. */
  lemma SelectedOnce(before: Record, products: seq<string>, call: Call, all: set<string>)
    requires Partitioned(before, all) && Selects(before, products, call) && NoNullRow(call.replies)
    ensures var names := Names(UniqueNames(SkcNames(before, products, call))); var after := Sync(before, products, call);
      && (Partitioned(after, all + names) <==>
            Names(before.failedSkcNames) <= names && Names(after.failedSkcNames) !! Skcs(before.rows))
      && Names(after.failedSkcNames) <= names
  {
    hide UniqueNames, AfterJob, Normal, DistinctRows, Successes, Failures;
    var raw := SkcNames(before, products, call);
    JobOutcome(before, raw, call.replies, false);
    UniqueNamesNormal(raw);
    OutcomesPartition(UniqueNames(raw), Plan(raw, call.replies));
  }

  /** When no batch is answered, every name of the job is listed as failed. */
  lemma NoneAnsweredFails(before: Record, products: seq<string>, call: Call)
    requires Selects(before, products, call) && call.replies == NONE_ANSWERED
    ensures Names(Sync(before, products, call).failedSkcNames) == Names(UniqueNames(SkcNames(before, products, call)))
  {
    hide UniqueNames, AfterJob, Normal, DistinctRows, Failures;
    var raw := SkcNames(before, products, call);
    JobOutcome(before, raw, call.replies, false);
    UniqueNamesNormal(raw);
    OutcomesPartition(UniqueNames(raw), Plan(raw, call.replies));
    NoSuccesses(Plan(raw, call.replies), |Plan(raw, call.replies).batches|);
  }

  lemma {:induction false} NoSuccesses(f: Fetch, n: nat)
    requires n <= |f.batches| && f.replies == NONE_ANSWERED
    ensures Successes(f, n) == []
  {
    if n > 0 { NoSuccesses(f, n - 1); }
  }

  /** With "a" listed as failed, a job on "b" alone loses "a", whatever the platform answers. */
  lemma SelectedJobLosesFailure(replies: nat -> Reply)
    requires NoNullRow(replies)
    ensures var before := Record([], ["a"]); var after := Sync(before, [], Call(["b"], false, replies));
      && Partitioned(before, {"a"})
      && Skcs(after.rows) + Names(after.failedSkcNames) == {"b"}
  {
    var before, call := Record([], ["a"]), Call(["b"], false, replies);
    assert Trim("a") == "a" && Trim("b") == "b";
    assert Partitioned(before, {"a"}) && Skcs(before.rows) == {};
    SelectsOnly(before, call);
    hide Sync, AfterJob, Skcs, Names, Partitioned;
    JobOfOne(before, "b", replies);
  }

  lemma SelectsOnly(before: Record, call: Call)
    requires call.skcList == ["b"]
    ensures Sync(before, [], call) == AfterJob(before, ["b"], call.replies, false)
  {
    OnlyRequested(call);
    UniqueIsIdentity(["b"]);
    hide AfterJob, Requested;
  }

  /** A job on one SKC gives it a row or lists it as failed, and lists nobody else. */
  lemma JobOfOne(before: Record, name: string, replies: nat -> Reply)
    requires Normal([name]) && NoNullRow(replies)
    ensures var after := AfterJob(before, [name], replies, false);
      Skcs(after.rows) + Names(after.failedSkcNames) == Skcs(before.rows) + {name}
  {
    NormalNames([name]);
    assert Names([name]) == {name};
    var f := Plan([name], replies);
    assert f.batches == Chunks([name]);
    hide UniqueNames, AfterJob, Normal, Chunks, DistinctRows, Skcs, Names, Successes, Failures, Plan;
    JobOutcome(before, [name], replies, false);
    OutcomesPartition([name], f);
  }

  lemma OnlyRequested(call: Call)
    requires call.skcList == ["b"]
    ensures Requested(call) == ["b"]
  {
    var trimmed := seq(|call.skcList|, i requires 0 <= i < |call.skcList| => Trim(call.skcList[i]));
    assert trimmed == ["b"];
    assert ["b"][..0] == [] && Filter((s: string) => s != "", ["b"][..0]) == [];
  }

  // ---------------------------------------------------------------- two batches, one with a null row

  /** Twenty-one SKC names: the fewest that make two batches. */
  const MANY: seq<string> := seq(21, i requires 0 <= i < 21 => [('a' as int + i) as char])

  lemma ManyNames()
    ensures |MANY| == 21 && Normal(MANY) && Chunks(MANY) == [MANY[..20], MANY[20..]]
    ensures Chunks(MANY[20..]) == [MANY[20..]]
  {
    forall s | s in MANY ensures s != "" && Trim(s) == s {
      var i :| 0 <= i < |MANY| && MANY[i] == s;
      assert s[0] as int == 97 + i;
    }
    forall i, j | 0 <= i < j < 21 ensures MANY[i] != MANY[j] {
      assert MANY[i][0] as int == 97 + i && MANY[j][0] as int == 97 + j;
    }
  }

  lemma {:induction false} ManySize(n: nat)
    requires n <= 21
    ensures |Names(MANY[..n])| == n
  {
    ManyNames();
    if n == 0 {
      assert Names(MANY[..0]) == {};
    } else {
      ManySize(n - 1);
      assert MANY[..n] == MANY[..n - 1] + [MANY[n - 1]];
      assert Names(MANY[..n]) == Names(MANY[..n - 1]) + {MANY[n - 1]};
      assert MANY[n - 1] !in MANY[..n - 1];
    }
  }

  /** A full sync with a null row in its only reply leaves a store without a record as it was: the SKC
      has no row and is not listed. */
  lemma NullRowSyncLosesSkc()
    ensures var after := Sync(Record([], []), ["a"], Call([], false, (i: nat) => Unreadable));
      Skcs(after.rows) == {} && after.failedSkcNames == []
  {
    var call := Call([], false, (i: nat) => Unreadable);
    assert Trim("a") == "a";
    NormalNames(["a"]);
    UniqueIsIdentity(["a"]);
    assert ["a"][..0] == [] && Filter((s: string) => s != "", ["a"][..0]) == [];
    assert Filter((s: string) => s != "", ["a"]) == ["a"];
    var f := Plan(["a"], call.replies);
    assert f.batches == [["a"]] && f.replies(0).Unreadable?;
    assert Successes(f, 0) == [] && Successes(f, 1) == [];
    assert Requested(call) == [];
    hide AfterJob, UniqueNames, Chunks, Skcs, Plan, Requested, DistinctRows;
    assert Sync(Record([], []), ["a"], call) == AfterJob(Record([], []), ["a"], call.replies, true);
    AbortedJob(Record([], []), ["a"], call.replies, true);
    assert Skcs([]) == {} by { NoSkcs(); }
  }

  lemma NoSkcs()
    ensures Skcs([]) == {}
  {
  }

  /** A retry of two batches, the second with a null row: the SKCs of the first one get rows and all
      stay listed as failed. */
  lemma NullRowRetryKeepsListing(products: seq<string>)
    ensures var after := Sync(Record([], MANY), products, Call([], true, FIRST_ONLY));
      Skcs(after.rows) == Names(MANY[..20]) && after.failedSkcNames == MANY
  {
    var before, call := Record([], MANY), Call([], true, FIRST_ONLY);
    ManyNames();
    UniqueIsIdentity(MANY);
    PlanBatches(MANY, FIRST_ONLY);
    NormalNames(MANY);
    assert Requested(call) == [];
    var f := Plan(MANY, FIRST_ONLY);
    assert f.replies(1).Unreadable?;
    assert Successes(f, 0) == [] && Successes(f, 1) == MANY[..20] && Successes(f, 2) == MANY[..20];
    NoSkcs();
    hide AfterJob, UniqueNames, Chunks, Skcs, Plan, Requested, DistinctRows, Normal;
    AbortedJob(before, MANY, FIRST_ONLY, false);
  }

  const FIRST_ONLY: nat -> Reply := (i: nat) => if i == 0 then Complete([], []) else Unreadable
}
