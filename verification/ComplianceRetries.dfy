/** Retries of failed SKCs in any interleaving with other requests and product syncs: whether every
    SKC keeps its row or its place in the failure list, and whether the two stay apart. */
module ComplianceRetries {
  import opened JsStrings
  import opened ComplianceSync
  import opened ComplianceRuns
  import opened ComplianceJobs

  /** A request to the sync route asks for a retry. */
  ghost predicate StartsRetry(a: Action) { a.Start? ==> IsRetry(CallOf(a.body, [])) }

  ghost predicate AllRetry(actions: seq<Action>) {
    forall k :: 0 <= k < |actions| ==> StartsRetry(actions[k])
  }

  /** Only names of `most` are listed as failed. */
  ghost predicate Listed(record: Record, most: seq<string>) {
    Normal(record.failedSkcNames) && multiset(record.failedSkcNames) <= multiset(most)
  }

  /** The names that a running retry works on: those that had failed in the record it had read. */
  function Retried(job: Job): seq<string>
    requires job.Job?
  {
    job.seen.record.failedSkcNames
  }

  /** Those of them that did not succeed so far. */
  ghost function Open(job: Job): set<string>
    requires job.Job? && |job.done| <= |FetchOf(job).batches|
  {
    Names(Retried(job)) - Names(Successes(FetchOf(job), |job.done|))
  }

  /** Whatever was read at any time lists names of `most` only, and the running job is a retry. */
  ghost predicate RetryInv(s: State, most: seq<string>) {
    && Planned(s) && Listed(s.record, most)
    && (forall id :: id in s.arrivals ==> Listed(s.arrivals[id].record, most))
    && (s.job.Job? ==> Listed(s.job.seen.record, most) && IsRetry(CallOf(s.job.body, [])))
  }

  // ---------------------------------------------------------------- the steps of a retry, as sets

  lemma RetryBatches(s: State, most: seq<string>)
    requires RetryInv(s, most) && s.job.Job?
    ensures s.job.names == Retried(s.job) == UniqueNames(s.job.names)
    ensures FetchOf(s.job).batches == Chunks(Retried(s.job)) && !IsFull(s.job.body)
    ensures Normal(Retried(s.job)) && Retried(s.job) != []
  {
    hide Chunks, UniqueNames, Normal, NamesOf;
    RetryNames(s.job.seen, s.job.body);
  }

  lemma {:induction false} SuccessesPrefix(batches: seq<seq<string>>, done: seq<Reply>, reply: Reply, n: nat)
    requires n <= |done| && n <= |batches|
    ensures Successes(Fetch(batches, Replies(done + [reply])), n) == Successes(Fetch(batches, Replies(done)), n)
  {
    if n > 0 {
      SuccessesPrefix(batches, done, reply, n - 1);
      assert Replies(done + [reply])(n - 1) == Replies(done)(n - 1);
    }
  }

  /** A batch that is answered gives its SKCs a row and closes them; another batch changes nothing. */
  lemma BatchSets(s: State, reply: Reply, most: seq<string>)
    requires RetryInv(s, most) && s.job.Job? && |s.job.done| < |FetchOf(s.job).batches|
    ensures var t := Step(s, Batch(reply));
      var batch := if reply.Complete? then Names(FetchOf(s.job).batches[|s.job.done|]) else {};
      && t.job.Job? && t.job == s.job.(done := s.job.done + [reply]) && t.arrivals == s.arrivals
      && FetchOf(t.job).batches == FetchOf(s.job).batches
      && t.record.failedSkcNames == s.record.failedSkcNames
      && Skcs(t.record.rows) == Skcs(s.record.rows) + batch
      && Open(t.job) == Open(s.job) - batch && batch <= Names(Retried(s.job))
  {
    hide MergeRows, NormalizeRows, Chunks, UniqueNames, NamesOf, Normal, DistinctRows, Skcs;
    RetryBatches(s, most);
    var t := Step(s, Batch(reply));
    var n, f := |s.job.done|, FetchOf(t.job);
    MergeRowsSkcs(s.record.rows, BatchRows(f, n));
    SuccessesPrefix(f.batches, s.job.done, reply, n);
    assert f.replies(n) == reply;
    assert Successes(f, n + 1) == Successes(f, n) + if reply.Complete? then f.batches[n] else [];
    BatchRowsSkcs(Retried(s.job), f, n);
    if reply.Complete? {
      NamesOfConcat(Successes(f, n), f.batches[n]);
      BatchPart(Retried(s.job), n);
    } else {
      assert Skcs([]) == {} by { NoSkcs(); }
    }
  }

  lemma NamesOfConcat(a: seq<string>, b: seq<string>)
    ensures Names(a + b) == Names(a) + Names(b)
  {
  }

  lemma BatchRowsSkcs(names: seq<string>, f: Fetch, i: nat)
    requires Normal(names) && f.batches == Chunks(names) && i < |f.batches|
    ensures Skcs(BatchRows(f, i)) == if f.replies(i).Complete? then Names(f.batches[i]) else {}
  {
    if f.replies(i).Complete? {
      BatchNormal(names, i);
      RowsForSkcs(f.batches[i], f.replies(i).requirements, f.replies(i).photos);
    }
  }

  lemma BatchPart(names: seq<string>, i: nat)
    requires i < |Chunks(names)|
    ensures Names(Chunks(names)[i]) <= Names(names)
  {
    ChunksFlatten(names);
    FlattenMember(Chunks(names), i);
    forall s | s in Chunks(names)[i] ensures s in names {
      assert s in multiset(Chunks(names)[i]);
      assert s in multiset(names);
    }
  }

  /** A retry that ends and can be stored leaves who is still open as the failure list; a null row
      leaves the record as it is. */
  lemma CloseSets(s: State, most: seq<string>)
    requires RetryInv(s, most) && Closes(s)
    ensures var f := FetchOf(s.job); var n := |f.batches|; var t := Step(s, Close);
      && t.job == NoJob && t.arrivals == s.arrivals
      && (!Readable(f, n) ==> t.record == s.record)
      && (Readable(f, n) ==>
            && Skcs(t.record.rows) == Skcs(s.record.rows) + Names(Successes(f, n)) && DistinctRows(t.record.rows)
            && t.record.failedSkcNames == Failures(f, n) && Listed(t.record, most)
            && Names(t.record.failedSkcNames) == Open(s.job))
      && Names(Successes(f, n)) + Open(s.job) == Names(Retried(s.job))
  {
    hide MergeRows, NormalizeRows, Chunks, UniqueNames, NamesOf, DistinctRows, Skcs, Requested;
    hide Successes, Failures, FinalRows;
    RetryBatches(s, most);
    var names, f := Retried(s.job), FetchOf(s.job);
    var n := |f.batches|;
    NoBatchesIff(names);
    OutcomesNormal(names, f);
    OutcomesPartition(names, f);
    if Readable(f, n) {
      FinalRowsSkcs(names, f);
      MergeRowsSkcs(s.record.rows, FinalRows(f));
      UniqueIsIdentity(Failures(f, n));
    }
  }

  lemma RetryStep(s: State, a: Action, most: seq<string>)
    requires RetryInv(s, most) && (StartsRetry(a) || s.job.Job?)
    ensures RetryInv(Step(s, a), most)
  {
    hide Listed, NamesOf, MergeRows, BatchRows, Requested, Skcs, DistinctRows;
    match a {
      case Batch(reply) =>
        if s.job.Job? && |s.job.done| < |FetchOf(s.job).batches| {
          BatchSets(s, reply, most);
          SameList(s.record, Step(s, a).record, most);
        }
      case Close => if Closes(s) { CloseSets(s, most); }
      case _ =>
    }
  }

  lemma SameList(a: Record, b: Record, most: seq<string>)
    requires Listed(a, most) && a.failedSkcNames == b.failedSkcNames
    ensures Listed(b, most)
  {
  }

  // ---------------------------------------------------------------- nobody gets lost

  /** Whatever was read at any time covers the SKCs, and so do the record now and the record that the
      running retry will leave: its names will have a row or be listed, the others need a row. */
  ghost predicate CoverInv(s: State, all: set<string>) {
    && Covers(s.record, all)
    && (forall id :: id in s.arrivals ==> Covers(s.arrivals[id].record, all))
    && (s.job.Job? ==> Covers(s.job.seen.record, all) && Skcs(s.record.rows) + Names(Retried(s.job)) == all)
  }

  /** A product sync that ends while a retry runs writes back a record in which only SKCs are without
      a row that the retry works on. */
  ghost predicate KeepsCover(s: State, a: Action) {
    a.Restore? && a.id in s.arrivals && s.job.Job? ==>
      var was := s.arrivals[a.id].record;
      Names(was.failedSkcNames) <= Skcs(was.rows) + Names(Retried(s.job))
  }

  lemma CoverStepIff(s: State, a: Action, all: set<string>, most: seq<string>)
    requires RetryInv(s, most) && StartsRetry(a) && CoverInv(s, all)
    ensures CoverInv(Step(s, a), all) <==> KeepsCover(s, a)
  {
    hide RetryInv, Skcs, Names, MergeRows, BatchRows, Requested, NamesOf, DistinctRows;
    match a {
      case Batch(reply) =>
        if s.job.Job? && |s.job.done| < |FetchOf(s.job).batches| { BatchSets(s, reply, most); }
      case Close => if Closes(s) { CloseSets(s, most); }
      case _ =>
    }
  }

  ghost predicate AllKeepCover(start: Record, actions: seq<Action>) {
    forall k :: 0 <= k < |actions| ==> KeepsCover(Run(start, actions[..k]), actions[k])
  }

  /** Whatever is retried, restored and answered, nobody new is ever listed as failed. */
  lemma {:induction false} NobodyNewFails(start: Record, actions: seq<Action>, n: nat)
    requires Normal(start.failedSkcNames) && AllRetry(actions) && n <= |actions|
    ensures RetryInv(Run(start, actions[..n]), start.failedSkcNames)
  {
    hide RetryInv, Step, StartsRetry;
    if n > 0 {
      NobodyNewFails(start, actions, n - 1);
      RunSnoc(start, actions, n - 1);
      RetryStep(Run(start, actions[..n - 1]), actions[n - 1], start.failedSkcNames);
    } else {
      StartListed(start);
    }
  }

  lemma StartListed(start: Record)
    requires Normal(start.failedSkcNames)
    ensures RetryInv(State(start, NoJob, map[], []), start.failedSkcNames)
  {
  }

  /** With retries and product syncs that keep the cover, at every moment each SKC has a row or is
      listed as failed, whatever old record a request writes back. */
  lemma {:induction false} EveryMomentCovers(start: Record, actions: seq<Action>, all: set<string>, n: nat)
    requires Normal(start.failedSkcNames) && Covers(start, all) && AllRetry(actions) && n <= |actions|
    requires AllKeepCover(start, actions)
    ensures CoverInv(Run(start, actions[..n]), all)
  {
    hide RetryInv, CoverInv, KeepsCover, Step, StartsRetry;
    if n > 0 {
      EveryMomentCovers(start, actions, all, n - 1);
      NobodyNewFails(start, actions, n - 1);
      RunSnoc(start, actions, n - 1);
      CoverStepIff(Run(start, actions[..n - 1]), actions[n - 1], all, start.failedSkcNames);
    } else {
      StartCovers(start, all);
    }
  }

  lemma StartCovers(start: Record, all: set<string>)
    requires Covers(start, all)
    ensures CoverInv(State(start, NoJob, map[], []), all)
  {
  }

  /** They do at every moment, and will when the running retry ends, exactly when each product sync
      that ends during a retry keeps the cover. */
  lemma EveryMomentCoversIff(start: Record, actions: seq<Action>, all: set<string>)
    requires Normal(start.failedSkcNames) && Covers(start, all) && AllRetry(actions)
    ensures (forall n :: 0 <= n <= |actions| ==> CoverInv(Run(start, actions[..n]), all)) <==>
            AllKeepCover(start, actions)
  {
    hide RetryInv, CoverInv, KeepsCover, Step, StartsRetry;
    if AllKeepCover(start, actions) {
      forall n | 0 <= n <= |actions| ensures CoverInv(Run(start, actions[..n]), all) {
        EveryMomentCovers(start, actions, all, n);
      }
    }
    if forall n :: 0 <= n <= |actions| ==> CoverInv(Run(start, actions[..n]), all) {
      forall k | 0 <= k < |actions| ensures KeepsCover(Run(start, actions[..k]), actions[k]) {
        NobodyNewFails(start, actions, k);
        RunSnoc(start, actions, k);
        CoverStepIff(Run(start, actions[..k]), actions[k], all, start.failedSkcNames);
      }
    }
  }

  // ---------------------------------------------------------------- what a restored record does to a running retry

  /** Requests that come or start nothing, and batches, up to the end of the running job. */
  ghost predicate Undisturbed(later: seq<Action>) {
    forall k :: 0 <= k < |later| ==> !later[k].Restore? && !later[k].Close?
  }

  lemma {:induction false} LaterKeeps(s: State, later: seq<Action>, most: seq<string>)
    requires RetryInv(s, most) && s.job.Job? && Undisturbed(later)
    ensures var u := RunFrom(s, later);
      && RetryInv(u, most) && u.job.Job? && u.job.seen == s.job.seen
      && u.record.failedSkcNames == s.record.failedSkcNames
      && Skcs(s.record.rows) <= Skcs(u.record.rows) <= Skcs(s.record.rows) + Names(Retried(s.job))
      && (Skcs(s.record.rows) !! Open(s.job) ==> Skcs(u.record.rows) !! Open(u.job))
  {
    hide RetryInv, Skcs, Names, Step, Open;
    if later != [] {
      var n := |later| - 1;
      LaterKeeps(s, later[..n], most);
      LaterStep(RunFrom(s, later[..n]), later[n], most);
    }
  }

  lemma LaterStep(s: State, a: Action, most: seq<string>)
    requires RetryInv(s, most) && s.job.Job? && !a.Restore? && !a.Close?
    ensures var t := Step(s, a);
      && RetryInv(t, most) && t.job.Job? && t.job.seen == s.job.seen
      && t.record.failedSkcNames == s.record.failedSkcNames
      && Skcs(s.record.rows) <= Skcs(t.record.rows) <= Skcs(s.record.rows) + Names(Retried(s.job))
      && (Skcs(s.record.rows) !! Open(s.job) ==> Skcs(t.record.rows) !! Open(t.job))
  {
    hide Listed, Skcs, Names, MergeRows, BatchRows, Requested, NamesOf, DistinctRows, Open;
    RetryStep(s, a, most);
    if a.Batch? && |s.job.done| < |FetchOf(s.job).batches| { BatchSets(s, a.reply, most); }
  }

  /** A product sync that ends while a retry runs: whoever comes and whatever the platform answers
      until the retry ends, the record then covers the SKCs exactly when the record that was written
      back misses only rows that the retry works on, or when a null row keeps the result from being stored. */
  lemma RestoreCoversIff(s: State, id: nat, later: seq<Action>, all: set<string>, most: seq<string>)
    requires RetryInv(s, most) && CoverInv(s, all) && s.job.Job? && id in s.arrivals
    requires Undisturbed(later) && Closes(RunFrom(Step(s, Restore(id)), later))
    ensures var was := s.arrivals[id].record; var u := RunFrom(Step(s, Restore(id)), later); var f := FetchOf(u.job);
      Covers(Step(u, Close).record, all) <==>
        || Names(was.failedSkcNames) <= Skcs(was.rows) + Names(Retried(s.job))
        || !Readable(f, |f.batches|)
  {
    var t := Step(s, Restore(id));
    RetryStep(s, Restore(id), most);
    hide RetryInv, Skcs, Names, Step, Open, MergeRows, Closes, RunFrom, Undisturbed;
    EndCoversIff(t, later, all, most);
  }

  /** What the record of a running retry must have rows for. */
  lemma EndCoversIff(s: State, later: seq<Action>, all: set<string>, most: seq<string>)
    requires RetryInv(s, most) && s.job.Job? && Covers(s.record, all) && Names(Retried(s.job)) <= all
    requires Undisturbed(later) && Closes(RunFrom(s, later))
    ensures var u := RunFrom(s, later); var f := FetchOf(u.job);
      Covers(Step(u, Close).record, all) <==>
        Skcs(s.record.rows) + Names(Retried(s.job)) == all || !Readable(f, |f.batches|)
  {
    LaterKeeps(s, later, most);
    var u := RunFrom(s, later);
    hide RetryInv, Skcs, Names, Step, Open, Closes, RunFrom, Undisturbed, Readable, FetchOf, DistinctRows, Listed;
    CloseSets(u, most);
    var f := FetchOf(u.job);
    if Readable(f, |f.batches|) {
      var t := Step(u, Close);
      assert Skcs(t.record.rows) + Names(t.record.failedSkcNames) == Skcs(u.record.rows) + Names(Retried(u.job));
      assert Skcs(u.record.rows) + Names(Retried(u.job)) == Skcs(s.record.rows) + Names(Retried(s.job));
    } else {
      assert u.record.failedSkcNames == s.record.failedSkcNames;
    }
  }

  // ---------------------------------------------------------------- a run that loses SKCs

  /** Twenty-one names failed; a product sync reads the record; a retry brings the first batch; while a
      retry of the last name runs, the product sync writes back what it had read. */
  const LOSS := [Arrive(0, []), Arrive(1, []),
                 Start(0, RETRY), Batch(Complete([], [])), Batch(RequirementsFailed), Close,
                 Arrive(2, []), Start(2, RETRY), Restore(1), Batch(Complete([], [])), Close]

  /** A retry of these names starts from an arrival. */
  lemma RetryBegins(s: State, id: nat, most: seq<string>)
    requires RetryInv(s, most) && s.job == NoJob && id in s.arrivals
    requires 0 < |s.arrivals[id].record.failedSkcNames| <= MAX_SKC_NAMES
    ensures var t := Step(s, Start(id, RETRY)); var names := s.arrivals[id].record.failedSkcNames;
      && RetryInv(t, most) && t.job == Job(RETRY, s.arrivals[id], names, [])
      && FetchOf(t.job).batches == Chunks(names)
      && t.record == s.arrivals[id].record && t.arrivals == s.arrivals - {id}
  {
    assert IsRetry(CallOf(RETRY, []));
    RetryStep(s, Start(id, RETRY), most);
    hide Chunks, UniqueNames, NamesOf;
    RetryNames(s.arrivals[id], RETRY);
    RetryBatches(Step(s, Start(id, RETRY)), most);
  }

  /** The first retry of the run: the names of its first batch get rows, the others stay listed. */
  lemma FirstRetry(s: State, names: seq<string>, some: seq<string>, rest: seq<string>)
    requires RetryInv(s, names) && s.job == NoJob && s.record == Record([], names)
    requires s.arrivals == map[0 := Arrival([], s.record), 1 := Arrival([], s.record)]
    requires Chunks(names) == [some, rest] && 0 < |names| <= MAX_SKC_NAMES
    ensures var t := Step(Step(Step(Step(s, Start(0, RETRY)), Batch(Complete([], []))), Batch(RequirementsFailed)), Close);
      && RetryInv(t, names) && t.job == NoJob && t.arrivals == map[1 := Arrival([], Record([], names))]
      && t.record.failedSkcNames == rest
  {
    hide RetryInv, Chunks, Step, Open, Skcs, Names, Successes, Failures;
    RetryBegins(s, 0, names);
    var a := Step(s, Start(0, RETRY));
    BatchSets(a, Complete([], []), names);
    var b := Step(a, Batch(Complete([], [])));
    RetryStep(a, Batch(Complete([], [])), names);
    BatchSets(b, RequirementsFailed, names);
    var c := Step(b, Batch(RequirementsFailed));
    RetryStep(b, Batch(RequirementsFailed), names);
    assert c.job.done == [Complete([], []), RequirementsFailed];
    CloseSets(c, names);
    RetryStep(c, Close, names);
    TwoBatches(FetchOf(c.job), some, rest);
  }

  lemma TwoBatches(f: Fetch, some: seq<string>, rest: seq<string>)
    requires f.batches == [some, rest] && f.replies(0).Complete? && !f.replies(1).Complete?
    ensures Failures(f, 2) == rest
  {
    assert Failures(f, 0) == [] && Failures(f, 1) == [];
  }

  /** The second retry, of the rest, during which the old record comes back. */
  lemma SecondRetry(s: State, names: seq<string>, rest: seq<string>)
    requires RetryInv(s, names) && s.job == NoJob && s.record.failedSkcNames == rest
    requires s.arrivals == map[1 := Arrival([], Record([], names))]
    requires Chunks(rest) == [rest] && 0 < |rest| <= MAX_SKC_NAMES
    ensures var c := Step(Step(Step(s, Arrive(2, [])), Start(2, RETRY)), Restore(1));
      var t := Step(Step(c, Batch(Complete([], []))), Close);
      && t.job == NoJob && t.record.failedSkcNames == [] && Skcs(t.record.rows) == Names(rest)
  {
    LastRetryStarts(s, names, rest);
    hide RetryInv, Chunks, Step, Skcs, Names;
    RestAnswered(Step(Step(Step(s, Arrive(2, [])), Start(2, RETRY)), Restore(1)), names, rest);
  }

  lemma RestAnswered(c: State, names: seq<string>, rest: seq<string>)
    requires RetryInv(c, names) && c.job.Job? && c.job.done == [] && FetchOf(c.job).batches == [rest]
    requires c.record.rows == []
    ensures var t := Step(Step(c, Batch(Complete([], []))), Close);
      && t.job == NoJob && t.record.failedSkcNames == [] && Skcs(t.record.rows) == Names(rest)
  {
    NoSkcs();
    hide RetryInv, Chunks, Step, Open, Skcs, Names, Successes, Failures;
    BatchSets(c, Complete([], []), names);
    var d := Step(c, Batch(Complete([], [])));
    RetryStep(c, Batch(Complete([], [])), names);
    CloseSets(d, names);
    OnlyBatch(FetchOf(d.job), rest);
  }

  lemma LastRetryStarts(s: State, names: seq<string>, rest: seq<string>)
    requires RetryInv(s, names) && s.job == NoJob && s.record.failedSkcNames == rest
    requires s.arrivals == map[1 := Arrival([], Record([], names))]
    requires Chunks(rest) == [rest] && 0 < |rest| <= MAX_SKC_NAMES
    ensures var t := Step(Step(Step(s, Arrive(2, [])), Start(2, RETRY)), Restore(1));
      && RetryInv(t, names) && t.job.Job? && t.job.done == [] && FetchOf(t.job).batches == [rest]
      && t.record == Record([], names)
  {
    hide RetryInv, Chunks, Normal, Starts, NamesOf;
    var a := Step(s, Arrive(2, []));
    RetryStep(s, Arrive(2, []), names);
    RetryBegins(a, 2, names);
    var b := Step(a, Start(2, RETRY));
    assert IsRetry(CallOf(RETRY, [])) && b.arrivals[1] == Arrival([], Record([], names));
    RetryStep(b, Restore(1), names);
  }

  lemma OnlyBatch(f: Fetch, names: seq<string>)
    requires f.batches == [names] && f.replies(0).Complete?
    ensures Failures(f, 1) == [] && Successes(f, 1) == names
  {
    assert Failures(f, 0) == [] && Successes(f, 0) == [];
  }

  lemma LossSteps(first: State)
    ensures RunFrom(first, LOSS) ==
      var s := Step(Step(first, Arrive(0, [])), Arrive(1, []));
      var t := Step(Step(Step(Step(s, Start(0, RETRY)), Batch(Complete([], []))), Batch(RequirementsFailed)), Close);
      Step(Step(Step(Step(Step(t, Arrive(2, [])), Start(2, RETRY)), Restore(1)), Batch(Complete([], []))), Close)
  {
    hide Step;
    assert RunFrom(first, LOSS[..0]) == first && LOSS[..11] == LOSS;
    LossStep(first, 0);
    LossStep(first, 1);
    LossStep(first, 2);
    LossStep(first, 3);
    LossStep(first, 4);
    LossStep(first, 5);
    LossStep(first, 6);
    LossStep(first, 7);
    LossStep(first, 8);
    LossStep(first, 9);
    LossStep(first, 10);
  }

  lemma LossStep(first: State, k: nat)
    requires k < |LOSS|
    ensures RunFrom(first, LOSS[..k + 1]) == Step(RunFrom(first, LOSS[..k]), LOSS[k])
  {
    assert LOSS[..k + 1][..k] == LOSS[..k];
  }

  /** The product sync and the first retry have come. */
  lemma BothCame()
    ensures var start := Record([], MANY);
      var s := Step(Step(State(start, NoJob, map[], []), Arrive(0, [])), Arrive(1, []));
      && RetryInv(s, MANY) && s.job == NoJob && s.record == start
      && s.arrivals == map[0 := Arrival([], start), 1 := Arrival([], start)]
  {
    ManyNames();
    hide Normal;
    var start := Record([], MANY);
    var first := State(start, NoJob, map[], []);
    assert RetryInv(first, MANY);
    RetryStep(first, Arrive(0, []), MANY);
    RetryStep(Step(first, Arrive(0, [])), Arrive(1, []), MANY);
  }

  lemma LossRun()
    ensures var s := Run(Record([], MANY), LOSS);
      s.job == NoJob && s.record.failedSkcNames == [] && Skcs(s.record.rows) == Names(MANY[20..])
  {
    var first := State(Record([], MANY), NoJob, map[], []);
    BothCame();
    ManyNames();
    hide Step, RetryInv, Skcs, Names, RunFrom, Chunks, Normal;
    var s := Step(Step(first, Arrive(0, [])), Arrive(1, []));
    LossSteps(first);
    FirstRetry(s, MANY, MANY[..20], MANY[20..]);
    SecondRetry(Step(Step(Step(Step(s, Start(0, RETRY)), Batch(Complete([], []))), Batch(RequirementsFailed)), Close),
                MANY, MANY[20..]);
  }

  lemma LossRetries()
    ensures AllRetry(LOSS)
  {
    assert IsRetry(CallOf(RETRY, []));
  }

  lemma NotCovered(record: Record)
    requires record.failedSkcNames == [] && Skcs(record.rows) == {MANY[20]}
    ensures !Covers(record, Names(MANY))
  {
    ManyNames();
    hide Skcs;
    assert MANY[0] in Names(MANY) && MANY[0] != MANY[20];
    assert MANY[0] !in Skcs(record.rows) + Names(record.failedSkcNames);
  }

  lemma LossCovered()
    ensures Covers(Record([], MANY), Names(MANY)) && |Names(MANY)| == 21 && Names(MANY[20..]) == {MANY[20]}
    ensures Normal(MANY)
  {
    ManyNames();
    NoSkcs();
    ManySize(21);
    assert MANY[..21] == MANY && MANY[20..] == [MANY[20]];
  }

  /** Twenty of the twenty-one SKCs end up without a row and unlisted, although everything that
      started was a retry and nothing was answered wrongly. */
  lemma RestoreLosesSkcs()
    ensures var start := Record([], MANY); var s := Run(start, LOSS);
      && AllRetry(LOSS) && Covers(start, Names(MANY)) && |Names(MANY)| == 21
      && s.job == NoJob && s.record.failedSkcNames == [] && Skcs(s.record.rows) == {MANY[20]}
      && !AllKeepCover(start, LOSS)
  {
    var start := Record([], MANY);
    LossCovered();
    LossRun();
    LossRetries();
    hide Run, AllKeepCover, Skcs, Names, AllRetry, Normal, Covers;
    NotCovered(Run(start, LOSS).record);
    assert LOSS[..|LOSS|] == LOSS;
    if AllKeepCover(start, LOSS) {
      EveryMomentCovers(start, LOSS, Names(MANY), |LOSS|);
    }
  }

  // ---------------------------------------------------------------- rows and failures apart

  /** Rows and failures are apart; while a retry runs, the rows and those of its names that it may
      still list. */
  ghost predicate SplitInv(s: State) {
    if s.job.Job? then |s.job.done| <= |FetchOf(s.job).batches| && Skcs(s.record.rows) !! Open(s.job)
    else Apart(s.record)
  }

  ghost predicate Apart(record: Record) {
    DistinctRows(record.rows) && Skcs(record.rows) !! Names(record.failedSkcNames)
  }

  /** What is written back has nobody with a row whom the running retry, if any, may still list; and a
      retry with a null row ends only over a record with rows and failures apart. */
  ghost predicate KeepsSplit(s: State, a: Action) {
    match a
    case Start(id, body) =>
      Starts(s, id, body) ==> Skcs(s.arrivals[id].record.rows) !! Names(s.arrivals[id].record.failedSkcNames)
    case Restore(id) =>
      id in s.arrivals ==>
        if s.job.Job? then |s.job.done| <= |FetchOf(s.job).batches| && Skcs(s.arrivals[id].record.rows) !! Open(s.job)
        else Apart(s.arrivals[id].record)
    case Close => Closes(s) && !Readable(FetchOf(s.job), |FetchOf(s.job).batches|) ==> Apart(s.record)
    case _ => true
  }

  lemma SplitStepIff(s: State, a: Action, most: seq<string>)
    requires RetryInv(s, most) && StartsRetry(a) && SplitInv(s)
    ensures SplitInv(Step(s, a)) <==> KeepsSplit(s, a)
  {
    match a {
      case Start(id, body) => if Starts(s, id, body) { BeginsSplit(s, id, body, most); }
      case Batch(reply) =>
        hide RetryInv, Skcs, Names, MergeRows, BatchRows, Requested, NamesOf, DistinctRows, Open;
        if s.job.Job? && |s.job.done| < |FetchOf(s.job).batches| { BatchSets(s, reply, most); }
      case Close =>
        hide RetryInv, Skcs, Names, MergeRows, BatchRows, Requested, NamesOf, DistinctRows, Open;
        if Closes(s) {
          CloseSets(s, most);
          SuccessesApart(s, most);
        }
      case _ =>
        hide Skcs, Names, Open, DistinctRows, NamesOf;
    }
  }

  lemma BeginsSplit(s: State, id: nat, body: Body, most: seq<string>)
    requires RetryInv(s, most) && IsRetry(CallOf(body, [])) && Starts(s, id, body)
    ensures var t := Step(s, Start(id, body)); var seen := s.arrivals[id].record;
      t.job.Job? && t.record == seen && t.job.done == [] && Open(t.job) == Names(seen.failedSkcNames)
  {
    hide Skcs, NamesOf, Chunks, UniqueNames;
    assert Successes(FetchOf(Step(s, Start(id, body)).job), 0) == [];
  }

  /** Who succeeded in a retry is not open at its end. */
  lemma SuccessesApart(s: State, most: seq<string>)
    requires RetryInv(s, most) && Closes(s)
    ensures Names(Successes(FetchOf(s.job), |FetchOf(s.job).batches|)) !! Open(s.job)
  {
    hide RetryInv;
  }

  ghost predicate AllKeepSplit(start: Record, actions: seq<Action>) {
    forall k :: 0 <= k < |actions| ==> KeepsSplit(Run(start, actions[..k]), actions[k])
  }

  lemma {:induction false} KeptSplit(start: Record, actions: seq<Action>, n: nat)
    requires Normal(start.failedSkcNames) && Apart(start) && AllRetry(actions) && AllKeepSplit(start, actions)
    requires n <= |actions|
    ensures SplitInv(Run(start, actions[..n]))
  {
    hide RetryInv, SplitInv, KeepsSplit, Step, StartsRetry, Apart;
    if n > 0 {
      KeptSplit(start, actions, n - 1);
      NobodyNewFails(start, actions, n - 1);
      RunSnoc(start, actions, n - 1);
      SplitStepIff(Run(start, actions[..n - 1]), actions[n - 1], start.failedSkcNames);
    } else {
      StartApart(start);
    }
  }

  lemma StartApart(start: Record)
    requires Apart(start)
    ensures SplitInv(State(start, NoJob, map[], []))
  {
  }

  /** Rows and failures are apart at every moment between jobs, and nobody with a row may still be
      listed by a running one, exactly when each step keeps that. */
  lemma EveryMomentSplitIff(start: Record, actions: seq<Action>)
    requires Normal(start.failedSkcNames) && Apart(start) && AllRetry(actions)
    ensures (forall n :: 0 <= n <= |actions| ==> SplitInv(Run(start, actions[..n]))) <==> AllKeepSplit(start, actions)
  {
    hide RetryInv, SplitInv, KeepsSplit, Step, StartsRetry, Apart;
    if AllKeepSplit(start, actions) {
      forall n | 0 <= n <= |actions| ensures SplitInv(Run(start, actions[..n])) { KeptSplit(start, actions, n); }
    }
    if forall n :: 0 <= n <= |actions| ==> SplitInv(Run(start, actions[..n])) {
      forall k | 0 <= k < |actions| ensures KeepsSplit(Run(start, actions[..k]), actions[k]) {
        NobodyNewFails(start, actions, k);
        RunSnoc(start, actions, k);
        SplitStepIff(Run(start, actions[..k]), actions[k], start.failedSkcNames);
      }
    }
  }

  /** So with retries and product syncs that keep both, the rows and the failures split the SKCs at
      every moment at which no job runs. */
  lemma BetweenJobsSplit(start: Record, actions: seq<Action>, all: set<string>, n: nat)
    requires Partitioned(start, all) && AllRetry(actions) && n <= |actions|
    requires AllKeepCover(start, actions) && AllKeepSplit(start, actions)
    ensures var s := Run(start, actions[..n]); s.job == NoJob ==> Partitioned(s.record, all)
  {
    hide Run, KeepsCover, KeepsSplit, StartsRetry;
    EveryMomentCovers(start, actions, all, n);
    KeptSplit(start, actions, n);
    NobodyNewFails(start, actions, n);
  }

  // ---------------------------------------------------------------- what a record that is read decides

  /** A product sync that ends while a retry runs: whoever comes and whatever the platform answers,
      rows and failures are apart when the retry ends exactly when nobody has a row in the record
      written back who did not succeed so far. */
  lemma RestoreSplitsIff(s: State, id: nat, most: seq<string>)
    requires RetryInv(s, most) && s.job.Job? && id in s.arrivals && Readable(FetchOf(s.job), |s.job.done|)
    ensures var t := Step(s, Restore(id));
      (forall later :: Undisturbed(later) && Ends(RunFrom(t, later)) ==>
         Apart(Step(RunFrom(t, later), Close).record)) <==>
      Skcs(s.arrivals[id].record.rows) !! Open(s.job)
  {
    var t := Step(s, Restore(id));
    RetryStep(s, Restore(id), most);
    assert t.job == s.job && t.record == s.arrivals[id].record;
    hide Step, RetryInv, Skcs, Names, Open, DistinctRows;
    forall later | Undisturbed(later) && Ends(RunFrom(t, later)) && Skcs(t.record.rows) !! Open(t.job)
      ensures Apart(Step(RunFrom(t, later), Close).record)
    {
      LaterKeeps(t, later, most);
      CloseSets(RunFrom(t, later), most);
      SuccessesApart(RunFrom(t, later), most);
    }
    var left := |FetchOf(t.job).batches| - |t.job.done|;
    RestFails(t, left, most);
    CloseSets(RunFrom(t, Failing(left)), most);
  }

  /** The running retry ends and its result is stored. */
  predicate Ends(s: State) { Closes(s) && Readable(FetchOf(s.job), |FetchOf(s.job).batches|) }

  /** No further batch is answered. */
  function Failing(n: nat): seq<Action> { if n == 0 then [] else Failing(n - 1) + [Batch(RequirementsFailed)] }

  lemma {:induction false} RestFails(s: State, n: nat, most: seq<string>)
    requires RetryInv(s, most) && s.job.Job? && Readable(FetchOf(s.job), |s.job.done|)
    requires n <= |FetchOf(s.job).batches| - |s.job.done|
    ensures var u := RunFrom(s, Failing(n));
      && Undisturbed(Failing(n)) && RetryInv(u, most)
      && u.job.Job? && |u.job.done| == |s.job.done| + n && FetchOf(u.job).batches == FetchOf(s.job).batches
      && Readable(FetchOf(u.job), |u.job.done|)
      && Open(u.job) == Open(s.job) && Skcs(u.record.rows) == Skcs(s.record.rows)
  {
    hide Step, RetryInv, Skcs, Names, Open, Undisturbed, Readable, FetchOf;
    FailingQuiet(n);
    if n > 0 {
      RestFails(s, n - 1, most);
      FailingLast(n, s);
      hide RunFrom;
      BatchFails(RunFrom(s, Failing(n - 1)), most);
    }
  }

  lemma {:induction false} FailingSize(n: nat)
    ensures |Failing(n)| == n
  {
    if n > 0 { FailingSize(n - 1); }
  }

  lemma {:induction false} FailingQuiet(n: nat)
    ensures Undisturbed(Failing(n))
  {
    if n > 0 { FailingQuiet(n - 1); }
  }

  lemma FailingLast(n: nat, s: State)
    requires n > 0
    ensures |Failing(n)| == n && Failing(n)[..n - 1] == Failing(n - 1) && Failing(n)[n - 1] == Batch(RequirementsFailed)
    ensures RunFrom(s, Failing(n)) == Step(RunFrom(s, Failing(n - 1)), Batch(RequirementsFailed))
  {
    hide Step;
    FailingSize(n - 1);
    FailingSize(n);
    assert Failing(n)[..n - 1] == Failing(n - 1);
  }

  /** A batch that fails changes nothing but the number of answers. */
  lemma BatchFails(s: State, most: seq<string>)
    requires RetryInv(s, most) && s.job.Job? && |s.job.done| < |FetchOf(s.job).batches|
    requires Readable(FetchOf(s.job), |s.job.done|)
    ensures var u := Step(s, Batch(RequirementsFailed));
      && RetryInv(u, most) && u.job.Job? && |u.job.done| == |s.job.done| + 1
      && FetchOf(u.job).batches == FetchOf(s.job).batches && Readable(FetchOf(u.job), |u.job.done|)
      && Open(u.job) == Open(s.job) && Skcs(u.record.rows) == Skcs(s.record.rows)
  {
    hide Step, RetryInv, Skcs, Names, Open;
    BatchSets(s, RequirementsFailed, most);
    RetryStep(s, Batch(RequirementsFailed), most);
    var u := Step(s, Batch(RequirementsFailed));
    forall i: nat | i < |u.job.done| ensures !FetchOf(u.job).replies(i).Unreadable? {
      if i < |s.job.done| { assert FetchOf(u.job).replies(i) == FetchOf(s.job).replies(i); }
    }
  }

  /** What a retry had seen decides: whatever the platform answers, null rows apart, rows and failures
      are apart after it exactly when they were apart in the record that the request had read. */
  lemma RetrySplitsIff(seen: Record, products: seq<string>, body: Body, all: set<string>)
    requires Covers(seen, all) && Normal(seen.failedSkcNames) && IsRetry(CallOf(body, []))
    requires 0 < |seen.failedSkcNames| <= MAX_SKC_NAMES
    ensures (forall replies :: NoNullRow(replies) ==>
               Partitioned(Sync(seen, products, Call(body.skcList, body.retryFailed, replies)), all)) <==>
            Skcs(seen.rows) !! Names(seen.failedSkcNames)
  {
    UniqueIsIdentity(seen.failedSkcNames);
    NormalNames(seen.failedSkcNames);
    hide Sync, UniqueNames, Normal, Skcs, Names;
    forall replies: nat -> Reply | NoNullRow(replies) && Skcs(seen.rows) !! Names(seen.failedSkcNames)
      ensures Partitioned(Sync(seen, products, Call(body.skcList, body.retryFailed, replies)), all)
    {
      SameNames(seen, products, CallOf(body, []), replies);
      StoredRetry(seen, products, Call(body.skcList, body.retryFailed, replies));
    }
    SameNames(seen, products, CallOf(body, []), NONE_ANSWERED);
    RetryNotAnswered(seen, products, Call(body.skcList, body.retryFailed, NONE_ANSWERED));
  }

  /** A retry of up to 5000 names is a job on them. */
  lemma RetryJob(seen: Record, products: seq<string>, call: Call)
    requires Normal(seen.failedSkcNames) && IsRetry(call) && 0 < |seen.failedSkcNames| <= MAX_SKC_NAMES
    ensures Sync(seen, products, call) == AfterJob(seen, seen.failedSkcNames, call.replies, false)
    ensures UniqueNames(seen.failedSkcNames) == seen.failedSkcNames
  {
    UniqueIsIdentity(seen.failedSkcNames);
    NormalNames(seen.failedSkcNames);
    hide AfterJob, UniqueNames;
  }

  /** A retry without a null row: who got a row and who stays listed. */
  lemma StoredOutcome(seen: Record, products: seq<string>, call: Call)
    requires Normal(seen.failedSkcNames) && IsRetry(call) && NoNullRow(call.replies)
    requires 0 < |seen.failedSkcNames| <= MAX_SKC_NAMES
    ensures var f := Plan(seen.failedSkcNames, call.replies); var after := Sync(seen, products, call);
      && DistinctRows(after.rows) && Normal(after.failedSkcNames)
      && after.failedSkcNames == Failures(f, |f.batches|)
      && Skcs(after.rows) == Skcs(seen.rows) + Names(Successes(f, |f.batches|))
  {
    RetryJob(seen, products, call);
    NoNullStores(seen.failedSkcNames, call.replies);
    hide Sync, IsRetry, Normal, UniqueNames, AfterJob, DistinctRows, Plan, Successes, Failures, Skcs, Names;
    hide NoNullRow, Stores;
    JobOutcome(seen, seen.failedSkcNames, call.replies, false);
  }

  lemma NoNullStores(names: seq<string>, replies: nat -> Reply)
    requires NoNullRow(replies)
    ensures Stores(names, replies)
  {
    hide Chunks, UniqueNames;
  }

  lemma StoredRetry(seen: Record, products: seq<string>, call: Call)
    requires Normal(seen.failedSkcNames) && IsRetry(call) && NoNullRow(call.replies)
    requires 0 < |seen.failedSkcNames| <= MAX_SKC_NAMES && Skcs(seen.rows) !! Names(seen.failedSkcNames)
    ensures Partitioned(Sync(seen, products, call), Skcs(seen.rows) + Names(seen.failedSkcNames))
  {
    hide Sync, IsRetry, Normal, UniqueNames, DistinctRows, Plan, Successes, Failures, Skcs, Names, NoNullRow, Readable;
    StoredOutcome(seen, products, call);
    RetryParts(seen, seen.failedSkcNames, call.replies);
  }

  lemma RetryNotAnswered(seen: Record, products: seq<string>, call: Call)
    requires Normal(seen.failedSkcNames) && IsRetry(call) && call.replies == NONE_ANSWERED
    requires 0 < |seen.failedSkcNames| <= MAX_SKC_NAMES
    ensures var after := Sync(seen, products, call);
      Skcs(after.rows) == Skcs(seen.rows) && Names(after.failedSkcNames) == Names(seen.failedSkcNames)
  {
    hide Sync, IsRetry, Normal, UniqueNames, DistinctRows, Successes, Failures, Skcs, Names, Chunks;
    StoredOutcome(seen, products, call);
    RetryParts(seen, seen.failedSkcNames, call.replies);
  }

  // ---------------------------------------------------------------- runs without old records

  /** A step that writes back nothing old keeps cover and split, if no null row is in its way. */
  lemma CurrentKeeps(s: State, a: Action, all: set<string>, most: seq<string>)
    requires RetryInv(s, most) && CoverInv(s, all) && SplitInv(s) && Current(s, a)
    requires a.Close? ==> KeepsSplit(s, a)
    ensures KeepsCover(s, a) && KeepsSplit(s, a)
  {
    hide Skcs, Names, Open, DistinctRows, NamesOf, Readable;
  }

  /** Wherever a retry with a null row ends, rows and failures are apart already. */
  ghost predicate EndsApart(start: Record, actions: seq<Action>) {
    forall k :: 0 <= k < |actions| && actions[k].Close? ==> KeepsSplit(Run(start, actions[..k]), actions[k])
  }

  /** Retries and product syncs that write back nothing old keep the split between jobs. */
  lemma {:induction false} CurrentRetriesSplit(start: Record, actions: seq<Action>, all: set<string>, n: nat)
    requires Partitioned(start, all) && AllRetry(actions) && AllCurrent(start, actions) && EndsApart(start, actions)
    requires n <= |actions|
    ensures var s := Run(start, actions[..n]);
      && RetryInv(s, start.failedSkcNames) && CoverInv(s, all) && SplitInv(s)
      && (s.job == NoJob ==> Partitioned(s.record, all))
  {
    hide RetryInv, CoverInv, SplitInv, Step, StartsRetry, Current, Closes, Partitioned, KeepsCover, KeepsSplit;
    if n > 0 {
      CurrentRetriesSplit(start, actions, all, n - 1);
      RunSnoc(start, actions, n - 1);
      var s, a := Run(start, actions[..n - 1]), actions[n - 1];
      CurrentKeeps(s, a, all, start.failedSkcNames);
      RetryStep(s, a, start.failedSkcNames);
      CoverStepIff(s, a, all, start.failedSkcNames);
      SplitStepIff(s, a, start.failedSkcNames);
    } else {
      StartSplit(start, all);
    }
    SplitBetween(Run(start, actions[..n]), all, start.failedSkcNames);
  }

  lemma StartSplit(start: Record, all: set<string>)
    requires Partitioned(start, all)
    ensures var s := State(start, NoJob, map[], []);
      RetryInv(s, start.failedSkcNames) && CoverInv(s, all) && SplitInv(s)
  {
  }

  lemma SplitBetween(s: State, all: set<string>, most: seq<string>)
    requires RetryInv(s, most) && CoverInv(s, all) && SplitInv(s)
    ensures s.job == NoJob ==> Partitioned(s.record, all)
  {
  }
}
