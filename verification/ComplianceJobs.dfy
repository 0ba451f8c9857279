/** The sync route while jobs run: at most one job per store, its batches arriving one by one between
    further requests. A request reads the cached record before its body arrives and writes that
    record back when it starts a job; a product sync likewise writes back what it read at first. */
module ComplianceJobs {
  import opened JsStrings
  import opened ComplianceSync
  import opened ComplianceRuns

  /** What a request saw when it came: the products and the compliance record. */
  datatype Arrival = Arrival(products: seq<string>, record: Record)

  datatype Body = Body(skcList: seq<string>, retryFailed: bool)

  /** A running job: its request, what that had seen, its names, the replies so far. */
  datatype Job = NoJob | Job(body: Body, seen: Arrival, names: seq<string>, done: seq<Reply>)

  /** `arrivals` are the requests that still await something; `finished` lists the jobs that ended,
      with what they had seen and all their replies. */
  datatype State = State(record: Record, job: Job, arrivals: map<nat, Arrival>, finished: seq<(Arrival, Call)>)

  /** A request comes, its body is read, a product sync ends, a batch is answered, a job ends. */
  datatype Action =
    | Arrive(id: nat, products: seq<string>)
    | Start(id: nat, body: Body)
    | Restore(id: nat)
    | Batch(reply: Reply)
    | Close

  function Replies(done: seq<Reply>): nat -> Reply {
    (i: nat) => if i < |done| then done[i] else RequirementsFailed
  }

  function CallOf(body: Body, done: seq<Reply>): Call { Call(body.skcList, body.retryFailed, Replies(done)) }

  function NamesOf(seen: Arrival, body: Body): seq<string> {
    SkcNames(seen.record, seen.products, CallOf(body, []))
  }

  function FetchOf(job: Job): Fetch
    requires job.Job?
  {
    Plan(job.names, Replies(job.done))
  }

  predicate IsFull(body: Body) { Requested(CallOf(body, [])) == [] && !body.retryFailed }

  /** The request with this body starts a job. */
  predicate Starts(s: State, id: nat, body: Body) {
    && id in s.arrivals && s.job.NoJob?
    && 0 < |NamesOf(s.arrivals[id], body)| <= MAX_SKC_NAMES
  }

  /** All batches of the running job are answered. */
  predicate Closes(s: State) { s.job.Job? && |s.job.done| == |FetchOf(s.job).batches| }

  function Step(s: State, a: Action): State {
    match a
    case Arrive(id, products) =>
      if id in s.arrivals then s else s.(arrivals := s.arrivals[id := Arrival(products, s.record)])
    case Start(id, body) =>
      var left := s.(arrivals := s.arrivals - {id});
      if Starts(s, id, body) then
        var seen := s.arrivals[id];
        left.(record := seen.record, job := Job(body, seen, NamesOf(seen, body), []))
      else left
    case Restore(id) =>
      if id in s.arrivals then s.(record := s.arrivals[id].record, arrivals := s.arrivals - {id}) else s
    case Batch(reply) =>
      if s.job.Job? && |s.job.done| < |FetchOf(s.job).batches| then
        var job := s.job.(done := s.job.done + [reply]);
        s.(record := s.record.(rows := MergeRows(s.record.rows, BatchRows(FetchOf(job), |s.job.done|))), job := job)
      else s
    case Close =>
      if Closes(s) then
        var f := FetchOf(s.job);
        var rows := if IsFull(s.job.body) then FinalRows(f) else MergeRows(s.record.rows, FinalRows(f));
        var stored := f.batches != [] && Readable(f, |f.batches|);
        var record := if !stored then s.record else Record(rows, Unique(Failures(f, |f.batches|)));
        s.(record := record, job := NoJob, finished := s.finished + [(s.job.seen, CallOf(s.job.body, s.job.done))])
      else s
  }

  /** The run from a state. */
  function RunFrom(s: State, actions: seq<Action>): State
    decreases actions
  {
    if actions == [] then s
    else Step(RunFrom(s, actions[..|actions| - 1]), actions[|actions| - 1])
  }

  function Run(start: Record, actions: seq<Action>): State {
    RunFrom(State(start, NoJob, map[], []), actions)
  }

  /** The finished jobs, one after another. */
  function Serial(start: Record, finished: seq<(Arrival, Call)>): Record {
    if finished == [] then start
    else
      var (seen, call) := finished[|finished| - 1];
      Sync(Serial(start, finished[..|finished| - 1]), seen.products, call)
  }

  // ---------------------------------------------------------------- one job

  /** The running job works on the names of its request. */
  ghost predicate Planned(s: State) {
    s.job.Job? ==>
      && s.job.names == NamesOf(s.job.seen, s.job.body) && 0 < |s.job.names| <= MAX_SKC_NAMES
      && |s.job.done| <= |FetchOf(s.job).batches|
  }

  /** Only the batches of the running job changed the record since its start. */
  ghost predicate JobInv(s: State) {
    && Planned(s)
    && (s.job.Job? ==>
      s.record == Record(CachedRows(s.job.seen.record.rows, FetchOf(s.job), |s.job.done|),
                            s.job.seen.record.failedSkcNames))
  }

  /** A later reply changes nothing about the batches before it. */
  lemma {:induction false} CachedRowsPrefix(rows: Rows, batches: seq<seq<string>>, done: seq<Reply>, reply: Reply, n: nat)
    requires n <= |done| && n <= |batches|
    ensures CachedRows(rows, Fetch(batches, Replies(done + [reply])), n)
         == CachedRows(rows, Fetch(batches, Replies(done)), n)
  {
    hide MergeRows, NormalizeRows;
    if n > 0 {
      CachedRowsPrefix(rows, batches, done, reply, n - 1);
      assert Replies(done + [reply])(n - 1) == Replies(done)(n - 1);
    }
  }

  lemma BatchJob(s: State, reply: Reply)
    requires JobInv(s)
    ensures JobInv(Step(s, Batch(reply)))
  {
    hide NamesOf, MergeRows, BatchRows;
    if s.job.Job? && |s.job.done| < |FetchOf(s.job).batches| {
      CachedRowsPrefix(s.job.seen.record.rows, FetchOf(s.job).batches, s.job.done, reply, |s.job.done|);
    }
  }

  /** A job that ends leaves what the sync of the record it had seen leaves. */
  lemma ClosedJob(s: State)
    requires JobInv(s) && Closes(s)
    ensures Step(s, Close).record == Sync(s.job.seen.record, s.job.seen.products, CallOf(s.job.body, s.job.done))
  {
    hide FinalRows, Failures, MergeRows, Requested, Unique;
    SameRequest(s.job.body, s.job.done);
    NoBatchesIff(UniqueNames(s.job.names));
  }

  lemma SameRequest(body: Body, done: seq<Reply>)
    ensures Requested(CallOf(body, done)) == Requested(CallOf(body, []))
  {
    var a, b := CallOf(body, done), CallOf(body, []);
    assert a.skcList == b.skcList;
    assert seq(|a.skcList|, i requires 0 <= i < |a.skcList| => Trim(a.skcList[i]))
        == seq(|b.skcList|, i requires 0 <= i < |b.skcList| => Trim(b.skcList[i]));
  }

  lemma NoBatchesIff(names: seq<string>)
    ensures Chunks(names) == [] <==> names == []
  {
  }

  // ---------------------------------------------------------------- when runs are serial

  /** Without a job the record is that of the finished jobs. A running job saw that record, and only
      its batches changed the rows since. */
  ghost predicate Inv(start: Record, s: State) {
    JobInv(s) && Serial(start, s.finished) == if s.job.Job? then s.job.seen.record else s.record
  }

  /** The action writes back the record as it is, if it writes one back. */
  ghost predicate Current(s: State, a: Action) {
    match a
    case Start(id, body) => Starts(s, id, body) ==> s.arrivals[id].record == s.record
    case Restore(id) => id in s.arrivals ==> s.arrivals[id].record == s.record
    case _ => true
  }

  lemma SerialSnoc(start: Record, finished: seq<(Arrival, Call)>, seen: Arrival, call: Call)
    ensures Serial(start, finished + [(seen, call)]) == Sync(Serial(start, finished), seen.products, call)
  {
    assert (finished + [(seen, call)])[..|finished + [(seen, call)]| - 1] == finished;
  }

  /** A step keeps the runs serial exactly when it writes back nothing old. */
  lemma StepInvIff(start: Record, s: State, a: Action)
    requires Inv(start, s)
    ensures Inv(start, Step(s, a)) <==> Current(s, a)
  {
    hide Serial, NamesOf, MergeRows, BatchRows, Sync;
    match a {
      case Batch(reply) => BatchJob(s, reply);
      case Close =>
        if Closes(s) {
          ClosedJob(s);
          SerialSnoc(start, s.finished, s.job.seen, CallOf(s.job.body, s.job.done));
        }
      case _ =>
    }
  }

  /** No action of the run writes back an old record. */
  ghost predicate AllCurrent(start: Record, actions: seq<Action>) {
    forall k :: 0 <= k < |actions| ==> Current(Run(start, actions[..k]), actions[k])
  }

  lemma RunSnoc(start: Record, actions: seq<Action>, k: nat)
    requires k < |actions|
    ensures Run(start, actions[..k + 1]) == Step(Run(start, actions[..k]), actions[k])
  {
    assert actions[..k + 1][..k] == actions[..k];
  }

  lemma {:induction false} CurrentRuns(start: Record, actions: seq<Action>, n: nat)
    requires n <= |actions| && AllCurrent(start, actions)
    ensures Inv(start, Run(start, actions[..n]))
  {
    if n > 0 {
      CurrentRuns(start, actions, n - 1);
      RunSnoc(start, actions, n - 1);
      StepInvIff(start, Run(start, actions[..n - 1]), actions[n - 1]);
    }
  }

  /** Every moment of a run is that of the finished jobs run one after another, and of the running
      job started after them, exactly when every record written back is the record as it is then. */
  lemma JobsAreSerialIff(start: Record, actions: seq<Action>)
    ensures (forall n :: 0 <= n <= |actions| ==> Inv(start, Run(start, actions[..n]))) <==> AllCurrent(start, actions)
  {
    hide Inv, Current;
    if AllCurrent(start, actions) {
      forall n | 0 <= n <= |actions| ensures Inv(start, Run(start, actions[..n])) { CurrentRuns(start, actions, n); }
    }
    if forall n :: 0 <= n <= |actions| ==> Inv(start, Run(start, actions[..n])) {
      forall k | 0 <= k < |actions| ensures Current(Run(start, actions[..k]), actions[k]) {
        RunSnoc(start, actions, k);
        StepInvIff(start, Run(start, actions[..k]), actions[k]);
      }
    }
  }

  /** So between jobs the record is then that of the finished jobs. */
  lemma JobsAreSerial(start: Record, actions: seq<Action>)
    requires AllCurrent(start, actions)
    ensures var s := Run(start, actions); s.job == NoJob ==> s.record == Serial(start, s.finished)
  {
    CurrentRuns(start, actions, |actions|);
    assert actions[..|actions|] == actions;
  }

  // ---------------------------------------------------------------- the race

  lemma RetryNames(seen: Arrival, body: Body)
    requires IsRetry(CallOf(body, [])) && Normal(seen.record.failedSkcNames)
    ensures NamesOf(seen, body) == seen.record.failedSkcNames
    ensures UniqueNames(NamesOf(seen, body)) == seen.record.failedSkcNames
  {
    UniqueIsIdentity(seen.record.failedSkcNames);
    NormalNames(seen.record.failedSkcNames);
  }

  const RETRY := Body([], true)

  /** A retry that was read while the first one ran: the first succeeds, then the second starts. */
  const RACE := [Arrive(0, []), Start(0, RETRY), Arrive(1, []), Batch(Complete([], [])), Close,
                 Start(1, RETRY), Batch(RequirementsFailed), Close]

  lemma OneName()
    ensures Normal(["a"]) && UniqueNames(["a"]) == ["a"] && Chunks(["a"]) == [["a"]]
  {
    assert Trim("a") == "a";
    NormalNames(["a"]);
  }

  /** A retry that had seen "a" as failed runs; its only batch has the replies `done`. */
  ghost predicate RetryRuns(s: State, seen: Arrival, done: seq<Reply>) {
    && JobInv(s) && s.job == Job(RETRY, seen, ["a"], done)
    && FetchOf(s.job).batches == [["a"]]
  }

  lemma RetryStarts(s: State, id: nat)
    requires s.job == NoJob && id in s.arrivals && s.arrivals[id].record.failedSkcNames == ["a"]
    ensures var t := Step(s, Start(id, RETRY));
      && RetryRuns(t, s.arrivals[id], []) && t.arrivals == s.arrivals - {id} && t.finished == s.finished
  {
    hide UniqueNames, Chunks, NamesOf, Normal;
    OneName();
    RetryNames(s.arrivals[id], RETRY);
    OneBatch();
    assert CachedRows(s.arrivals[id].record.rows, Plan(["a"], Replies([])), 0) == s.arrivals[id].record.rows;
    hide Plan, CachedRows, Requested;
  }

  lemma OneBatch()
    ensures Plan(["a"], Replies([])).batches == [["a"]]
  {
    OneName();
    hide UniqueNames, Chunks;
  }

  lemma RetryAnswered(s: State, seen: Arrival, reply: Reply)
    requires RetryRuns(s, seen, [])
    ensures var t := Step(s, Batch(reply));
      RetryRuns(t, seen, [reply]) && t.arrivals == s.arrivals && t.finished == s.finished
  {
    hide UniqueNames, Chunks, NamesOf, MergeRows, BatchRows, CachedRows;
    BatchJob(s, reply);
    assert Plan(["a"], Replies([reply])).batches == Plan(["a"], Replies([])).batches;
  }

  lemma RetryEnds(s: State, seen: Arrival, reply: Reply)
    requires RetryRuns(s, seen, [reply])
    ensures var t := Step(s, Close);
      && t.job == NoJob && t.arrivals == s.arrivals
      && t.record == Sync(seen.record, seen.products, CallOf(RETRY, [reply]))
      && t.finished == s.finished + [(seen, CallOf(RETRY, [reply]))]
  {
    hide UniqueNames, Chunks, NamesOf, MergeRows, FinalRows, Failures, Sync, Requested, CachedRows;
    ClosedJob(s);
  }

  /** The start of a retry of "a", its batch and its end. */
  lemma OneRetry(s: State, id: nat, reply: Reply)
    requires s.job == NoJob && id in s.arrivals && s.arrivals[id].record.failedSkcNames == ["a"]
    ensures var seen := s.arrivals[id]; var t := Step(Step(Step(s, Start(id, RETRY)), Batch(reply)), Close);
      && t.job == NoJob && t.arrivals == s.arrivals - {id}
      && t.record == Sync(seen.record, seen.products, CallOf(RETRY, [reply]))
      && t.finished == s.finished + [(seen, CallOf(RETRY, [reply]))]
  {
    hide Step, RetryRuns, Sync;
    RetryStarts(s, id);
    RetryAnswered(Step(s, Start(id, RETRY)), s.arrivals[id], reply);
    RetryEnds(Step(Step(s, Start(id, RETRY)), Batch(reply)), s.arrivals[id], reply);
  }

  lemma RetriedOnce(seen: Record, reply: Reply)
    requires seen.failedSkcNames == ["a"] && !reply.Unreadable?
    ensures var after := Sync(seen, [], CallOf(RETRY, [reply]));
      if reply.Complete? then after.failedSkcNames == [] && Skcs(after.rows) == Skcs(seen.rows) + {"a"}
      else after.failedSkcNames == ["a"] && Skcs(after.rows) == Skcs(seen.rows)
  {
    hide UniqueNames, Chunks, Normal, AfterJob, DistinctRows, Skcs, Unique;
    OneName();
    RetryNames(Arrival([], seen), RETRY);
    SameRequest(RETRY, [reply]);
    OneOutcome(Plan(["a"], Replies([reply])));
    JobOutcome(seen, ["a"], Replies([reply]), false);
  }

  lemma OneOutcome(f: Fetch)
    requires f.batches == [["a"]]
    ensures Successes(f, 1) == if f.replies(0).Complete? then ["a"] else []
    ensures Failures(f, 1) == if f.replies(0).Complete? then [] else ["a"]
  {
    assert Successes(f, 0) == [] && Failures(f, 0) == [];
  }

  /** A retry of "a" during which another request came. */
  lemma RetryWithArrival(s: State, reply: Reply)
    requires s.job == NoJob && 0 in s.arrivals && s.arrivals[0].record.failedSkcNames == ["a"] && 1 !in s.arrivals
    ensures var seen := s.arrivals[0];
      var t := Step(Step(Step(Step(s, Start(0, RETRY)), Arrive(1, [])), Batch(reply)), Close);
      && t.job == NoJob && 1 in t.arrivals && t.arrivals[1] == Arrival([], seen.record)
      && t.record == Sync(seen.record, seen.products, CallOf(RETRY, [reply]))
      && t.finished == s.finished + [(seen, CallOf(RETRY, [reply]))]
  {
    RetryStarts(s, 0);
    var s1 := Step(s, Start(0, RETRY));
    var s2 := Step(s1, Arrive(1, []));
    assert s1.record == s.arrivals[0].record;
    assert RetryRuns(s2, s.arrivals[0], []);
    hide Step, RetryRuns, Sync;
    RetryAnswered(s2, s.arrivals[0], reply);
    RetryEnds(Step(s2, Batch(reply)), s.arrivals[0], reply);
  }

  lemma RaceSteps(start: Record)
    ensures var s := Step(State(start, NoJob, map[], []), Arrive(0, []));
      var t := Step(Step(Step(Step(s, Start(0, RETRY)), Arrive(1, [])), Batch(Complete([], []))), Close);
      Run(start, RACE) == Step(Step(Step(t, Start(1, RETRY)), Batch(RequirementsFailed)), Close)
  {
    hide Step;
    var first := State(start, NoJob, map[], []);
    assert RunFrom(first, RACE[..0]) == first && RACE[..8] == RACE;
    RaceStep(first, 0);
    RaceStep(first, 1);
    RaceStep(first, 2);
    RaceStep(first, 3);
    RaceStep(first, 4);
    RaceStep(first, 5);
    RaceStep(first, 6);
    RaceStep(first, 7);
  }

  lemma RaceStep(first: State, k: nat)
    requires k < |RACE|
    ensures RunFrom(first, RACE[..k + 1]) == Step(RunFrom(first, RACE[..k]), RACE[k])
  {
    assert RACE[..k + 1][..k] == RACE[..k];
  }

  /** The second retry writes back the record from before the first: the row that "a" got is gone and
      "a" is listed as failed again, while the two jobs one after the other leave the row. */
  lemma OldRecordComesBack()
    ensures var start := Record([], ["a"]); var s := Run(start, RACE);
      && s.job == NoJob && Skcs(s.record.rows) == {} && s.record.failedSkcNames == ["a"]
      && Skcs(Serial(start, s.finished).rows) == {"a"} && Serial(start, s.finished).failedSkcNames == []
      && !AllCurrent(start, RACE)
  {
    hide Run, Sync, Serial, AllCurrent, CallOf, IsRetry;
    var start := Record([], ["a"]);
    RaceEnds(start);
    RaceSerial(start);
    RetriedOnce(start, Complete([], []));
    RetriedOnce(start, RequirementsFailed);
    if AllCurrent(start, RACE) { JobsAreSerial(start, RACE); }
  }

  lemma RaceSerial(start: Record)
    requires start.failedSkcNames == ["a"]
    ensures var good, bad := CallOf(RETRY, [Complete([], [])]), CallOf(RETRY, [RequirementsFailed]);
      var seen := Arrival([], start);
      Serial(start, [(seen, good), (seen, bad)]) == Sync(start, [], good)
  {
    var good, bad := CallOf(RETRY, [Complete([], [])]), CallOf(RETRY, [RequirementsFailed]);
    var seen := Arrival([], start);
    RetriedOnce(start, Complete([], []));
    SameRequest(RETRY, [RequirementsFailed]);
    assert Serial(start, []) == start && IsRetry(bad);
    hide Sync, Serial, CallOf, IsRetry;
    SerialSnoc(start, [], seen, good);
    SerialSnoc(start, [(seen, good)], seen, bad);
    NothingToRetry(Sync(start, [], good), bad);
  }

  lemma RaceEnds(start: Record)
    requires start.failedSkcNames == ["a"]
    ensures var good, bad := CallOf(RETRY, [Complete([], [])]), CallOf(RETRY, [RequirementsFailed]);
      var seen := Arrival([], start); var s := Run(start, RACE);
      s.job == NoJob && s.record == Sync(start, [], bad) && s.finished == [(seen, good), (seen, bad)]
  {
    var s := Step(State(start, NoJob, map[], []), Arrive(0, []));
    RaceSteps(start);
    RetryWithArrival(s, Complete([], []));
    var t := Step(Step(Step(Step(s, Start(0, RETRY)), Arrive(1, [])), Batch(Complete([], []))), Close);
    hide Step, Sync, Run;
    OneRetry(t, 1, RequirementsFailed);
  }

  lemma NothingToRetry(before: Record, call: Call)
    requires before.failedSkcNames == [] && IsRetry(call)
    ensures Sync(before, [], call) == before
  {
  }
}
