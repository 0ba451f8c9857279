/** The store sync's worker pool: a few asynchronous workers share one cursor and write the answers
    of a mapper into one array. A worker runs from one answer of the mapper to its next call without
    interruption; between these points any worker may be the one that goes on. */
module ConcurrentMap {

  datatype Answer<U> = Value(value: U) | Error(message: string)

  datatype Slot<U> = Empty | Filled(value: U)

  datatype Worker = Calling(index: nat) | Finished | Stopped

  datatype Outcome<U> = Resolved(values: seq<Slot<U>>) | Rejected(message: string)

  datatype Pool<U> = Pool(
    cursor: nat,
    result: seq<Slot<U>>,
    workers: seq<Worker>,
    calls: seq<nat>,
    errors: seq<string>)

  /** The values to map, the limit and what the mapper answers for each value. */
  datatype Input<!T, U> = Input(values: seq<T>, limit: int, mapper: (T, nat) -> Answer<U>) {
    function Answer(i: nat): Answer<U>
      requires i < |values|
    {
      mapper(values[i], i)
    }

    function Workers(): nat {
      var wanted := if limit < 1 then 1 else limit;
      if wanted < |values| then wanted else |values|
    }
  }

  function Upto(n: nat): seq<nat> { seq(n, i => i) }

  /** All workers were created: each has run up to its first call. */
  function Start<T, U>(input: Input<T, U>): Pool<U> {
    var w := input.Workers();
    Pool(w, seq(|input.values|, i => Empty), seq(w, i requires 0 <= i < w => Calling(i)), Upto(w), [])
  }

  /** The mapper's answer reaches worker `w`, which stores it and takes the next index, if any. */
  function Resume<T, U>(input: Input<T, U>, s: Pool<U>, w: nat): Pool<U>
    requires |s.result| == |input.values|
    requires forall v :: 0 <= v < |s.workers| && s.workers[v].Calling? ==> s.workers[v].index < |input.values|
  {
    if w >= |s.workers| || !s.workers[w].Calling? then s
    else
      var i := s.workers[w].index;
      match input.Answer(i)
      case Error(message) => s.(workers := s.workers[w := Stopped], errors := s.errors + [message])
      case Value(value) =>
        var stored := s.(result := s.result[i := Filled(value)]);
        if s.cursor < |input.values| then
          stored.(cursor := s.cursor + 1, workers := s.workers[w := Calling(s.cursor)], calls := s.calls + [s.cursor])
        else stored.(workers := s.workers[w := Finished])
  }

  /** Every index below the cursor was taken once, in order, and is either with one worker or answered. */
  ghost predicate Inv<T, U>(input: Input<T, U>, s: Pool<U>) {
    var n := |input.values|;
    && |s.result| == n && |s.workers| == input.Workers() <= s.cursor <= n
    && s.calls == Upto(s.cursor)
    && InFlightApart(s)
    && (forall i :: 0 <= i < s.cursor ==> Taken(input, s, i))
    && (forall i :: s.cursor <= i < n ==> s.result[i] == Empty)
    && (forall w :: 0 <= w < |s.workers| && s.workers[w].Finished? ==> s.cursor == n)
    && (forall w :: 0 <= w < |s.workers| && s.workers[w].Stopped? ==> s.errors != [])
    && (s.errors != [] ==> exists i :: 0 <= i < n && input.Answer(i) == Error(s.errors[0]))
  }

  ghost predicate InFlightApart<U>(s: Pool<U>) {
    && (forall w :: 0 <= w < |s.workers| && s.workers[w].Calling? ==> s.workers[w].index < s.cursor)
    && (forall v, w :: 0 <= v < w < |s.workers| && s.workers[v].Calling? && s.workers[w].Calling? ==>
          s.workers[v].index != s.workers[w].index)
  }

  ghost predicate InFlight<U>(s: Pool<U>, i: nat) {
    exists w :: 0 <= w < |s.workers| && s.workers[w] == Calling(i)
  }

  ghost predicate Taken<T, U>(input: Input<T, U>, s: Pool<U>, i: nat)
    requires i < |input.values| == |s.result|
  {
    if InFlight(s, i) then s.result[i] == Empty
    else if input.Answer(i).Value? then s.result[i] == Filled(input.Answer(i).value)
    else s.errors != [] && s.result[i] == Empty
  }

  lemma StartInv<T, U>(input: Input<T, U>)
    ensures Inv(input, Start(input))
    ensures var most := if input.limit < 1 then 1 else input.limit;
      |Start(input).calls| == if most < |input.values| then most else |input.values|
  {
    var s := Start(input);
    forall i | 0 <= i < s.cursor ensures Taken(input, s, i) { assert s.workers[i] == Calling(i); }
  }

  lemma ResumeInv<T, U>(input: Input<T, U>, s: Pool<U>, w: nat)
    requires Inv(input, s)
    ensures Inv(input, Resume(input, s, w))
  {
    if w < |s.workers| && s.workers[w].Calling? {
      ResumeTaken(input, s, w);
      var t := Resume(input, s, w);
      assert t.calls == Upto(t.cursor);
      if input.Answer(s.workers[w].index).Error? && s.errors == [] {
        assert input.Answer(s.workers[w].index) == Error(t.errors[0]);
      }
    }
  }

  lemma ResumeTaken<T, U>(input: Input<T, U>, s: Pool<U>, w: nat)
    requires Inv(input, s) && w < |s.workers| && s.workers[w].Calling?
    ensures var t := Resume(input, s, w);
      |t.result| == |input.values| && s.cursor <= t.cursor <= |input.values|
      && forall i :: 0 <= i < t.cursor ==> Taken(input, t, i)
  {
    var t := Resume(input, s, w);
    forall i | 0 <= i < t.cursor ensures Taken(input, t, i) {
      if i == s.cursor {
        assert t.workers[w] == Calling(i);
      } else if i == s.workers[w].index {
        assert Taken(input, s, i) && InFlight(s, i);
        assert !InFlight(t, i);
      } else {
        assert Taken(input, s, i);
        if InFlight(s, i) {
          var v :| 0 <= v < |s.workers| && s.workers[v] == Calling(i);
          assert t.workers[v] == Calling(i);
        } else {
          forall v | 0 <= v < |t.workers| ensures t.workers[v] != Calling(i) {
            assert s.workers[v] != Calling(i);
          }
        }
      }
    }
  }

  /** Whichever workers go on, in whichever order. */
  function Run<T, U>(input: Input<T, U>, schedule: seq<nat>): (s: Pool<U>)
    ensures Inv(input, s)
    decreases schedule
  {
    if schedule == [] then StartInv(input); Start(input)
    else
      var before := Run(input, schedule[..|schedule| - 1]);
      ResumeInv(input, before, schedule[|schedule| - 1]);
      Resume(input, before, schedule[|schedule| - 1])
  }

  ghost predicate Settled<U>(s: Pool<U>) {
    forall w :: 0 <= w < |s.workers| ==> !s.workers[w].Calling?
  }

  /** What `Promise.all` over the workers gives: the first error, or else the array. */
  function Result<U>(s: Pool<U>): Outcome<U> {
    if s.errors != [] then Rejected(s.errors[0]) else Resolved(s.result)
  }

  /** The sequential map. */
  function Mapped<T, U>(input: Input<T, U>): seq<Slot<U>> {
    seq(|input.values|, i requires 0 <= i < |input.values| =>
      match input.Answer(i) case Value(value) => Filled(value) case Error(_) => Empty)
  }

  ghost predicate Succeeds<T, U>(input: Input<T, U>) {
    forall i :: 0 <= i < |input.values| ==> input.Answer(i).Value?
  }

  /** The indices that the mapper is working on. */
  ghost function Pending(workers: seq<Worker>): set<nat> {
    set w | w in workers && w.Calling? :: w.index
  }

  lemma {:induction false} PendingBounded(workers: seq<Worker>)
    ensures |Pending(workers)| <= |workers|
  {
    if workers == [] {
      assert Pending(workers) == {};
    } else {
      var n := |workers| - 1;
      PendingBounded(workers[..n]);
      PendingSnoc(workers);
    }
  }

  lemma PendingSnoc(workers: seq<Worker>)
    requires workers != []
    ensures var n := |workers| - 1;
      Pending(workers) == Pending(workers[..n]) + if workers[n].Calling? then {workers[n].index} else {}
  {
    var n := |workers| - 1;
    assert workers == workers[..n] + [workers[n]];
  }

  /** At any moment of any schedule each index was taken at most once, in order, and at most
      `min(max(1, limit), n)` calls are in flight. */
  lemma TakenOnce<T, U>(input: Input<T, U>, schedule: seq<nat>)
    ensures var s := Run(input, schedule);
      && s.calls == Upto(s.cursor) && s.cursor <= |input.values|
      && |Pending(s.workers)| <= (if input.limit < 1 then 1 else input.limit) && |Pending(s.workers)| <= |input.values|
      && (forall v, w :: 0 <= v < w < |s.workers| && s.workers[v].Calling? && s.workers[w].Calling? ==>
            s.workers[v].index != s.workers[w].index)
  {
    PendingBounded(Run(input, schedule).workers);
  }

  /** Once no call is in flight: if nothing failed, every index was taken exactly once and the array
      is the sequential map. If something failed, the error is one that the mapper gave. */
  lemma SettledResult<T, U>(input: Input<T, U>, s: Pool<U>)
    requires Inv(input, s) && Settled(s)
    ensures Succeeds(input) ==> Result(s) == Resolved(Mapped(input)) && s.calls == Upto(|input.values|)
    ensures !Succeeds(input) ==> exists i :: 0 <= i < |input.values| && input.Answer(i).Error?
                                          && Result(s) == Rejected(input.Answer(i).message)
  {
    if s.errors == [] {
      if |input.values| > 0 { assert s.workers[0].Finished?; }
      forall i | 0 <= i < |input.values| ensures s.result[i] == Mapped(input)[i] && input.Answer(i).Value? {
        assert Taken(input, s, i);
      }
    } else {
      var i :| 0 <= i < |input.values| && input.Answer(i) == Error(s.errors[0]);
      assert Result(s) == Rejected(input.Answer(i).message);
    }
  }

  /** With a mapper that succeeds, every complete schedule gives the sequential map. */
  lemma ScheduleIndependent<T, U>(input: Input<T, U>, schedule: seq<nat>)
    requires Succeeds(input) && Settled(Run(input, schedule))
    ensures Result(Run(input, schedule)) == Resolved(Mapped(input))
    ensures Run(input, schedule).calls == Upto(|input.values|)
  {
    SettledResult(input, Run(input, schedule));
  }

  /** The indices not answered yet: those not taken and those in flight. */
  function Left<T, U>(input: Input<T, U>, s: Pool<U>): int { |input.values| - s.cursor + Callers(s.workers) }

  function Callers(workers: seq<Worker>): nat {
    if workers == [] then 0
    else Callers(workers[..|workers| - 1]) + if workers[|workers| - 1].Calling? then 1 else 0
  }

  lemma {:induction false} CallersUpdate(workers: seq<Worker>, w: nat, next: Worker)
    requires w < |workers| && workers[w].Calling?
    ensures Callers(workers[w := next]) == Callers(workers) - if next.Calling? then 0 else 1
  {
    var n := |workers| - 1;
    if w == n {
      assert workers[w := next][..n] == workers[..n];
    } else {
      CallersUpdate(workers[..n], w, next);
      assert workers[w := next][..n] == workers[..n][w := next];
    }
  }

  /** Every answer brings the pool closer to its end, so no worker waits for another. */
  lemma ResumeProgress<T, U>(input: Input<T, U>, s: Pool<U>, w: nat)
    requires Inv(input, s) && w < |s.workers| && s.workers[w].Calling?
    ensures 0 <= Left(input, Resume(input, s, w)) < Left(input, s)
  {
    CallersUpdate(s.workers, w, Resume(input, s, w).workers[w]);
  }

  /** `mapConcurrent` with its cursor, array and workers updated in place. */
  class WorkerPool<T, U> {
    const input: Input<T, U>
    var cursor: nat
    var result: seq<Slot<U>>
    var workers: seq<Worker>
    ghost var calls: seq<nat>
    var errors: seq<string>

    ghost function Contents(): Pool<U>
      reads this
    {
      Pool(cursor, result, workers, calls, errors)
    }

    constructor (input: Input<T, U>)
      ensures this.input == input && Contents() == Start(input)
    {
      this.input := input;
      var w := input.Workers();
      cursor, result := w, seq(|input.values|, i => Empty);
      workers, calls, errors := seq(w, i requires 0 <= i < w => Calling(i)), Upto(w), [];
    }

    /** A worker goes on from its `await`. */
    method Continue(w: nat)
      requires Inv(input, Contents())
      requires w < |workers| && workers[w].Calling?
      modifies this
      ensures Contents() == Resume(input, old(Contents()), w) && Inv(input, Contents())
      ensures 0 <= Left(input, Contents()) < Left(input, old(Contents()))
    {
      ResumeInv(input, Contents(), w);
      ResumeProgress(input, Contents(), w);
      var i := workers[w].index;
      match input.Answer(i) {
        case Error(message) =>
          workers := workers[w := Stopped];
          errors := errors + [message];
        case Value(value) =>
          result := result[i := Filled(value)];
          if cursor < |input.values| {
            workers := workers[w := Calling(cursor)];
            calls := calls + [cursor];
            cursor := cursor + 1;
          } else {
            workers := workers[w := Finished];
          }
      }
    }
  }

  /** `mapConcurrent`: whichever worker goes on next, the outcome is that of the sequential map, and
      an error is one of the mapper's. */
  method MapConcurrent<T, U>(input: Input<T, U>) returns (outcome: Outcome<U>)
    ensures Succeeds(input) ==> outcome == Resolved(Mapped(input))
    ensures !Succeeds(input) ==> exists i :: 0 <= i < |input.values| && input.Answer(i).Error?
                                          && outcome == Rejected(input.Answer(i).message)
  {
    var pool := new WorkerPool(input);
    StartInv(input);
    while exists w :: 0 <= w < |pool.workers| && pool.workers[w].Calling?
      invariant pool.input == input && fresh(pool) && Inv(input, pool.Contents())
      decreases Left(input, pool.Contents())
    {
      var w :| 0 <= w < |pool.workers| && pool.workers[w].Calling?;
      pool.Continue(w);
    }
    SettledResult(input, pool.Contents());
    outcome := if pool.errors != [] then Rejected(pool.errors[0]) else Resolved(pool.result);
  }
}
