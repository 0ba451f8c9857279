/** The store sync's rate limiter: requests form a chain, first attempts keep an interval, and a
    request refused by the platform's own limit is tried again after a growing pause. A sleep lasts
    at least as long as asked for; the clock never goes back. Tasks are numbered as submitted. */
module RateLimiter {

  const MIN_INTERVAL := 150
  const RETRY_DELAYS := [1500, 3000, 6000]
  const MAX_ATTEMPTS := 4
  const MAX_RETRY_SLEEP := 10500

  datatype Reply = Success | RateLimited | OtherError

  datatype Event =
    | Started(task: nat, attempt: nat, at: int)
    | Answered(task: nat, attempt: nat, reply: Reply)
    | Slept(task: nat, ms: nat)

  /** Where the head of the chain is. */
  datatype Phase =
    | Idle
    | Waiting(until: int)
    | Requesting(attempt: nat)
    | Sleeping(attempt: nat, until: int)

  /** `begun` counts the tasks that left the chain, the last of which may still be under way. */
  datatype State = State(
    now: int,
    submitted: nat,
    begun: nat,
    phase: Phase,
    nextRequestAt: int,
    settled: seq<Reply>,
    log: seq<Event>)

  datatype Action = Submit | Tick(ms: nat) | Begin | Wake | Answer(reply: Reply)

  function Init(now: nat): State { State(now, 0, 0, Idle, 0, [], []) }

  function FirstAttempt(s: State, task: nat): State {
    s.(phase := Requesting(0), nextRequestAt := s.now + MIN_INTERVAL, log := s.log + [Started(task, 0, s.now)])
  }

  function Step(s: State, a: Action): State {
    match a
    case Submit => s.(submitted := s.submitted + 1)
    case Tick(ms) => s.(now := s.now + ms)
    case Begin =>
      if !s.phase.Idle? || s.begun == s.submitted then s
      else if s.nextRequestAt > s.now then s.(begun := s.begun + 1, phase := Waiting(s.nextRequestAt))
      else FirstAttempt(s.(begun := s.begun + 1), s.begun)
    case Wake =>
      if s.begun == 0 then s
      else if s.phase.Waiting? && s.now >= s.phase.until then FirstAttempt(s, s.begun - 1)
      else if s.phase.Sleeping? && s.now >= s.phase.until then
        s.(phase := Requesting(s.phase.attempt + 1), nextRequestAt := s.now,
           log := s.log + [Started(s.begun - 1, s.phase.attempt + 1, s.now)])
      else s
    case Answer(reply) =>
      if !s.phase.Requesting? || s.begun == 0 then s
      else
        var heard := s.(log := s.log + [Answered(s.begun - 1, s.phase.attempt, reply)]);
        if reply.RateLimited? && s.phase.attempt < |RETRY_DELAYS| then
          var delay := RETRY_DELAYS[s.phase.attempt];
          heard.(phase := Sleeping(s.phase.attempt, s.now + delay), log := heard.log + [Slept(s.begun - 1, delay)])
        else heard.(phase := Idle, settled := s.settled + [reply])
  }

  function Run(start: nat, actions: seq<Action>): State
    decreases actions
  {
    if actions == [] then Init(start) else Step(Run(start, actions[..|actions| - 1]), actions[|actions| - 1])
  }

  // ---------------------------------------------------------------- what the log says

  /** The first attempts, in the order they were made. */
  function FirstStarts(log: seq<Event>): seq<Event> {
    if log == [] then []
    else
      var e := log[|log| - 1];
      FirstStarts(log[..|log| - 1]) + if e.Started? && e.attempt == 0 then [e] else []
  }

  function Attempts(log: seq<Event>, task: nat): nat {
    if log == [] then 0
    else
      var e := log[|log| - 1];
      Attempts(log[..|log| - 1], task) + if e.Started? && e.task == task then 1 else 0
  }

  /** The milliseconds that a task slept for its retries. */
  function RetrySleep(log: seq<Event>, task: nat): nat {
    if log == [] then 0
    else
      var e := log[|log| - 1];
      RetrySleep(log[..|log| - 1], task) + if e.Slept? && e.task == task then e.ms else 0
  }

  datatype Outstanding = Nothing | One(task: nat, attempt: nat) | Broken

  /** The request in the platform's hands; broken once a request starts while another is out. */
  function InPlatform(log: seq<Event>): Outstanding {
    if log == [] then Nothing
    else
      var before := InPlatform(log[..|log| - 1]);
      match log[|log| - 1]
      case Started(task, attempt, _) => if before == Nothing then One(task, attempt) else Broken
      case Answered(task, attempt, _) => if before == One(task, attempt) then Nothing else Broken
      case Slept(_, _) => if before == Nothing then Nothing else Broken
  }

  lemma LogGrows(log: seq<Event>, e: Event, task: nat)
    ensures FirstStarts(log + [e]) == if e.Started? && e.attempt == 0 then FirstStarts(log) + [e] else FirstStarts(log)
    ensures Attempts(log + [e], task) == Attempts(log, task) + if e.Started? && e.task == task then 1 else 0
    ensures RetrySleep(log + [e], task) == RetrySleep(log, task) + if e.Slept? && e.task == task then e.ms else 0
    ensures InPlatform(log + [e]) == match e
      case Started(t, attempt, _) => if InPlatform(log) == Nothing then One(t, attempt) else Broken
      case Answered(t, attempt, _) => if InPlatform(log) == One(t, attempt) then Nothing else Broken
      case Slept(_, _) => if InPlatform(log) == Nothing then Nothing else Broken
  {
    assert (log + [e])[..|log + [e]| - 1] == log;
  }

  // ---------------------------------------------------------------- invariants

  /** At most one request is out, and it is the current attempt of the current task. */
  ghost predicate OneInv(s: State) {
    && (s.begun > 0 || s.phase.Idle?)
    && InPlatform(s.log) == if s.phase.Requesting? then One(s.begun - 1, s.phase.attempt) else Nothing
  }

  lemma OneStep(s: State, a: Action)
    requires OneInv(s)
    ensures OneInv(Step(s, a))
  {
    hide FirstStarts, Attempts, RetrySleep, InPlatform;
    var t := Step(s, a);
    match a
    case Begin => LogGrows(s.log, Started(s.begun, 0, s.now), 0);
    case Wake =>
      if s.begun > 0 && s.phase.Waiting? { LogGrows(s.log, Started(s.begun - 1, 0, s.now), 0); }
      if s.begun > 0 && s.phase.Sleeping? { LogGrows(s.log, Started(s.begun - 1, s.phase.attempt + 1, s.now), 0); }
    case Answer(reply) =>
      if s.phase.Requesting? {
        var answered := s.log + [Answered(s.begun - 1, s.phase.attempt, reply)];
        LogGrows(s.log, Answered(s.begun - 1, s.phase.attempt, reply), 0);
        if s.phase.attempt < 3 { LogGrows(answered, Slept(s.begun - 1, RETRY_DELAYS[s.phase.attempt]), 0); }
      }
    case _ =>
  }

  /** First attempts are made in submission order, 150 ms apart, retries or not. */
  ghost predicate SpacingInv(s: State) {
    var first := FirstStarts(s.log);
    && s.begun <= s.submitted
    && (s.begun > 0 || s.phase.Idle?)
    && |first| == (if s.phase.Waiting? then s.begun - 1 else s.begun)
    && InOrder(first)
    && s.nextRequestAt <= s.now + MIN_INTERVAL
    && (s.phase.Waiting? ==> s.phase.until == s.nextRequestAt)
    && (s.phase.Requesting? || s.phase.Sleeping? ==> s.phase.attempt < MAX_ATTEMPTS)
    && (s.phase.Sleeping? ==> s.phase.attempt < |RETRY_DELAYS| && s.phase.until <= s.now + 6000)
    && (first != [] ==> Since(s, LastStart(first)))
  }

  ghost predicate InOrder(first: seq<Event>) {
    && (forall i :: 0 <= i < |first| ==> first[i].Started? && first[i].task == i && first[i].attempt == 0)
    && (forall i :: 0 < i < |first| ==> first[i].at >= first[i - 1].at + MIN_INTERVAL)
  }

  function LastStart(first: seq<Event>): int
    requires first != []
  {
    if first[|first| - 1].Started? then first[|first| - 1].at else 0
  }

  lemma InOrderSnoc(first: seq<Event>, at: int)
    requires InOrder(first) && (first != [] ==> at >= LastStart(first) + MIN_INTERVAL)
    ensures InOrder(first + [Started(|first|, 0, at)]) && LastStart(first + [Started(|first|, 0, at)]) == at
  {
  }

  /** The first attempt made last is not in the future, and the next one is far enough away. */
  ghost predicate Since(s: State, last: int) {
    && last <= s.now
    && s.nextRequestAt >= last + MIN_INTERVAL
    && (s.phase.Sleeping? ==> s.phase.until >= last + MIN_INTERVAL)
  }

  lemma SpacingAnswer(s: State, reply: Reply)
    requires SpacingInv(s) && s.phase.Requesting?
    ensures SpacingInv(Step(s, Answer(reply)))
  {
    hide FirstStarts, Attempts, RetrySleep, InPlatform, InOrder, LastStart;
    var answered := s.log + [Answered(s.begun - 1, s.phase.attempt, reply)];
    LogGrows(s.log, Answered(s.begun - 1, s.phase.attempt, reply), 0);
    if s.phase.attempt < 3 { LogGrows(answered, Slept(s.begun - 1, RETRY_DELAYS[s.phase.attempt]), 0); }
  }

  lemma SpacingWake(s: State)
    requires SpacingInv(s) && s.begun > 0
    ensures SpacingInv(Step(s, Wake))
  {
    hide FirstStarts, Attempts, RetrySleep, InPlatform, InOrder, LastStart;
    if s.phase.Waiting? && s.now >= s.phase.until {
      LogGrows(s.log, Started(s.begun - 1, 0, s.now), 0);
      InOrderSnoc(FirstStarts(s.log), s.now);
    }
    if s.phase.Sleeping? { LogGrows(s.log, Started(s.begun - 1, s.phase.attempt + 1, s.now), 0); }
  }

  lemma SpacingStep(s: State, a: Action)
    requires SpacingInv(s)
    ensures SpacingInv(Step(s, a))
  {
    hide FirstStarts, Attempts, RetrySleep, InPlatform, InOrder, LastStart;
    match a
    case Begin =>
      if s.phase.Idle? && s.nextRequestAt <= s.now {
        LogGrows(s.log, Started(s.begun, 0, s.now), 0);
        InOrderSnoc(FirstStarts(s.log), s.now);
      }
    case Wake => if s.begun > 0 { SpacingWake(s); }
    case Answer(reply) => if s.phase.Requesting? { SpacingAnswer(s, reply); }
    case _ =>
  }

  /** The pauses before an attempt. */
  function SleepBefore(attempt: nat): nat
    requires attempt < MAX_ATTEMPTS
  {
    if attempt == 0 then 0 else SleepBefore(attempt - 1) + RETRY_DELAYS[attempt - 1]
  }

  /** How often one task was tried and how long it slept so far. */
  ghost predicate BudgetInv(s: State, task: nat) {
    var attempts, slept := Attempts(s.log, task), RetrySleep(s.log, task);
    && (s.begun > 0 || s.phase.Idle?)
    && |s.settled| == (if s.phase.Idle? then s.begun else s.begun - 1)
    && (s.phase.Requesting? ==> s.phase.attempt < MAX_ATTEMPTS)
    && (s.phase.Sleeping? ==> s.phase.attempt < |RETRY_DELAYS|)
    && (if task >= s.begun || (task == s.begun - 1 && s.phase.Waiting?) then attempts == slept == 0
        else if task == s.begun - 1 && s.phase.Requesting? then
          attempts == s.phase.attempt + 1 && slept == SleepBefore(s.phase.attempt)
        else if task == s.begun - 1 && s.phase.Sleeping? then
          attempts == s.phase.attempt + 1 && slept == SleepBefore(s.phase.attempt + 1)
        else
          && 1 <= attempts <= MAX_ATTEMPTS && slept == SleepBefore(attempts - 1)
          && (s.settled[task].RateLimited? ==> attempts == MAX_ATTEMPTS))
  }

  lemma BudgetStep(s: State, a: Action, task: nat)
    requires BudgetInv(s, task)
    ensures BudgetInv(Step(s, a), task)
  {
    hide FirstStarts, Attempts, RetrySleep, InPlatform, SleepBefore;
    match a
    case Begin => LogGrows(s.log, Started(s.begun, 0, s.now), task); SleepBeforeStep(0);
    case Wake =>
      SleepBeforeStep(0);
      if s.begun > 0 && s.phase.Waiting? { LogGrows(s.log, Started(s.begun - 1, 0, s.now), task); }
      if s.begun > 0 && s.phase.Sleeping? { LogGrows(s.log, Started(s.begun - 1, s.phase.attempt + 1, s.now), task); }
    case Answer(reply) =>
      if s.phase.Requesting? {
        var answered := s.log + [Answered(s.begun - 1, s.phase.attempt, reply)];
        LogGrows(s.log, Answered(s.begun - 1, s.phase.attempt, reply), task);
        if s.phase.attempt < 3 {
          LogGrows(answered, Slept(s.begun - 1, RETRY_DELAYS[s.phase.attempt]), task);
          SleepBeforeStep(s.phase.attempt + 1);
        }
      }
    case _ =>
  }

  lemma SleepBeforeStep(attempt: nat)
    requires attempt < MAX_ATTEMPTS
    ensures SleepBefore(attempt) == if attempt == 0 then 0 else SleepBefore(attempt - 1) + RETRY_DELAYS[attempt - 1]
    ensures SleepBefore(attempt) <= MAX_RETRY_SLEEP
  {
    assert SleepBefore(1) == 1500;
    assert SleepBefore(2) == 4500;
    assert SleepBefore(3) == 10500;
  }

  /** What the platform answered to one task, in order. */
  function Heard(log: seq<Event>, task: nat): seq<Reply> {
    if log == [] then []
    else
      var e := log[|log| - 1];
      Heard(log[..|log| - 1], task) + if e.Answered? && e.task == task then [e.reply] else []
  }

  lemma HeardGrows(log: seq<Event>, e: Event, task: nat)
    ensures Heard(log + [e], task) == Heard(log, task) + if e.Answered? && e.task == task then [e.reply] else []
  {
    assert (log + [e])[..|log + [e]| - 1] == log;
  }

  ghost predicate AllRefused(replies: seq<Reply>) { forall i :: 0 <= i < |replies| ==> replies[i] == RateLimited }

  /** The task has its last answer; all earlier ones were refusals by the platform's own limit. */
  ghost predicate Settled(replies: seq<Reply>, reply: Reply) {
    replies != [] && replies[|replies| - 1] == reply && AllRefused(replies[..|replies| - 1])
  }

  /** Answers so far: a settled task has its own, the one under way was refused each time. */
  ghost predicate HeardInv(s: State, task: nat) {
    && (s.begun > 0 || s.phase.Idle?)
    && |s.settled| == (if s.phase.Idle? then s.begun else s.begun - 1)
    && (s.phase.Requesting? ==> s.phase.attempt < MAX_ATTEMPTS)
    && (s.phase.Sleeping? ==> s.phase.attempt < |RETRY_DELAYS|)
    && (task < |s.settled| ==>
          && Settled(Heard(s.log, task), s.settled[task])
          && (s.settled[task].RateLimited? ==> |Heard(s.log, task)| == MAX_ATTEMPTS))
    && (task == |s.settled| && !s.phase.Idle? ==>
          AllRefused(Heard(s.log, task)) && |Heard(s.log, task)| == match s.phase
            case Requesting(attempt) => attempt
            case Sleeping(attempt, _) => attempt + 1
            case _ => 0)
    && (task >= s.begun ==> Heard(s.log, task) == [])
  }

  lemma SettledSnoc(before: seq<Reply>, reply: Reply)
    requires AllRefused(before)
    ensures Settled(before + [reply], reply) && (reply.RateLimited? ==> AllRefused(before + [reply]))
  {
    assert (before + [reply])[..|before|] == before;
  }

  lemma HeardAnswer(s: State, reply: Reply, task: nat)
    requires HeardInv(s, task) && s.phase.Requesting? && s.begun > 0
    ensures HeardInv(Step(s, Answer(reply)), task)
  {
    hide Heard, Settled, AllRefused;
    var answered := s.log + [Answered(s.begun - 1, s.phase.attempt, reply)];
    HeardGrows(s.log, Answered(s.begun - 1, s.phase.attempt, reply), task);
    if s.phase.attempt < 3 { HeardGrows(answered, Slept(s.begun - 1, RETRY_DELAYS[s.phase.attempt]), task); }
    assert Heard(answered, task) + [] == Heard(answered, task) && Heard(s.log, task) + [] == Heard(s.log, task);
    if task == s.begun - 1 { SettledSnoc(Heard(s.log, task), reply); }
  }

  lemma HeardBegin(s: State, task: nat)
    requires HeardInv(s, task)
    ensures HeardInv(Step(s, Begin), task)
  {
    assert AllRefused([]);
    hide Heard, Settled, AllRefused;
    HeardGrows(s.log, Started(s.begun, 0, s.now), task);
    assert Heard(s.log, task) + [] == Heard(s.log, task);
  }

  lemma HeardWake(s: State, task: nat)
    requires HeardInv(s, task)
    ensures HeardInv(Step(s, Wake), task)
  {
    hide Heard, Settled, AllRefused;
    if s.begun > 0 && (s.phase.Waiting? || s.phase.Sleeping?) {
      HeardGrows(s.log, Started(s.begun - 1, if s.phase.Waiting? then 0 else s.phase.attempt + 1, s.now), task);
      assert Heard(s.log, task) + [] == Heard(s.log, task);
    }
  }

  lemma HeardStep(s: State, a: Action, task: nat)
    requires HeardInv(s, task)
    ensures HeardInv(Step(s, a), task)
  {
    match a
    case Begin => HeardBegin(s, task);
    case Wake => HeardWake(s, task);
    case Answer(reply) =>
      if s.phase.Requesting? && s.begun > 0 { HeardAnswer(s, reply, task); }
    case _ =>
      hide Heard, Settled, AllRefused;
  }

  lemma {:induction false} RunHeard(start: nat, actions: seq<Action>, task: nat)
    ensures HeardInv(Run(start, actions), task)
  {
    if actions != [] {
      RunHeard(start, actions[..|actions| - 1], task);
      HeardStep(Run(start, actions[..|actions| - 1]), actions[|actions| - 1], task);
    }
  }

  // ---------------------------------------------------------------- results over all runs

  lemma {:induction false} RunOne(start: nat, actions: seq<Action>)
    ensures OneInv(Run(start, actions))
  {
    if actions != [] {
      RunOne(start, actions[..|actions| - 1]);
      OneStep(Run(start, actions[..|actions| - 1]), actions[|actions| - 1]);
    }
  }

  lemma {:induction false} RunSpacing(start: nat, actions: seq<Action>)
    ensures SpacingInv(Run(start, actions))
  {
    if actions != [] {
      RunSpacing(start, actions[..|actions| - 1]);
      SpacingStep(Run(start, actions[..|actions| - 1]), actions[|actions| - 1]);
    }
  }

  lemma {:induction false} RunBudget(start: nat, actions: seq<Action>, task: nat)
    ensures BudgetInv(Run(start, actions), task)
  {
    if actions != [] {
      RunBudget(start, actions[..|actions| - 1], task);
      BudgetStep(Run(start, actions[..|actions| - 1]), actions[|actions| - 1], task);
    }
  }

  /** No request starts while another one is out. */
  lemma OneAtATime(start: nat, actions: seq<Action>)
    ensures InPlatform(Run(start, actions).log) != Broken
  {
    RunOne(start, actions);
  }

  lemma {:induction false} Spread(first: seq<Event>, i: nat, j: nat)
    requires i <= j < |first| && forall k :: 0 <= k < |first| ==> first[k].Started?
    requires forall k :: 0 < k < |first| ==> first[k].at >= first[k - 1].at + MIN_INTERVAL
    ensures first[j].at >= first[i].at + MIN_INTERVAL * (j - i)
    decreases j
  {
    if i < j { Spread(first, i, j - 1); }
  }

  /** The k-th first attempt is that of the k-th submitted task, and any two first attempts are as
      many intervals apart as there are tasks between them. */
  lemma FirstAttemptsInOrder(start: nat, actions: seq<Action>, i: nat, j: nat)
    requires i <= j < |FirstStarts(Run(start, actions).log)|
    ensures var first := FirstStarts(Run(start, actions).log);
      && first[i].Started? && first[j].Started? && first[i].task == i && first[j].task == j
      && first[j].at >= first[i].at + MIN_INTERVAL * (j - i)
  {
    RunSpacing(start, actions);
    Spread(FirstStarts(Run(start, actions).log), i, j);
  }

  /** A task is tried at most four times and sleeps at most 10.5 s for it; it fails by the
      platform's limit only after four attempts. */
  lemma BoundedRetries(start: nat, actions: seq<Action>, task: nat)
    ensures var s := Run(start, actions);
      && Attempts(s.log, task) <= MAX_ATTEMPTS && RetrySleep(s.log, task) <= MAX_RETRY_SLEEP
      && (task < |s.settled| && s.settled[task].RateLimited? ==> Attempts(s.log, task) == MAX_ATTEMPTS)
  {
    RunBudget(start, actions, task);
    SleepBeforeStep(1);
    SleepBeforeStep(2);
    SleepBeforeStep(3);
    SleepBeforeStep(0);
  }

  /** A task settles with the platform's last answer to it. All answers before that were refusals by the
      platform's own limit, so a success or any other error is final; such a refusal is so only as the
      fourth answer. */
  lemma LastAnswerSettles(start: nat, actions: seq<Action>, task: nat)
    ensures var s := Run(start, actions); var replies := Heard(s.log, task); var n := |replies|;
      && (forall i :: 0 <= i < n - 1 ==> replies[i] == RateLimited)
      && (task < |s.settled| <==> n > 0 && (replies[n - 1] != RateLimited || n == 4))
      && (task < |s.settled| ==> s.settled[task] == replies[n - 1])
  {
    RunHeard(start, actions, task);
    hide Run, Heard;
    var s := Run(start, actions);
    if task < |s.settled| {
      var replies := Heard(s.log, task);
      forall i | 0 <= i < |replies| - 1 ensures replies[i] == RateLimited { assert replies[..|replies| - 1][i] == replies[i]; }
    }
  }

  /** The platform answers, the chain goes on, six seconds pass and sleepers wake. */
  function Round(s: State, reply: Reply): State {
    Step(Step(Step(Step(s, Answer(reply)), Begin), Tick(6000)), Wake)
  }

  function Rounds(s: State, replies: seq<Reply>): State
    decreases replies
  {
    if replies == [] then s else Rounds(Round(s, replies[0]), replies[1..])
  }

  function Count(s: State): nat { |FirstStarts(s.log)| }

  /** Rounds that the current task can still keep the next one waiting. */
  function Patience(s: State): int {
    match s.phase
    case Idle => 1
    case Waiting(_) => 1
    case Requesting(attempt) => MAX_ATTEMPTS - attempt
    case Sleeping(attempt, _) => MAX_ATTEMPTS - attempt
  }

  lemma RoundStart(s: State, reply: Reply)
    requires SpacingInv(s) && (s.begun < s.submitted || s.phase.Waiting?)
    ensures var b := Step(Step(s, Answer(reply)), Begin);
      && SpacingInv(b) && b.submitted == s.submitted
      && (|| (b.phase.Requesting? && Count(b) > Count(s))
          || (b.phase.Waiting? && Count(b) == Count(s))
          || (b.phase.Sleeping? && Count(b) == Count(s) && b.begun == s.begun && Patience(b) == Patience(s)))
  {
    hide FirstStarts;
    var a := Step(s, Answer(reply));
    SpacingStep(s, Answer(reply));
    SpacingStep(a, Begin);
  }

  lemma RoundEnd(b: State)
    requires SpacingInv(b) && !b.phase.Idle?
    ensures var t := Step(Step(b, Tick(6000)), Wake);
      && SpacingInv(t) && t.phase.Requesting? && t.submitted == b.submitted && t.begun == b.begun
      && (b.phase.Requesting? ==> t.phase == b.phase && Count(t) == Count(b))
      && (b.phase.Waiting? ==> Count(t) > Count(b))
      && (b.phase.Sleeping? ==> Count(t) == Count(b) && Patience(t) < Patience(b))
  {
    hide FirstStarts;
    SpacingStep(b, Tick(6000));
    SpacingStep(Step(b, Tick(6000)), Wake);
  }

  lemma RoundProgress(s: State, reply: Reply)
    requires SpacingInv(s) && (s.begun < s.submitted || s.phase.Waiting?)
    ensures var t := Round(s, reply);
      && SpacingInv(t) && t.phase.Requesting? && t.submitted == s.submitted
      && (Count(t) > Count(s) || (Count(t) == Count(s) && t.begun == s.begun && Patience(t) < Patience(s)))
  {
    hide Step, SpacingInv, Count, Patience;
    RoundStart(s, reply);
    RoundEnd(Step(Step(s, Answer(reply)), Begin));
  }

  lemma PatiencePositive(s: State)
    requires SpacingInv(s)
    ensures 0 < Patience(s) <= MAX_ATTEMPTS
  {
  }

  lemma RoundsStep(s: State, replies: seq<Reply>)
    requires replies != []
    ensures Rounds(s, replies) == Rounds(Round(s, replies[0]), replies[1..])
    ensures Rounds(s, []) == s
  {
  }

  lemma SliceShift(replies: seq<Reply>, n: nat, k: nat)
    requires k <= n < |replies|
    ensures replies[..k + 1][1..] == replies[1..][..n][..k] && replies[..k + 1][0] == replies[0]
  {
    var a, b := replies[..k + 1][1..], replies[1..][..n][..k];
    forall i | 0 <= i < k ensures a[i] == b[i] {
      assert a[i] == replies[..k + 1][i + 1] == replies[i + 1];
      assert b[i] == replies[1..][..n][i] == replies[1..][i];
    }
  }

  lemma {:induction false} RoundsProgress(s: State, replies: seq<Reply>)
    requires SpacingInv(s) && (s.begun < s.submitted || s.phase.Waiting?)
    requires |replies| == Patience(s)
    ensures exists k :: 0 <= k <= |replies| && Count(Rounds(s, replies[..k])) > Count(s)
    decreases |replies|
  {
    hide Round, Rounds, FirstStarts, SpacingInv;
    PatiencePositive(s);
    var t := Round(s, replies[0]);
    RoundProgress(s, replies[0]);
    if Count(t) > Count(s) {
      RoundsStep(s, replies[..1]);
      RoundsStep(t, replies);
      assert replies[..1][1..] == [] && replies[..1][0] == replies[0];
      assert Count(Rounds(s, replies[..1])) > Count(s);
    } else {
      PatiencePositive(t);
      var rest := replies[1..][..Patience(t)];
      RoundsProgress(t, rest);
      var k :| 0 <= k <= |rest| && Count(Rounds(t, rest[..k])) > Count(t);
      RoundsStep(s, replies[..k + 1]);
      SliceShift(replies, Patience(t), k);
      assert Count(Rounds(s, replies[..k + 1])) > Count(s);
    }
  }

  /** A failing task never blocks the chain: however the platform answers, at most four rounds bring
      the next first attempt. */
  lemma NextTaskStarts(start: nat, actions: seq<Action>, replies: seq<Reply>)
    requires var s := Run(start, actions); s.begun < s.submitted || s.phase.Waiting?
    requires |replies| == MAX_ATTEMPTS
    ensures var s := Run(start, actions);
      exists k :: 0 <= k <= |replies| && Count(Rounds(s, replies[..k])) > Count(s)
  {
    hide Rounds, SpacingInv;
    var s := Run(start, actions);
    RunSpacing(start, actions);
    PatiencePositive(s);
    var some := replies[..Patience(s)];
    RoundsProgress(s, some);
    var k :| 0 <= k <= |some| && Count(Rounds(s, some[..k])) > Count(s);
    assert some[..k] == replies[..k];
  }

  /** `createRateLimitedRequest`: the variables it closes over, and a task between its `await`s. */
  class Limiter {
    var now: int
    var submitted: nat
    var begun: nat
    var phase: Phase
    var nextRequestAt: int
    var settled: seq<Reply>
    ghost var log: seq<Event>

    ghost function Contents(): State
      reads this
    {
      State(now, submitted, begun, phase, nextRequestAt, settled, log)
    }

    constructor (now: nat)
      ensures Contents() == Init(now)
    {
      this.now, submitted, begun, phase, nextRequestAt, settled, log := now, 0, 0, Idle, 0, [], [];
    }

    method Submit()
      modifies this
      ensures Contents() == Step(old(Contents()), Action.Submit)
    {
      submitted := submitted + 1;
    }

    /** The head of the chain runs until it requests or waits. */
    method Begin()
      requires phase.Idle? && begun < submitted
      modifies this
      ensures Contents() == Step(old(Contents()), Action.Begin)
    {
      begun := begun + 1;
      var waitMs := if nextRequestAt > now then nextRequestAt - now else 0;
      if waitMs > 0 {
        phase := Waiting(now + waitMs);
      } else {
        RequestFirst();
      }
    }

    method RequestFirst()
      requires begun > 0
      modifies this
      ensures Contents() == FirstAttempt(old(Contents()), old(begun) - 1)
    {
      nextRequestAt := now + MIN_INTERVAL;
      phase := Requesting(0);
      log := log + [Started(begun - 1, 0, now)];
    }

    /** A sleep is over. */
    method Wake()
      requires begun > 0
      requires phase.Waiting? || phase.Sleeping?
      requires now >= phase.until
      modifies this
      ensures Contents() == Step(old(Contents()), Action.Wake)
    {
      if phase.Waiting? {
        RequestFirst();
      } else {
        nextRequestAt := now;
        log := log + [Started(begun - 1, phase.attempt + 1, now)];
        phase := Requesting(phase.attempt + 1);
      }
    }

    /** The platform answers the request that is out. */
    method Answer(reply: Reply)
      requires begun > 0 && phase.Requesting?
      modifies this
      ensures Contents() == Step(old(Contents()), Action.Answer(reply))
    {
      log := log + [Answered(begun - 1, phase.attempt, reply)];
      if reply.RateLimited? && phase.attempt < |RETRY_DELAYS| {
        log := log + [Slept(begun - 1, RETRY_DELAYS[phase.attempt])];
        phase := Sleeping(phase.attempt, now + RETRY_DELAYS[phase.attempt]);
      } else {
        settled := settled + [reply];
        phase := Idle;
      }
    }
  }
}
