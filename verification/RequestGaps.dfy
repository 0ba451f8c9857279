/** The time between any two requests that the rate limiter sends one after the other. */
module RequestGaps {
  import opened RateLimiter

  /** All requests sent, first attempts and retries, in order. */
  function Starts(log: seq<Event>): seq<Event> {
    if log == [] then []
    else
      var e := log[|log| - 1];
      Starts(log[..|log| - 1]) + if e.Started? then [e] else []
  }

  lemma StartsSnoc(log: seq<Event>, e: Event)
    ensures Starts(log + [e]) == if e.Started? then Starts(log) + [e] else Starts(log)
  {
    assert (log + [e])[..|log + [e]| - 1] == log;
  }

  /** The request `b` sent right after `a` is the next attempt of the same task, after its pause, or the
      first attempt of the next task. That one keeps the interval unless `a` was a retry. */
  ghost predicate Follows(a: Event, b: Event) {
    && a.Started? && b.Started?
    && if b.attempt > 0 then
         && b.task == a.task && b.attempt == a.attempt + 1 < MAX_ATTEMPTS
         && b.at >= a.at + RETRY_DELAYS[a.attempt]
       else b.task == a.task + 1 && b.at >= a.at + if a.attempt == 0 then MIN_INTERVAL else 0
  }

  ghost predicate Chained(starts: seq<Event>) {
    && (starts != [] ==> starts[0].Started? && starts[0].task == starts[0].attempt == 0)
    && forall i :: 0 < i < |starts| ==> Follows(starts[i - 1], starts[i])
  }

  lemma ChainedSnoc(starts: seq<Event>, e: Event)
    requires Chained(starts) && e.Started?
    requires if starts == [] then e.task == e.attempt == 0 else Follows(starts[|starts| - 1], e)
    ensures Chained(starts + [e])
  {
  }

  /** The request sent last, and when the next one may follow it. */
  ghost predicate Last(s: State, last: Event) {
    && last.Started? && last.at <= s.now && last.attempt < MAX_ATTEMPTS
    && s.nextRequestAt >= last.at + (if last.attempt == 0 then MIN_INTERVAL else 0)
    && last.task == (if s.phase.Waiting? then s.begun - 2 else s.begun - 1)
    && (s.phase.Waiting? ==> s.phase.until == s.nextRequestAt)
    && (s.phase.Requesting? ==> s.phase.attempt == last.attempt)
    && (s.phase.Sleeping? ==>
          && s.phase.attempt == last.attempt < |RETRY_DELAYS|
          && s.phase.until >= last.at + RETRY_DELAYS[last.attempt])
  }

  ghost predicate GapInv(s: State) {
    var starts := Starts(s.log);
    && Chained(starts)
    && (s.begun > 0 || s.phase.Idle?)
    && if starts == [] then s.begun == if s.phase.Waiting? then 1 else 0 else Last(s, starts[|starts| - 1])
  }

  lemma GapWake(s: State)
    requires GapInv(s) && s.begun > 0
    ensures GapInv(Step(s, Wake))
  {
    hide Starts, Chained;
    if s.phase.Waiting? && s.now >= s.phase.until {
      var e := Started(s.begun - 1, 0, s.now);
      StartsSnoc(s.log, e);
      ChainedSnoc(Starts(s.log), e);
    }
    if s.phase.Sleeping? && s.now >= s.phase.until {
      var e := Started(s.begun - 1, s.phase.attempt + 1, s.now);
      StartsSnoc(s.log, e);
      ChainedSnoc(Starts(s.log), e);
    }
  }

  lemma GapBegin(s: State)
    requires GapInv(s)
    ensures GapInv(Step(s, Begin))
  {
    hide Starts, Chained;
    if s.phase.Idle? && s.begun != s.submitted && s.nextRequestAt <= s.now {
      var e := Started(s.begun, 0, s.now);
      StartsSnoc(s.log, e);
      ChainedSnoc(Starts(s.log), e);
    }
  }

  lemma GapAnswer(s: State, reply: Reply)
    requires GapInv(s) && s.begun > 0
    ensures GapInv(Step(s, Answer(reply)))
  {
    hide Starts, Chained;
    if s.phase.Requesting? {
      var answered := Answered(s.begun - 1, s.phase.attempt, reply);
      StartsSnoc(s.log, answered);
      if s.phase.attempt < 3 { StartsSnoc(s.log + [answered], Slept(s.begun - 1, RETRY_DELAYS[s.phase.attempt])); }
    }
  }

  lemma GapStep(s: State, a: Action)
    requires GapInv(s)
    ensures GapInv(Step(s, a))
  {
    hide Starts, Chained;
    match a
    case Begin => GapBegin(s);
    case Wake => if s.begun > 0 { GapWake(s); }
    case Answer(reply) => if s.begun > 0 { GapAnswer(s, reply); }
    case _ =>
  }

  lemma {:induction false} RunGap(start: nat, actions: seq<Action>)
    ensures GapInv(Run(start, actions))
  {
    if actions != [] {
      RunGap(start, actions[..|actions| - 1]);
      GapStep(Run(start, actions[..|actions| - 1]), actions[|actions| - 1]);
    }
  }

  /** In every run, any two requests sent one after the other are at least 150 ms apart, unless the
      earlier one is a retry and the later one is the first attempt of the next task. */
  lemma ConsecutiveRequests(start: nat, actions: seq<Action>, i: nat)
    requires 0 < i < |Starts(Run(start, actions).log)|
    ensures var starts := Starts(Run(start, actions).log);
      && Follows(starts[i - 1], starts[i])
      && (starts[i].at >= starts[i - 1].at + MIN_INTERVAL || (starts[i - 1].attempt > 0 && starts[i].attempt == 0))
  {
    RunGap(start, actions);
  }

  // ---------------------------------------------------------------- exactly when the interval holds

  predicate IsRetry(e: Event) { e.Started? && e.attempt > 0 }

  /** The `i`-th request and the one before it are of these kinds and closer than the interval. */
  ghost predicate TooClose(starts: seq<Event>, i: nat, afterRetry: bool, retry: bool) {
    && 0 < i < |starts| && starts[i - 1].Started? && starts[i].Started?
    && IsRetry(starts[i - 1]) == afterRetry && IsRetry(starts[i]) == retry
    && starts[i].at < starts[i - 1].at + MIN_INTERVAL
  }

  /** The interval between consecutive requests of two kinds holds in all runs exactly unless a first
      attempt comes after a retry. */
  lemma IntervalHoldsIff(afterRetry: bool, retry: bool)
    ensures (forall start: nat, actions, i: nat :: !TooClose(Starts(Run(start, actions).log), i, afterRetry, retry)) <==>
            !(afterRetry && !retry)
  {
    hide Run, Starts;
    if afterRetry && !retry {
      var actions, i := RetryAndNextCanCoincide();
    } else {
      forall start: nat, actions, i: nat ensures !TooClose(Starts(Run(start, actions).log), i, afterRetry, retry) {
        if 0 < i < |Starts(Run(start, actions).log)| { ConsecutiveRequests(start, actions, i); }
      }
    }
  }

  lemma RunStep(start: nat, actions: seq<Action>, a: Action)
    ensures Run(start, actions + [a]) == Step(Run(start, actions), a)
  {
    assert (actions + [a])[..|actions + [a]| - 1] == actions;
  }

  /** A run in which a retry and the first attempt of the next task are sent at the same time. */
  lemma RetryAndNextCanCoincide() returns (actions: seq<Action>, i: nat)
    ensures TooClose(Starts(Run(0, actions).log), i, true, false)
  {
    hide Run;
    var a := FirstRequestRefused();
    var s := Run(0, a);
    var b := a + [Tick(1500)];
    var c := b + [Wake];
    var d := c + [Answer(Success)];
    actions := d + [Begin];
    RunStep(0, a, Tick(1500));
    RunStep(0, b, Wake);
    RunStep(0, c, Answer(Success));
    RunStep(0, d, Begin);
    var retry, answer, next := Started(0, 1, 1500), Answered(0, 1, Success), Started(1, 0, 1500);
    assert Run(0, actions).log == s.log + [retry] + [answer] + [next];
    StartsSnoc(s.log, retry);
    StartsSnoc(s.log + [retry], answer);
    StartsSnoc(s.log + [retry] + [answer], next);
    i := |Starts(s.log)| + 1;
  }

  lemma FirstRequestRefused() returns (actions: seq<Action>)
    ensures var s := Run(0, actions);
      s.now == 0 && s.submitted == 2 && s.begun == 1 && s.phase == Sleeping(0, 1500) && s.nextRequestAt == 150
  {
    assert Run(0, []) == Init(0);
    hide Run;
    RunStep(0, [], Submit);
    RunStep(0, [Submit], Submit);
    RunStep(0, [Submit] + [Submit], Begin);
    RunStep(0, [Submit] + [Submit] + [Begin], Answer(RateLimited));
    actions := [Submit] + [Submit] + [Begin] + [Answer(RateLimited)];
  }
}
