/** One-shot authorization states and the token exchange that callbacks share: a state is issued
    with an expiry, consumed by the first callback that finds it, and from then on lives only as the
    entry of its exchange. Issued states are fresh; a callback may read a later clock when it checks
    the expiry than when it purged. */
module Authorization {

  const STATE_TTL := 600_000

  datatype Phase = Running | Succeeded | Failed | Kept(evictAt: int)

  datatype Exchange = Exchange(tempToken: string, phase: Phase)

  /** A request to the platform, and a callback that took part in the exchange of its state. */
  datatype Upstream = Upstream(state: string, tempToken: string)

  datatype World = World(
    now: int,
    states: map<string, int>,
    exchanges: map<string, Exchange>,
    issuedAt: map<string, int>,
    upstream: seq<Upstream>,
    served: seq<Upstream>)

  datatype Response = Refused503 | Refused400 | Joined | Started

  datatype Action =
    | Tick(ms: nat)
    | Issue(state: string)
    | Callback(state: string, tempToken: string, configured: bool, delay: nat)
    | Answer(state: string, success: bool)
    | Finish(state: string)
    | Evict(state: string)

  function Init(now: nat): World { World(now, map[], map[], map[], [], []) }

  /** `#purgeExpiredStates` */
  function Purged(states: map<string, int>, now: int): map<string, int> {
    map s | s in states && states[s] >= now :: states[s]
  }

  /** `consumeAuthorizationState`: the states left and whether the state was good. */
  function Consume(states: map<string, int>, state: string, now: int, checkedAt: int): (map<string, int>, bool) {
    var left := Purged(states, now);
    (left - {state}, state in left && left[state] != 0 && left[state] >= checkedAt)
  }

  function Respond(w: World, a: Action): Response
    requires a.Callback?
  {
    if !a.configured then Refused503
    else if a.state in w.exchanges then
      if w.exchanges[a.state].tempToken != a.tempToken then Refused400 else Joined
    else if Consume(w.states, a.state, w.now, w.now + a.delay).1 then Started
    else Refused400
  }

  function Step(w: World, a: Action): World {
    match a
    case Tick(ms) => w.(now := w.now + ms)
    case Issue(state) =>
      if state in w.issuedAt then w
      else w.(states := Purged(w.states, w.now)[state := w.now + STATE_TTL], issuedAt := w.issuedAt[state := w.now])
    case Callback(state, tempToken, _, delay) =>
      var call := Upstream(state, tempToken);
      (match Respond(w, a)
       case Refused503 => w
       case Joined => w.(served := w.served + [call])
       case Started =>
         w.(now := w.now + delay, states := Consume(w.states, state, w.now, w.now + delay).0,
            exchanges := w.exchanges[state := Exchange(tempToken, Running)],
            upstream := w.upstream + [call], served := w.served + [call])
       case Refused400 =>
         if state in w.exchanges then w
         else w.(now := w.now + delay, states := Consume(w.states, state, w.now, w.now + delay).0))
    case Answer(state, success) =>
      if state in w.exchanges && w.exchanges[state].phase.Running? then
        var phase := if success then Succeeded else Failed;
        w.(exchanges := w.exchanges[state := w.exchanges[state].(phase := phase)])
      else w
    case Finish(state) =>
      if state in w.exchanges && w.exchanges[state].phase.Succeeded? then
        w.(exchanges := w.exchanges[state := w.exchanges[state].(phase := Kept(w.now + STATE_TTL))])
      else if state in w.exchanges && w.exchanges[state].phase.Failed? then w.(exchanges := w.exchanges - {state})
      else w
    case Evict(state) =>
      if state in w.exchanges && w.exchanges[state].phase.Kept? && w.exchanges[state].phase.evictAt <= w.now then
        w.(exchanges := w.exchanges - {state})
      else w
  }

  function Run(start: nat, actions: seq<Action>): World
    decreases actions
  {
    if actions == [] then Init(start) else Step(Run(start, actions[..|actions| - 1]), actions[|actions| - 1])
  }

  function Exchanges(calls: seq<Upstream>, state: string): nat {
    if calls == [] then 0
    else Exchanges(calls[..|calls| - 1], state) + if calls[|calls| - 1].state == state then 1 else 0
  }

  lemma ExchangesSnoc(calls: seq<Upstream>, call: Upstream, state: string)
    ensures Exchanges(calls + [call], state) == Exchanges(calls, state) + if call.state == state then 1 else 0
  {
    assert (calls + [call])[..|calls + [call]| - 1] == calls;
  }

  /** A state is either still to be consumed, and then with its expiry unless that has passed, or it
      was sent to the platform at most once. */
  ghost predicate OnceInv(w: World, state: string) {
    && 0 <= w.now
    && (state in w.states ==> state in w.issuedAt && w.states[state] == w.issuedAt[state] + STATE_TTL)
    && (state in w.issuedAt ==> 0 <= w.issuedAt[state] <= w.now)
    && (state in w.exchanges ==> state in w.issuedAt && state !in w.states && Exchanges(w.upstream, state) == 1)
    && Exchanges(w.upstream, state) <= 1
    && (Exchanges(w.upstream, state) == 1 ==> state in w.issuedAt && state !in w.states)
  }

  lemma PurgedKeeps(states: map<string, int>, now: int, state: string)
    ensures var left := Purged(states, now);
      state in left ==> state in states && left[state] == states[state]
  {
  }

  lemma ConsumeKeeps(states: map<string, int>, of: string, now: int, checkedAt: int, state: string)
    ensures var (left, good) := Consume(states, of, now, checkedAt);
      && of !in left && (good ==> of in states)
      && (state in left ==> state in states && left[state] == states[state])
  {
  }

  lemma OnceStep(w: World, a: Action, state: string)
    requires OnceInv(w, state)
    ensures OnceInv(Step(w, a), state)
  {
    hide Purged, Consume, Exchanges;
    PurgedKeeps(w.states, w.now, state);
    if a.Callback? { ConsumeKeeps(w.states, a.state, w.now, w.now + a.delay, state); }
    if a.Callback? && Respond(w, a) == Started {
      ExchangesSnoc(w.upstream, Upstream(a.state, a.tempToken), state);
    }
  }

  lemma {:induction false} RunOnce(start: nat, actions: seq<Action>, state: string)
    ensures OnceInv(Run(start, actions), state)
  {
    if actions != [] {
      RunOnce(start, actions[..|actions| - 1], state);
      OnceStep(Run(start, actions[..|actions| - 1]), actions[|actions| - 1], state);
    }
  }

  /** Over every interleaving of callbacks, answers, failures and evictions a state is exchanged with
      the platform at most once, and only if it was issued. */
  lemma ExchangedAtMostOnce(start: nat, actions: seq<Action>, state: string)
    ensures var w := Run(start, actions);
      && Exchanges(w.upstream, state) <= 1
      && (Exchanges(w.upstream, state) == 1 ==> state in w.issuedAt)
  {
    RunOnce(start, actions, state);
  }

  /** Once its exchange is gone, after a failure or an eviction, a state is refused for good. */
  lemma SpentStateIsRefused(start: nat, actions: seq<Action>, a: Action)
    requires a.Callback? && a.configured
    requires var w := Run(start, actions); Exchanges(w.upstream, a.state) == 1 && a.state !in w.exchanges
    ensures Respond(Run(start, actions), a) == Refused400
  {
    RunOnce(start, actions, a.state);
  }

  /** Every token served by an exchange is the token that the platform was given for that state. */
  ghost predicate TokenInv(w: World) {
    && (forall s :: s in w.exchanges ==> Upstream(s, w.exchanges[s].tempToken) in w.upstream)
    && (forall c :: c in w.served ==> c in w.upstream)
  }

  lemma TokenStep(w: World, a: Action)
    requires TokenInv(w)
    ensures TokenInv(Step(w, a))
  {
    hide Consume;
    var t := Step(w, a);
    forall s | s in t.exchanges ensures Upstream(s, t.exchanges[s].tempToken) in t.upstream {
      if s in w.exchanges { assert Upstream(s, w.exchanges[s].tempToken) in w.upstream; }
    }
  }

  lemma {:induction false} RunToken(start: nat, actions: seq<Action>)
    ensures TokenInv(Run(start, actions))
  {
    if actions != [] {
      RunToken(start, actions[..|actions| - 1]);
      TokenStep(Run(start, actions[..|actions| - 1]), actions[|actions| - 1]);
    }
  }

  lemma {:induction false} OneTokenPerState(calls: seq<Upstream>, a: Upstream, b: Upstream)
    requires a in calls && b in calls && a.state == b.state && Exchanges(calls, a.state) <= 1
    ensures a == b
  {
    var n := |calls| - 1;
    assert calls == calls[..n] + [calls[n]];
    if a != calls[n] { MentionedCounts(calls[..n], a); }
    if b != calls[n] { MentionedCounts(calls[..n], b); }
    if a != calls[n] && b != calls[n] { OneTokenPerState(calls[..n], a, b); }
  }

  lemma {:induction false} MentionedCounts(calls: seq<Upstream>, a: Upstream)
    requires a in calls
    ensures Exchanges(calls, a.state) >= 1
  {
    var n := |calls| - 1;
    assert calls == calls[..n] + [calls[n]];
    if a != calls[n] { MentionedCounts(calls[..n], a); }
  }

  /** Callbacks that share the result of a state always supplied the same token. */
  lemma SharersSuppliedOneToken(start: nat, actions: seq<Action>, a: Upstream, b: Upstream)
    requires var w := Run(start, actions); a in w.served && b in w.served && a.state == b.state
    ensures a.tempToken == b.tempToken
  {
    RunToken(start, actions);
    RunOnce(start, actions, a.state);
    OneTokenPerState(Run(start, actions).upstream, a, b);
  }

  /** A state nobody tried yet is still there as long as it has not expired. */
  ghost predicate FreshInv(w: World, state: string) {
    state in w.issuedAt && w.now <= w.issuedAt[state] + STATE_TTL ==> state in w.states
  }

  predicate Tries(a: Action, state: string) { a.Callback? && a.configured && a.state == state }

  lemma {:induction false} UntriedStays(start: nat, actions: seq<Action>, state: string)
    requires forall i :: 0 <= i < |actions| ==> !Tries(actions[i], state)
    ensures FreshInv(Run(start, actions), state) && state !in Run(start, actions).exchanges
  {
    if actions != [] {
      var n := |actions| - 1;
      UntriedStays(start, actions[..n], state);
      RunOnce(start, actions[..n], state);
      assert !Tries(actions[n], state);
      UntriedStep(Run(start, actions[..n]), actions[n], state);
    }
  }

  lemma UntriedStep(w: World, a: Action, state: string)
    requires OnceInv(w, state) && FreshInv(w, state) && state !in w.exchanges && !Tries(a, state)
    ensures FreshInv(Step(w, a), state) && state !in Step(w, a).exchanges
  {
  }

  /** The first configured callback of a state starts the exchange exactly when the state was issued
      at most ten minutes before its expiry is checked. */
  lemma FirstCallbackIff(start: nat, actions: seq<Action>, a: Action)
    requires a.Callback? && a.configured
    requires forall i :: 0 <= i < |actions| ==> !Tries(actions[i], a.state)
    ensures var w := Run(start, actions);
      Respond(w, a) == Started <==> a.state in w.issuedAt && w.now + a.delay <= w.issuedAt[a.state] + STATE_TTL
  {
    RunOnce(start, actions, a.state);
    UntriedStays(start, actions, a.state);
  }

  // ---------------------------------------------------------------- how long a result is shared

  /** What becomes of an exchange under way: a success is kept for ten minutes from then on, a failure is
      forgotten at once. */
  lemma ExchangeEnds(w: World, state: string, success: bool)
    requires state in w.exchanges && w.exchanges[state].phase.Running?
    ensures var t := Step(Step(w, Answer(state, success)), Finish(state));
      && t.exchanges.Keys == (if success then w.exchanges.Keys else w.exchanges.Keys - {state})
      && (success ==> t.exchanges[state] == Exchange(w.exchanges[state].tempToken, Kept(w.now + 600_000)))
      && (forall s :: s in t.exchanges && s != state ==> t.exchanges[s] == w.exchanges[s])
  {
  }

  /** A result that is kept until then. */
  ghost predicate KeptUntil(w: World, state: string, token: string, until: int) {
    state in w.exchanges && w.exchanges[state] == Exchange(token, Kept(until))
  }

  lemma RunSnoc(start: nat, actions: seq<Action>, n: nat)
    requires n < |actions|
    ensures Run(start, actions[..n + 1]) == Step(Run(start, actions[..n]), actions[n])
  {
    assert actions[..n + 1][..n] == actions[..n];
  }

  lemma ClockGoesOn(w: World, a: Action)
    ensures w.now <= Step(w, a).now
  {
  }

  lemma KeptStep(w: World, a: Action, state: string, token: string, until: int)
    requires KeptUntil(w, state, token, until) && w.now < until
    ensures KeptUntil(Step(w, a), state, token, until)
  {
    hide Consume, Purged;
  }

  lemma {:induction false} KeptRuns(start: nat, actions: seq<Action>, n: nat, m: nat, state: string, token: string, until: int)
    requires n <= m <= |actions| && KeptUntil(Run(start, actions[..n]), state, token, until)
    requires Run(start, actions[..m]).now < until
    ensures KeptUntil(Run(start, actions[..m]), state, token, until)
  {
    hide Step, KeptUntil;
    if n < m {
      RunSnoc(start, actions, m - 1);
      ClockGoesOn(Run(start, actions[..m - 1]), actions[m - 1]);
      KeptRuns(start, actions, n, m - 1, state, token, until);
      KeptStep(Run(start, actions[..m - 1]), actions[m - 1], state, token, until);
    }
  }

  /** For ten minutes after an exchange succeeded, whatever else happens, a callback that repeats its token
      shares the result and any other one is refused. */
  lemma ResultIsShared(start: nat, actions: seq<Action>, n: nat, m: nat, state: string, a: Action)
    requires n < m <= |actions| && actions[n] == Finish(state)
    requires var w := Run(start, actions[..n]); state in w.exchanges && w.exchanges[state].phase.Succeeded?
    requires Run(start, actions[..m]).now < Run(start, actions[..n]).now + 600_000
    requires a.Callback? && a.state == state && a.configured
    ensures var token := Run(start, actions[..n]).exchanges[state].tempToken;
      Respond(Run(start, actions[..m]), a) == if a.tempToken == token then Joined else Refused400
  {
    var w := Run(start, actions[..n]);
    RunSnoc(start, actions, n);
    KeptRuns(start, actions, n + 1, m, state, w.exchanges[state].tempToken, w.now + 600_000);
  }

  /** From then on the eviction forgets it. */
  lemma EvictionEnds(w: World, state: string, token: string, until: int)
    requires KeptUntil(w, state, token, until)
    ensures Step(w, Evict(state)).exchanges == if until <= w.now then w.exchanges - {state} else w.exchanges
  {
  }

  /** A callback during the exchange shares it as well, or is refused. */
  lemma EntryDecides(w: World, a: Action)
    requires a.Callback? && a.configured && a.state in w.exchanges
    ensures Respond(w, a) == if a.tempToken == w.exchanges[a.state].tempToken then Joined else Refused400
    ensures Step(w, a).exchanges == w.exchanges && Step(w, a).states == w.states
  {
  }

  /** The registry's states and the server's exchanges, updated in place. */
  class Authorizer {
    var now: int
    var states: map<string, int>
    var exchanges: map<string, Exchange>
    ghost var issuedAt: map<string, int>
    ghost var upstream: seq<Upstream>
    ghost var served: seq<Upstream>

    ghost function Contents(): World
      reads this
    {
      World(now, states, exchanges, issuedAt, upstream, served)
    }

    constructor (now: nat)
      ensures Contents() == Init(now)
    {
      this.now, states, exchanges, issuedAt, upstream, served := now, map[], map[], map[], [], [];
    }

    /** `#purgeExpiredStates`: the expired states go one by one. */
    method PurgeExpiredStates()
      modifies this`states
      ensures states == Purged(old(states), now)
    {
      var keys := states.Keys;
      while keys != {}
        invariant keys <= old(states).Keys
        invariant forall s :: s in states <==> s in old(states) && (s in keys || old(states)[s] >= now)
        invariant forall s :: s in states ==> states[s] == old(states)[s]
        decreases keys
      {
        var s :| s in keys;
        if s in states && states[s] < now { states := states - {s}; }
        keys := keys - {s};
      }
    }

    /** `createAuthorizationState` */
    method CreateAuthorizationState(state: string)
      requires state !in issuedAt
      modifies this
      ensures Contents() == Step(old(Contents()), Issue(state))
    {
      PurgeExpiredStates();
      states := states[state := now + STATE_TTL];
      issuedAt := issuedAt[state := now];
    }

    /** `consumeAuthorizationState` */
    method ConsumeAuthorizationState(state: string, delay: nat) returns (good: bool)
      modifies this`states, this`now
      ensures (states, good) == Consume(old(states), state, old(now), old(now) + delay) && now == old(now) + delay
    {
      PurgeExpiredStates();
      now := now + delay;
      good := state in states && states[state] != 0 && states[state] >= now;
      states := states - {state};
    }

    /** `exchangeLocalAuthorization` up to its first `await`. */
    method ExchangeLocalAuthorization(state: string, tempToken: string, configured: bool, delay: nat)
      returns (response: Response)
      modifies this
      ensures var a := Callback(state, tempToken, configured, delay);
        response == Respond(old(Contents()), a) && Contents() == Step(old(Contents()), a)
    {
      if !configured {
        return Refused503;
      }
      if state in exchanges {
        if exchanges[state].tempToken != tempToken {
          return Refused400;
        }
        served := served + [Upstream(state, tempToken)];
        return Joined;
      }
      var good := ConsumeAuthorizationState(state, delay);
      if !good {
        return Refused400;
      }
      upstream := upstream + [Upstream(state, tempToken)];
      exchanges := exchanges[state := Exchange(tempToken, Running)];
      served := served + [Upstream(state, tempToken)];
      return Started;
    }

    /** What follows the `await` of the callback that started the exchange. */
    method FinishExchange(state: string)
      requires state in exchanges
      requires exchanges[state].phase.Succeeded? || exchanges[state].phase.Failed?
      modifies this
      ensures Contents() == Step(old(Contents()), Finish(state))
    {
      if exchanges[state].phase.Succeeded? {
        exchanges := exchanges[state := exchanges[state].(phase := Kept(now + STATE_TTL))];
      } else {
        exchanges := exchanges - {state};
      }
    }
  }
}
