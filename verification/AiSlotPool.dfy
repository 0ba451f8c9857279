/** The slots of the AI title service: `maxConcurrent` holders and a bounded first-in-first-out
    queue of waiters. */
module AiSlotPool {

  const MAX_CONCURRENT := 8
  const MAX_QUEUE := 64

  function Min(a: int, b: int): int { if a < b then a else b }

  function Max(a: int, b: int): int { if a < b then b else a }

  /** The limits the constructor makes of integer settings. */
  function ConcurrencyLimit(requested: int): (n: nat)
    ensures 1 <= n <= MAX_CONCURRENT
    ensures 1 <= requested <= 8 ==> n == requested
    ensures requested == 0 ==> n == 2
    ensures requested < 0 ==> n == 1
    ensures requested > 8 ==> n == 8
  {
    Min(MAX_CONCURRENT, Max(1, if requested == 0 then 2 else requested))
  }

  function QueueLimit(requested: int): (n: nat)
    ensures n <= MAX_QUEUE
    ensures 0 <= requested <= 64 ==> n == requested
    ensures requested < 0 ==> n == 0
    ensures requested > 64 ==> n == 64
  {
    Min(MAX_QUEUE, Max(0, requested))
  }

  datatype Limits = Limits(maxConcurrent: nat, maxQueue: nat)

  datatype Grant = Granted | Waiting | Busy

  /** `inflight` and `queue` are the fields of the service; `holders` are the requests between a
      resolved acquire and their `finally`, `seen` those that ever reached the acquire. */
  datatype Pool = Pool(inflight: int, queue: seq<nat>, holders: set<nat>, seen: set<nat>)

  const EMPTY := Pool(0, [], {}, {})

  function Acquire(p: Pool, id: nat, limits: Limits): (Pool, Grant) {
    var q := p.(seen := p.seen + {id});
    if p.inflight < limits.maxConcurrent then (q.(inflight := p.inflight + 1, holders := p.holders + {id}), Granted)
    else if |p.queue| >= limits.maxQueue then (q, Busy)
    else (q.(queue := p.queue + [id]), Waiting)
  }

  function Release(p: Pool, id: nat): Pool {
    var q := p.(inflight := Max(0, p.inflight - 1), holders := p.holders - {id});
    if p.queue == [] then q
    else q.(inflight := q.inflight + 1, queue := p.queue[1..], holders := q.holders + {p.queue[0]})
  }

  /** The pool of a service, updated in place. */
  class SlotPool {
    var inflight: int
    var aiQueue: seq<nat>
    ghost var holders: set<nat>
    ghost var seen: set<nat>
    const limits: Limits

    constructor (maxConcurrent: int, maxQueue: int)
      ensures State() == EMPTY
      ensures limits == Limits(ConcurrencyLimit(maxConcurrent), QueueLimit(maxQueue))
    {
      inflight, aiQueue, holders, seen := 0, [], {}, {};
      limits := Limits(ConcurrencyLimit(maxConcurrent), QueueLimit(maxQueue));
    }

    ghost function State(): Pool
      reads this
    {
      Pool(inflight, aiQueue, holders, seen)
    }

    method AcquireAiSlot(id: nat) returns (g: Grant)
      modifies this
      ensures (State(), g) == Acquire(old(State()), id, limits)
    {
      seen := seen + {id};
      if inflight < limits.maxConcurrent {
        inflight := inflight + 1;
        holders := holders + {id};
        return Granted;
      }
      if |aiQueue| >= limits.maxQueue {
        return Busy;
      }
      aiQueue := aiQueue + [id];
      return Waiting;
    }

    /** The holder `id` leaves; the waiter it hands the slot to, if any. */
    method ReleaseAiSlot(ghost id: nat) returns (next: seq<nat>)
      modifies this
      ensures State() == Release(old(State()), id)
      ensures next == old(aiQueue)[..Min(1, |old(aiQueue)|)]
    {
      inflight := Max(0, inflight - 1);
      holders := holders - {id};
      if |aiQueue| == 0 {
        return [];
      }
      next := [aiQueue[0]];
      aiQueue := aiQueue[1..];
      inflight := inflight + 1;
      holders := holders + {next[0]};
    }
  }

  // ---------------------------------------------------------------- runs

  /** A request reaches the capacity phase, or a holder reaches its `finally`. A request that was
      turned away throws before the `try`, so only holders leave. */
  datatype Action = Enter(id: nat) | Leave(id: nat)

  predicate Enabled(p: Pool, a: Action) {
    match a
    case Enter(id) => id !in p.seen
    case Leave(id) => id in p.holders
  }

  function Step(p: Pool, a: Action, limits: Limits): Pool {
    if !Enabled(p, a) then p
    else match a
      case Enter(id) => Acquire(p, id, limits).0
      case Leave(id) => Release(p, id)
  }

  function Run(p: Pool, actions: seq<Action>, limits: Limits): Pool
    decreases actions
  {
    if actions == [] then p else Run(Step(p, actions[0], limits), actions[1..], limits)
  }

  ghost predicate Inv(p: Pool, limits: Limits) {
    && |p.holders| == p.inflight <= limits.maxConcurrent
    && |p.queue| <= limits.maxQueue
    && (p.queue != [] ==> p.inflight == limits.maxConcurrent)
    && p.holders <= p.seen
    && (forall i :: 0 <= i < |p.queue| ==> p.queue[i] in p.seen && p.queue[i] !in p.holders)
    && (forall i, j :: 0 <= i < j < |p.queue| ==> p.queue[i] != p.queue[j])
  }

  lemma StepInv(p: Pool, a: Action, limits: Limits)
    requires Inv(p, limits) && limits.maxConcurrent > 0
    ensures Inv(Step(p, a, limits), limits)
  {
    if Enabled(p, a) && a.Leave? {
      assert |p.holders - {a.id}| == p.inflight - 1;
    }
  }

  lemma {:induction false} RunInv(p: Pool, actions: seq<Action>, limits: Limits)
    requires Inv(p, limits) && limits.maxConcurrent > 0
    ensures Inv(Run(p, actions, limits), limits)
    decreases actions
  {
    if actions != [] {
      StepInv(p, actions[0], limits);
      RunInv(Step(p, actions[0], limits), actions[1..], limits);
    }
  }

  /** In every run the counter is the number of holders, both limits hold, and a waiter means
      that every slot is taken. */
  lemma SlotsBounded(actions: seq<Action>, limits: Limits)
    requires limits.maxConcurrent > 0
    ensures var p := Run(EMPTY, actions, limits);
      && p.inflight == |p.holders|
      && 0 <= p.inflight <= limits.maxConcurrent
      && |p.queue| <= limits.maxQueue
      && (p.queue != [] ==> p.inflight == limits.maxConcurrent)
  {
    RunInv(EMPTY, actions, limits);
  }

  /** A newcomer never gets a slot while somebody waits, and is turned away only when both the
      slots and the queue are full. */
  lemma NobodyOvertakes(actions: seq<Action>, id: nat, limits: Limits)
    requires limits.maxConcurrent > 0
    ensures var p := Run(EMPTY, actions, limits);
            var (_, g) := Acquire(p, id, limits);
      && (p.queue != [] ==> g != Granted)
      && (g == Busy <==> p.inflight == limits.maxConcurrent && |p.queue| == limits.maxQueue)
  {
    RunInv(EMPTY, actions, limits);
  }

  /** The clamp at zero never acts: whoever releases is counted. */
  lemma ClampNeverActs(actions: seq<Action>, id: nat, limits: Limits)
    requires limits.maxConcurrent > 0
    requires id in Run(EMPTY, actions, limits).holders
    ensures Run(EMPTY, actions, limits).inflight - 1 >= 0
  {
    RunInv(EMPTY, actions, limits);
    var p := Run(EMPTY, actions, limits);
    assert |p.holders - {id}| == |p.holders| - 1;
  }

  /** How many of the actions release a slot. */
  function Releases(p: Pool, actions: seq<Action>, limits: Limits): nat
    decreases actions
  {
    if actions == [] then 0
    else
      (if Enabled(p, actions[0]) && actions[0].Leave? then 1 else 0)
      + Releases(Step(p, actions[0], limits), actions[1..], limits)
  }

  lemma WaiterStep(p: Pool, a: Action, place: nat, limits: Limits)
    requires Inv(p, limits) && limits.maxConcurrent > 0 && place < |p.queue|
    ensures var q := Step(p, a, limits);
            if Enabled(p, a) && a.Leave?
            then |q.queue| == |p.queue| - 1 && (place > 0 ==> q.queue[place - 1] == p.queue[place])
            else |q.queue| >= |p.queue| && q.queue[place] == p.queue[place]
  {
  }

  /** After `n` releases, whoever waited behind `n` or more others has moved up by `n` places. */
  lemma {:induction false} WaiterMovesUp(p: Pool, actions: seq<Action>, place: nat, limits: Limits)
    requires Inv(p, limits) && limits.maxConcurrent > 0 && place < |p.queue|
    requires Releases(p, actions, limits) <= place
    ensures var n := Releases(p, actions, limits);
            var q := Run(p, actions, limits);
      && place - n < |q.queue| && q.queue[place - n] == p.queue[place]
      && p.queue[place] !in q.holders
    decreases actions
  {
    if actions != [] {
      var a := actions[0];
      var q := Step(p, a, limits);
      var next := if Enabled(p, a) && a.Leave? then place - 1 else place;
      StepInv(p, a, limits);
      WaiterStep(p, a, place, limits);
      hide Inv, Step;
      WaiterMovesUp(q, actions[1..], next, limits);
    }
  }

  /** The waiter at place `place` is granted its slot by exactly the `place + 1`-th release: not
      before the last of these actions, and by it. */
  lemma WaiterGranted(p: Pool, actions: seq<Action>, last: nat, place: nat, limits: Limits)
    requires Inv(p, limits) && limits.maxConcurrent > 0 && place < |p.queue|
    requires Releases(p, actions, limits) == place
    requires last in Run(p, actions, limits).holders
    ensures var q := Run(p, actions, limits);
            var r := Step(q, Leave(last), limits);
      && p.queue[place] !in q.holders
      && p.queue[place] in r.holders
      && r.inflight == limits.maxConcurrent
  {
    WaiterMovesUp(p, actions, place, limits);
    RunInv(p, actions, limits);
    StepInv(Run(p, actions, limits), Leave(last), limits);
  }
}
