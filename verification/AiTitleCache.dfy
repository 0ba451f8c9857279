/** Single flight, result cache and settings epoch of the AI title service, as a step system.
    A request is one run of `performSuggest`; its `then`, its `finally` and every call of
    `suggest` or `saveSettings` are separate steps that interleave freely. */
module AiTitleCache {
  import opened OrderedMap

  type Key = string

  /** `origin` is the request whose result is cached. */
  datatype Entry = Entry(origin: nat, expiresAt: int)

  /** Running, settled but not yet removed from `pending`, and done. */
  datatype Phase = Running | Settled | Done

  /** `epoch` is the value of `cacheEpoch` the request captured, `begun` the step it began at. */
  datatype Request = Request(key: Key, epoch: nat, begun: nat, phase: Phase)

  datatype Answer = Hit(origin: nat) | Joined(origin: nat) | Started

  datatype Limits = Limits(maxEntries: nat, ttlMs: int)

  /** The fields `cache`, `pending`, `cacheEpoch`, and the history they are judged by: all
      requests, what every caller was answered, the step number and that of the last completed save. */
  datatype Service = Service(
    cache: seq<(Key, Entry)>,
    pending: map<Key, nat>,
    cacheEpoch: nat,
    requests: map<nat, Request>,
    answers: map<nat, Answer>,
    clock: nat,
    lastSave: nat)

  const EMPTY := Service([], map[], 0, map[], map[], 1, 0)

  datatype Action =
    | Suggest(caller: nat, key: Key, now: int)
    | Succeed(request: nat, now: int)
    | Fail(request: nat)
    | Finish(request: nat)
    | Save

  /** Eviction before a result is added: the oldest entries go until there is room for one. */
  function Evicted(cache: seq<(Key, Entry)>, maxEntries: nat): (r: seq<(Key, Entry)>)
    requires maxEntries > 0
    ensures |cache| < maxEntries ==> r == cache
    ensures |cache| >= maxEntries ==> r == cache[|cache| - maxEntries + 1..]
  {
    if |cache| >= maxEntries then Evicted(cache[1..], maxEntries) else cache
  }

  function Stored(cache: seq<(Key, Entry)>, key: Key, entry: Entry, maxEntries: nat): seq<(Key, Entry)>
    requires maxEntries > 0
  {
    Put(Evicted(cache, maxEntries), key, entry)
  }

  /** The cache after a lookup: a hit moves to the end, an expired entry goes. */
  function LookedUp(cache: seq<(Key, Entry)>, key: Key, now: int): seq<(Key, Entry)> {
    if !Has(cache, key) then cache
    else
      var e := Get(cache, key);
      if e.expiresAt > now then Remove(cache, key) + [(key, e)] else Remove(cache, key)
  }

  function Respond(cache: seq<(Key, Entry)>, pending: map<Key, nat>, key: Key, now: int): Answer {
    if Has(cache, key) && Get(cache, key).expiresAt > now then Hit(Get(cache, key).origin)
    else if key in pending then Joined(pending[key])
    else Started
  }

  // ---------------------------------------------------------------- runs

  /** One step; an action that is not enabled changes nothing. */
  function Act(s: Service, a: Action, limits: Limits): Service
    requires limits.maxEntries > 0
  {
    match a
    case Suggest(caller, key, now) =>
      if caller in s.answers || caller in s.requests then s
      else
        var answer := Respond(s.cache, s.pending, key, now);
        var t := s.(cache := LookedUp(s.cache, key, now), answers := s.answers[caller := answer]);
        if answer != Started then t
        else t.(pending := s.pending[key := caller],
                requests := s.requests[caller := Request(key, s.cacheEpoch, s.clock, Running)])
    case Succeed(id, now) =>
      if id !in s.requests || s.requests[id].phase != Running then s
      else
        var r := s.requests[id];
        var t := s.(requests := s.requests[id := r.(phase := Settled)]);
        if limits.ttlMs > 0 && s.cacheEpoch == r.epoch
        then t.(cache := Stored(s.cache, r.key, Entry(id, now + limits.ttlMs), limits.maxEntries))
        else t
    case Fail(id) =>
      if id !in s.requests || s.requests[id].phase != Running then s
      else s.(requests := s.requests[id := s.requests[id].(phase := Settled)])
    case Finish(id) =>
      if id !in s.requests || s.requests[id].phase != Settled then s
      else
        var r := s.requests[id];
        s.(pending := s.pending - {r.key}, requests := s.requests[id := r.(phase := Done)])
    case Save =>
      s.(cacheEpoch := s.cacheEpoch + 1, cache := [], lastSave := s.clock)
  }

  function Step(s: Service, a: Action, limits: Limits): Service
    requires limits.maxEntries > 0
  {
    Act(s, a, limits).(clock := s.clock + 1)
  }

  function Run(s: Service, actions: seq<Action>, limits: Limits): Service
    requires limits.maxEntries > 0
    decreases actions
  {
    if actions == [] then s else Run(Step(s, actions[0], limits), actions[1..], limits)
  }

  // ---------------------------------------------------------------- the service's fields

  /** The fields of the service, updated in place, and the history of what happened to them. */
  class TitleService {
    var cache: seq<(Key, Entry)>
    var pending: map<Key, nat>
    var cacheEpoch: nat
    const limits: Limits
    ghost var requests: map<nat, Request>
    ghost var answers: map<nat, Answer>
    ghost var clock: nat
    ghost var lastSave: nat

    ghost function Contents(): Service
      reads this
    {
      Service(cache, pending, cacheEpoch, requests, answers, clock, lastSave)
    }

    constructor (limits: Limits)
      requires limits.maxEntries > 0
      ensures Contents() == EMPTY && this.limits == limits
    {
      cache, pending, cacheEpoch := [], map[], 0;
      this.limits := limits;
      requests, answers, clock, lastSave := map[], map[], 1, 0;
    }

    /** The synchronous part of `suggest`. */
    method BeginSuggest(caller: nat, key: Key, now: int) returns (a: Answer)
      requires limits.maxEntries > 0 && caller !in answers && caller !in requests
      modifies this
      ensures a == Respond(old(cache), old(pending), key, now)
      ensures Contents() == Step(old(Contents()), Suggest(caller, key, now), limits)
    {
      a := Look(key, now);
      if a.Hit? {
      } else if key in pending {
        a := Joined(pending[key]);
      } else {
        pending := pending[key := caller];
        requests := requests[caller := Request(key, cacheEpoch, clock, Running)];
      }
      answers := answers[caller := a];
      clock := clock + 1;
    }

    /** The cache's part of it: a hit moves to the end, an expired entry goes. */
    method Look(key: Key, now: int) returns (a: Answer)
      modifies this`cache
      ensures cache == LookedUp(old(cache), key, now)
      ensures a == if Has(old(cache), key) && Get(old(cache), key).expiresAt > now
                   then Hit(Get(old(cache), key).origin) else Started
    {
      if Has(cache, key) {
        var e := Get(cache, key);
        cache := Remove(cache, key);
        if e.expiresAt > now {
          cache := cache + [(key, e)];
          return Hit(e.origin);
        }
      }
      return Started;
    }

    /** The `then` of a request, which captured its key and its epoch. */
    method StoreResult(request: nat, key: Key, epoch: nat, now: int)
      requires limits.maxEntries > 0
      requires request in requests && requests[request].phase == Running
      requires requests[request].key == key && requests[request].epoch == epoch
      modifies this
      ensures Contents() == Step(old(Contents()), Succeed(request, now), limits)
    {
      if limits.ttlMs > 0 && cacheEpoch == epoch {
        ghost var before := cache;
        while |cache| >= limits.maxEntries
          invariant Evicted(cache, limits.maxEntries) == Evicted(before, limits.maxEntries)
          invariant pending == old(pending) && cacheEpoch == old(cacheEpoch) && requests == old(requests)
          invariant answers == old(answers) && clock == old(clock) && lastSave == old(lastSave)
          decreases |cache|
        {
          cache := cache[1..];
        }
        cache := Put(cache, key, Entry(request, now + limits.ttlMs));
      }
      requests := requests[request := requests[request].(phase := Settled)];
      clock := clock + 1;
    }

    /** The `catch` of a request. */
    ghost method RejectRequest(request: nat)
      requires limits.maxEntries > 0
      requires request in requests && requests[request].phase == Running
      modifies this
      ensures Contents() == Step(old(Contents()), Fail(request), limits)
    {
      requests := requests[request := requests[request].(phase := Settled)];
      clock := clock + 1;
    }

    /** The `finally` of a request. */
    method FinishSuggest(ghost request: nat, key: Key)
      requires limits.maxEntries > 0
      requires request in requests && requests[request].phase == Settled && requests[request].key == key
      modifies this
      ensures Contents() == Step(old(Contents()), Finish(request), limits)
    {
      pending := pending - {key};
      requests := requests[request := requests[request].(phase := Done)];
      clock := clock + 1;
    }

    /** What `saveSettings` does once the settings are stored. */
    method CompleteSave()
      requires limits.maxEntries > 0
      modifies this
      ensures Contents() == Step(old(Contents()), Save, limits)
    {
      cacheEpoch := cacheEpoch + 1;
      cache := [];
      lastSave := clock;
      clock := clock + 1;
    }
  }

  // ---------------------------------------------------------------- invariant

  /** `pending` holds exactly the requests that are not done, each under its own key. */
  ghost predicate PendingInv(s: Service) {
    && (forall k :: k in s.pending ==>
          s.pending[k] in s.requests && s.requests[s.pending[k]].key == k && s.requests[s.pending[k]].phase != Done)
    && (forall id :: id in s.requests && s.requests[id].phase != Done ==>
          s.requests[id].key in s.pending && s.pending[s.requests[id].key] == id)
  }

  /** A captured epoch is current exactly when no save was completed since. */
  ghost predicate EpochInv(s: Service) {
    && s.lastSave < s.clock
    && forall id :: id in s.requests ==>
         && s.requests[id].begun < s.clock && s.requests[id].begun != s.lastSave
         && s.requests[id].epoch <= s.cacheEpoch
         && (s.requests[id].epoch == s.cacheEpoch <==> s.lastSave < s.requests[id].begun)
  }

  /** Cached results come from requests of the current epoch with the same key; a key that is
      cached while its request is pending was cached by that request. */
  ghost predicate EntryInv(s: Service, key: Key, e: Entry) {
    && e.origin in s.requests && s.requests[e.origin].key == key
    && s.requests[e.origin].epoch == s.cacheEpoch && s.requests[e.origin].phase != Running
    && (key in s.pending ==> s.pending[key] in s.requests && s.requests[s.pending[key]].phase == Settled)
  }

  ghost predicate CacheInv(s: Service, limits: Limits) {
    && Distinct(s.cache) && |s.cache| <= limits.maxEntries
    && PendingInv(s)
    && forall i :: 0 <= i < |s.cache| ==> EntryInv(s, s.cache[i].0, s.cache[i].1)
  }

  ghost predicate Inv(s: Service, limits: Limits) {
    EpochInv(s) && CacheInv(s, limits)
  }

  lemma LookedUpEntries(cache: seq<(Key, Entry)>, key: Key, now: int)
    requires Distinct(cache)
    ensures Distinct(LookedUp(cache, key, now)) && |LookedUp(cache, key, now)| <= |cache|
    ensures forall x :: x in LookedUp(cache, key, now) ==> x in cache
    ensures !(Has(cache, key) && Get(cache, key).expiresAt > now) ==> forall x :: x in LookedUp(cache, key, now) ==> x.0 != key
  {
    RemoveDistinct(cache, key);
    var r := LookedUp(cache, key, now);
    forall x | x in r ensures x in cache && (!(Has(cache, key) && Get(cache, key).expiresAt > now) ==> x.0 != key) {
      RemoveMember(cache, key, x);
    }
  }

  lemma StoredEntries(cache: seq<(Key, Entry)>, key: Key, entry: Entry, maxEntries: nat)
    requires Distinct(cache) && |cache| <= maxEntries && maxEntries > 0
    requires forall i :: 0 <= i < |cache| ==> cache[i].0 != key
    ensures var r := Stored(cache, key, entry, maxEntries);
      && Distinct(r) && |r| <= maxEntries
      && (forall i :: 0 <= i < |r| ==> r[i] == (key, entry) || r[i] in cache)
      && r == (if |cache| == maxEntries then cache[1..] else cache) + [(key, entry)]
  {
    var kept := Evicted(cache, maxEntries);
    assert !Has(kept, key);
  }

  lemma SuggestPending(s: Service, caller: nat, key: Key, now: int, limits: Limits)
    requires PendingInv(s) && limits.maxEntries > 0 && caller !in s.requests
    ensures PendingInv(Act(s, Suggest(caller, key, now), limits))
  {
    hide LookedUp, Has, Get, Index;
  }

  lemma SuggestInv(s: Service, caller: nat, key: Key, now: int, limits: Limits)
    requires Inv(s, limits) && limits.maxEntries > 0 && caller !in s.requests
    ensures CacheInv(Act(s, Suggest(caller, key, now), limits), limits)
  {
    hide LookedUp, PendingInv;
    LookedUpEntries(s.cache, key, now);
    SuggestPending(s, caller, key, now, limits);
    var t := Act(s, Suggest(caller, key, now), limits);
    forall i | 0 <= i < |t.cache| ensures EntryInv(t, t.cache[i].0, t.cache[i].1) {
      if t != s {
        assert t.cache[i] in LookedUp(s.cache, key, now);
        assert t.cache[i] in s.cache;
        assert EntryInv(s, t.cache[i].0, t.cache[i].1);
      }
    }
  }

  lemma SucceedPending(s: Service, id: nat, now: int, limits: Limits)
    requires PendingInv(s) && limits.maxEntries > 0
    ensures PendingInv(Act(s, Succeed(id, now), limits))
  {
    hide Stored;
  }

  lemma SucceedInv(s: Service, id: nat, now: int, limits: Limits)
    requires Inv(s, limits) && limits.maxEntries > 0
    ensures CacheInv(Act(s, Succeed(id, now), limits), limits)
  {
    hide Stored, Index, Has;
    var t := Act(s, Succeed(id, now), limits);
    SucceedPending(s, id, now, limits);
    if id in s.requests && s.requests[id].phase == Running {
      var r := s.requests[id];
      if t.cache != s.cache {
        forall i | 0 <= i < |s.cache| ensures s.cache[i].0 != r.key { assert EntryInv(s, s.cache[i].0, s.cache[i].1); }
        hide PendingInv;
        StoredEntries(s.cache, r.key, Entry(id, now + limits.ttlMs), limits.maxEntries);
      }
      forall i | 0 <= i < |t.cache| ensures EntryInv(t, t.cache[i].0, t.cache[i].1) {
        if t.cache[i] in s.cache { assert EntryInv(s, t.cache[i].0, t.cache[i].1); }
      }
    }
  }

  lemma SettleInv(s: Service, a: Action, limits: Limits)
    requires Inv(s, limits) && limits.maxEntries > 0 && (a.Fail? || a.Finish? || a.Save?)
    ensures CacheInv(Act(s, a, limits), limits)
  {
    var t := Act(s, a, limits);
    assert PendingInv(t);
    forall i | 0 <= i < |t.cache| ensures EntryInv(t, t.cache[i].0, t.cache[i].1) {
      assert EntryInv(s, t.cache[i].0, t.cache[i].1);
    }
  }

  lemma StepEpoch(s: Service, a: Action, limits: Limits)
    requires EpochInv(s) && limits.maxEntries > 0
    ensures EpochInv(Step(s, a, limits))
  {
    hide LookedUp, Stored, Respond;
  }

  lemma StepInv(s: Service, a: Action, limits: Limits)
    requires Inv(s, limits) && limits.maxEntries > 0
    ensures Inv(Step(s, a, limits), limits)
  {
    StepEpoch(s, a, limits);
    match a {
      case Suggest(caller, key, now) => if caller !in s.requests { SuggestInv(s, caller, key, now, limits); }
      case Succeed(id, now) => SucceedInv(s, id, now, limits);
      case _ => SettleInv(s, a, limits);
    }
    ClockIrrelevant(Act(s, a, limits), s.clock + 1, limits);
  }

  lemma ClockIrrelevant(s: Service, clock: nat, limits: Limits)
    requires CacheInv(s, limits)
    ensures CacheInv(s.(clock := clock), limits)
  {
    var t := s.(clock := clock);
    forall i | 0 <= i < |t.cache| ensures EntryInv(t, t.cache[i].0, t.cache[i].1) {
      assert EntryInv(s, s.cache[i].0, s.cache[i].1);
    }
  }

  lemma {:induction false} RunInv(s: Service, actions: seq<Action>, limits: Limits)
    requires Inv(s, limits) && limits.maxEntries > 0
    ensures Inv(Run(s, actions, limits), limits)
    decreases actions
  {
    if actions != [] {
      StepInv(s, actions[0], limits);
      RunInv(Step(s, actions[0], limits), actions[1..], limits);
    }
  }

  // ---------------------------------------------------------------- main results

  /** In every run, at most one request per key is under way. */
  lemma SingleFlight(actions: seq<Action>, limits: Limits, i: nat, j: nat)
    requires limits.maxEntries > 0
    requires var s := Run(EMPTY, actions, limits);
      && i in s.requests && s.requests[i].phase == Running
      && j in s.requests && s.requests[j].phase == Running
      && s.requests[i].key == s.requests[j].key
    ensures i == j
  {
    RunInv(EMPTY, actions, limits);
  }

  /** A request that finishes removes its own pending entry and no other. */
  lemma FinishRemovesItsOwn(actions: seq<Action>, id: nat, limits: Limits)
    requires limits.maxEntries > 0
    requires var s := Run(EMPTY, actions, limits); id in s.requests && s.requests[id].phase == Settled
    ensures var s := Run(EMPTY, actions, limits);
            var key := s.requests[id].key;
      && key in s.pending && s.pending[key] == id
      && Step(s, Finish(id), limits).pending == s.pending - {key}
      && (forall k :: k in s.pending && k != key ==> s.pending[k] != id)
  {
    RunInv(EMPTY, actions, limits);
  }

  /** The cache never outgrows its limit, and every cached result comes from a request for the
      same key that began after the last completed save. */
  lemma CacheIsCurrent(actions: seq<Action>, limits: Limits)
    requires limits.maxEntries > 0
    ensures var s := Run(EMPTY, actions, limits);
      && |s.cache| <= limits.maxEntries
      && forall i :: 0 <= i < |s.cache| ==>
           var r := s.cache[i].1.origin;
           r in s.requests && s.requests[r].key == s.cache[i].0 && s.lastSave < s.requests[r].begun
  {
    RunInv(EMPTY, actions, limits);
    var s := Run(EMPTY, actions, limits);
    forall i | 0 <= i < |s.cache| ensures EntryInv(s, s.cache[i].0, s.cache[i].1) {
    }
  }

  /** A caller is answered from a request for its own key. From the cache that request began
      after the last save; by joining it did so exactly when the request's epoch is current. */
  lemma AnswersAreForTheKey(actions: seq<Action>, caller: nat, key: Key, now: int, limits: Limits)
    requires limits.maxEntries > 0
    ensures var s := Run(EMPTY, actions, limits);
      match Respond(s.cache, s.pending, key, now)
      case Hit(id) => id in s.requests && s.requests[id].key == key && s.lastSave < s.requests[id].begun
      case Joined(id) =>
        && id in s.requests && s.requests[id].key == key && s.requests[id].phase != Done
        && (s.lastSave < s.requests[id].begun <==> s.requests[id].epoch == s.cacheEpoch)
      case Started => key !in s.pending
  {
    RunInv(EMPTY, actions, limits);
    var s := Run(EMPTY, actions, limits);
    if Has(s.cache, key) {
      var i := Index(s.cache, key);
      assert EntryInv(s, s.cache[i].0, s.cache[i].1);
      GetAt(s.cache, i);
    }
  }

  /** Joining is not guarded by the epoch: a caller that comes after a save can be answered by a
      request that began before it. */
  lemma JoinedAnswerCanBeStale(key: Key, now: int, limits: Limits)
    requires limits.maxEntries > 0
    ensures var s := Run(EMPTY, [Suggest(0, key, now), Save, Suggest(1, key, now)], limits);
      && 1 in s.answers && s.answers[1] == Joined(0)
      && 0 in s.requests && s.requests[0].begun < s.lastSave
  {
    var a := [Suggest(0, key, now), Save, Suggest(1, key, now)];
    var s1 := Step(EMPTY, a[0], limits);
    var s2 := Step(s1, Save, limits);
    var s3 := Step(s2, a[2], limits);
    assert a[1..] == [Save, Suggest(1, key, now)];
    assert a[1..][1..] == [Suggest(1, key, now)];
    assert Run(s2, [Suggest(1, key, now)], limits) == Run(s3, [], limits) == s3;
    assert Run(s1, a[1..], limits) == Run(s2, a[1..][1..], limits);
    assert Run(EMPTY, a, limits) == Run(s1, a[1..], limits);
  }
}
