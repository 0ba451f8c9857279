/** How long the AI title service answers from memory: what was stored under the current settings is
    found until it expires, a save comes, or enough other results were used after it. */
module AiTitleHits {
  import opened OrderedMap
  import opened AiTitleCache

  /** The request that succeeds is cached. */
  predicate Stores(s: Service, a: Action, limits: Limits) {
    && a.Succeed? && a.request in s.requests && s.requests[a.request].phase == Running
    && limits.ttlMs > 0 && s.cacheEpoch == s.requests[a.request].epoch
  }

  /** The caller is answered from the cache. */
  predicate Refreshes(s: Service, a: Action) {
    && a.Suggest? && a.caller !in s.answers && a.caller !in s.requests
    && exists i :: 0 <= i < |s.cache| && s.cache[i].0 == a.key && a.now < s.cache[i].1.expiresAt
  }

  /** The key that the action stores or refreshes. */
  function TouchedBy(s: Service, a: Action, limits: Limits): set<Key> {
    if Stores(s, a, limits) then {s.requests[a.request].key}
    else if Refreshes(s, a) then {a.key}
    else {}
  }

  /** The keys other than this one that a run stores or refreshes. */
  function Touched(s: Service, actions: seq<Action>, limits: Limits, key: Key): set<Key>
    requires limits.maxEntries > 0
    decreases actions
  {
    if actions == [] then {}
    else (TouchedBy(s, actions[0], limits) - {key}) + Touched(Step(s, actions[0], limits), actions[1..], limits, key)
  }

  /** The entry is in the cache, and only recent keys come after it. */
  ghost predicate Kept(s: Service, key: Key, e: Entry, recent: set<Key>) {
    key !in recent && exists i :: KeptAt(s.cache, key, e, recent, i)
  }

  ghost predicate KeptAt(cache: seq<(Key, Entry)>, key: Key, e: Entry, recent: set<Key>, i: int) {
    0 <= i < |cache| && cache[i] == (key, e) && forall j :: i < j < |cache| ==> cache[j].0 in recent
  }

  lemma {:induction false} KeysFit(entries: seq<(Key, Entry)>, keys: set<Key>)
    requires Distinct(entries) && forall x :: x in entries ==> x.0 in keys
    ensures |entries| <= |keys|
  {
    if entries != [] {
      var n := |entries| - 1;
      assert entries[n] in entries;
      KeysFit(entries[..n], keys - {entries[n].0});
    }
  }

  // ---------------------------------------------------------------- one step

  lemma RemoveKeeps(cache: seq<(Key, Entry)>, k: Key, key: Key, e: Entry, recent: set<Key>, i: int) returns (j: int)
    requires KeptAt(cache, key, e, recent, i) && k != key
    ensures KeptAt(Remove(cache, k), key, e, recent, j)
  {
    var p := Index(cache, k);
    var kept := Remove(cache, k);
    j := if p < i then i - 1 else i;
    if p < |cache| {
      assert |kept| == |cache| - 1;
      assert forall m :: 0 <= m < |kept| ==> kept[m] == if m < p then cache[m] else cache[m + 1];
    }
  }

  lemma AppendKeeps(cache: seq<(Key, Entry)>, x: (Key, Entry), key: Key, e: Entry, recent: set<Key>, i: int)
    requires KeptAt(cache, key, e, recent, i)
    ensures KeptAt(cache + [x], key, e, recent + {x.0}, i)
  {
  }

  /** A lookup of another key that is found puts this one among the recent ones. */
  lemma LookupKeeps(cache: seq<(Key, Entry)>, k: Key, now: int, key: Key, e: Entry, recent: set<Key>, i: int)
    returns (j: int)
    requires Distinct(cache) && KeptAt(cache, key, e, recent, i)
    requires k == key ==> now < e.expiresAt
    ensures var more := if k != key && Has(cache, k) && now < Get(cache, k).expiresAt then {k} else {};
      KeptAt(LookedUp(cache, k, now), key, e, recent + more, j)
  {
    GetAt(cache, i);
    if k == key {
      j := |LookedUp(cache, k, now)| - 1;
    } else {
      j := RemoveKeeps(cache, k, key, e, recent, i);
      assert recent + {} == recent;
      if Has(cache, k) {
        hide KeptAt, Remove;
        AppendKeeps(Remove(cache, k), (k, Get(cache, k)), key, e, recent, j);
      } else {
        assert Remove(cache, k) == cache;
      }
    }
  }

  lemma StoreKeeps(cache: seq<(Key, Entry)>, k: Key, stored: Entry, maxEntries: nat,
                   key: Key, e: Entry, recent: set<Key>, i: int) returns (j: int)
    requires maxEntries > 0 && Distinct(cache) && |cache| <= maxEntries
    requires forall m :: 0 <= m < |cache| ==> cache[m].0 != k
    requires KeptAt(cache, key, e, recent, i) && |recent + {k}| < maxEntries
    ensures KeptAt(Stored(cache, k, stored, maxEntries), key, e, recent + {k}, j)
  {
    StoredEntries(cache, k, stored, maxEntries);
    hide Stored;
    if |cache| == maxEntries { NotOldest(cache, k, key, e, recent, i); }
    j := if |cache| == maxEntries then i - 1 else i;
  }

  /** In a full cache the entry is not the oldest one, as too few keys are recent. */
  lemma NotOldest(cache: seq<(Key, Entry)>, k: Key, key: Key, e: Entry, recent: set<Key>, i: int)
    requires Distinct(cache) && KeptAt(cache, key, e, recent, i) && |recent + {k}| < |cache|
    requires forall m :: 0 <= m < |cache| ==> cache[m].0 != k
    ensures i > 0
  {
    if i == 0 {
      var after := cache[1..];
      forall x | x in after ensures x.0 in recent - {k} {
        var m :| 0 <= m < |after| && after[m] == x;
        assert cache[m + 1] == x;
      }
      assert recent + {k} == (recent - {k}) + {k};
      KeysFit(after, recent - {k});
    }
  }

  /** A request that is about to be stored is not cached yet. */
  lemma StoredIsNew(s: Service, a: Action, limits: Limits)
    requires Inv(s, limits) && Stores(s, a, limits)
    ensures forall i :: 0 <= i < |s.cache| ==> s.cache[i].0 != s.requests[a.request].key
  {
    forall i | 0 <= i < |s.cache| ensures s.cache[i].0 != s.requests[a.request].key {
      assert EntryInv(s, s.cache[i].0, s.cache[i].1);
    }
  }

  lemma RefreshIff(s: Service, a: Action)
    requires Distinct(s.cache) && a.Suggest? && a.caller !in s.answers && a.caller !in s.requests
    ensures Refreshes(s, a) <==> Has(s.cache, a.key) && a.now < Get(s.cache, a.key).expiresAt
  {
    if Has(s.cache, a.key) { assert s.cache[Index(s.cache, a.key)].0 == a.key; }
    if i :| 0 <= i < |s.cache| && s.cache[i].0 == a.key && a.now < s.cache[i].1.expiresAt { GetAt(s.cache, i); }
  }

  lemma KeptBySuggest(s: Service, a: Action, limits: Limits, key: Key, e: Entry, recent: set<Key>)
    requires Inv(s, limits) && limits.maxEntries > 0 && Kept(s, key, e, recent)
    requires a.Suggest? && a.caller !in s.answers && a.caller !in s.requests && (a.key == key ==> a.now < e.expiresAt)
    ensures Kept(Step(s, a, limits), key, e, recent + (TouchedBy(s, a, limits) - {key}))
  {
    var i :| KeptAt(s.cache, key, e, recent, i);
    var more := TouchedBy(s, a, limits) - {key};
    RefreshIff(s, a);
    hide KeptAt, Refreshes, LookedUp;
    var j := LookupKeeps(s.cache, a.key, a.now, key, e, recent, i);
    assert Step(s, a, limits).cache == LookedUp(s.cache, a.key, a.now);
    assert more == if a.key != key && Has(s.cache, a.key) && a.now < Get(s.cache, a.key).expiresAt then {a.key} else {};
  }

  lemma KeptByStore(s: Service, a: Action, limits: Limits, key: Key, e: Entry, recent: set<Key>)
    requires Inv(s, limits) && limits.maxEntries > 0 && Kept(s, key, e, recent) && Stores(s, a, limits)
    requires |recent + (TouchedBy(s, a, limits) - {key})| < limits.maxEntries
    ensures Kept(Step(s, a, limits), key, e, recent + (TouchedBy(s, a, limits) - {key}))
  {
    var i :| KeptAt(s.cache, key, e, recent, i);
    var k := s.requests[a.request].key;
    StoredIsNew(s, a, limits);
    assert k != key;
    hide KeptAt, Stored, EntryInv, PendingInv, EpochInv;
    assert TouchedBy(s, a, limits) - {key} == {k};
    var j := StoreKeeps(s.cache, k, Entry(a.request, a.now + limits.ttlMs), limits.maxEntries, key, e, recent, i);
    assert Step(s, a, limits).cache == Stored(s.cache, k, Entry(a.request, a.now + limits.ttlMs), limits.maxEntries);
  }

  lemma KeptStep(s: Service, a: Action, limits: Limits, key: Key, e: Entry, recent: set<Key>)
    requires Inv(s, limits) && limits.maxEntries > 0 && Kept(s, key, e, recent)
    requires !a.Save? && (a.Suggest? && a.key == key ==> a.now < e.expiresAt)
    requires |recent + (TouchedBy(s, a, limits) - {key})| < limits.maxEntries
    ensures Kept(Step(s, a, limits), key, e, recent + (TouchedBy(s, a, limits) - {key}))
  {
    if a.Suggest? && a.caller !in s.answers && a.caller !in s.requests {
      KeptBySuggest(s, a, limits, key, e, recent);
    } else if Stores(s, a, limits) {
      KeptByStore(s, a, limits, key, e, recent);
    } else {
      hide Inv, KeptAt;
      assert Step(s, a, limits).cache == s.cache && TouchedBy(s, a, limits) == {};
      assert recent + ({} - {key}) == recent;
    }
  }

  // ---------------------------------------------------------------- over runs

  /** No save, and nobody asks for the key once the entry has expired. */
  ghost predicate Undisturbed(actions: seq<Action>, key: Key, expiresAt: int) {
    forall i :: 0 <= i < |actions| ==>
      !actions[i].Save? && (actions[i].Suggest? && actions[i].key == key ==> actions[i].now < expiresAt)
  }

  lemma {:induction false} KeptRuns(s: Service, actions: seq<Action>, limits: Limits, key: Key, e: Entry, recent: set<Key>)
    requires Inv(s, limits) && limits.maxEntries > 0 && Kept(s, key, e, recent)
    requires Undisturbed(actions, key, e.expiresAt)
    requires |recent + Touched(s, actions, limits, key)| < limits.maxEntries
    ensures Kept(Run(s, actions, limits), key, e, recent + Touched(s, actions, limits, key))
    decreases actions
  {
    hide Inv, Kept, Step, TouchedBy, Undisturbed;
    if actions == [] {
      assert recent + {} == recent;
    } else {
      var a := actions[0];
      HeadAndTail(actions, key, e.expiresAt);
      var more := TouchedBy(s, a, limits) - {key};
      var rest := Touched(Step(s, a, limits), actions[1..], limits, key);
      Grouped(recent, more, rest);
      KeptStep(s, a, limits, key, e, recent);
      StepInv(s, a, limits);
      KeptRuns(Step(s, a, limits), actions[1..], limits, key, e, recent + more);
    }
  }

  lemma HeadAndTail(actions: seq<Action>, key: Key, expiresAt: int)
    requires actions != [] && Undisturbed(actions, key, expiresAt)
    ensures !actions[0].Save? && (actions[0].Suggest? && actions[0].key == key ==> actions[0].now < expiresAt)
    ensures Undisturbed(actions[1..], key, expiresAt)
  {
  }

  lemma Grouped<T>(a: set<T>, b: set<T>, c: set<T>)
    ensures a + (b + c) == (a + b) + c && |a + b| <= |a + (b + c)|
  {
    assert a + (b + c) == (a + b) + c;
    Smaller(a + b, (a + b) + c);
  }

  lemma Smaller<T>(a: set<T>, b: set<T>)
    requires a <= b
    ensures |a| <= |b|
  {
    if a != b { assert b == a + (b - a); }
  }

  /** The entry that a success leaves. */
  lemma StoredLast(s: Service, id: nat, t: int, limits: Limits)
    requires Inv(s, limits) && limits.maxEntries > 0 && Stores(s, Succeed(id, t), limits)
    ensures Kept(Step(s, Succeed(id, t), limits), s.requests[id].key, Entry(id, t + limits.ttlMs), {})
  {
    var key := s.requests[id].key;
    StoredIsNew(s, Succeed(id, t), limits);
    StoredEntries(s.cache, key, Entry(id, t + limits.ttlMs), limits.maxEntries);
    var cache := Step(s, Succeed(id, t), limits).cache;
    assert KeptAt(cache, key, Entry(id, t + limits.ttlMs), {}, |cache| - 1);
  }

  lemma KeptIsHit(s: Service, limits: Limits, key: Key, e: Entry, recent: set<Key>, now: int)
    requires Inv(s, limits) && Kept(s, key, e, recent) && now < e.expiresAt
    ensures Respond(s.cache, s.pending, key, now) == Hit(e.origin)
  {
    var i :| KeptAt(s.cache, key, e, recent, i);
    GetAt(s.cache, i);
  }

  /** A result that arrives at time `t` under the current settings is the answer for its key at every time
      before `t + ttlMs`, in every run without a save and with fewer than `maxEntries` other keys stored
      or refreshed since. */
  lemma StoredIsAnswered(before: seq<Action>, id: nat, t: int, later: seq<Action>, now: int, limits: Limits)
    requires limits.maxEntries > 0 && limits.ttlMs > 0 && now < t + limits.ttlMs
    requires var s := Run(EMPTY, before, limits);
      id in s.requests && s.requests[id].phase == Running && s.requests[id].epoch == s.cacheEpoch
    requires var s := Run(EMPTY, before, limits); var key := s.requests[id].key;
      && Undisturbed(later, key, t + limits.ttlMs)
      && |Touched(Step(s, Succeed(id, t), limits), later, limits, key)| < limits.maxEntries
    ensures var s := Run(EMPTY, before, limits); var u := Run(Step(s, Succeed(id, t), limits), later, limits);
      Respond(u.cache, u.pending, s.requests[id].key, now) == Hit(id)
  {
    RunInv(EMPTY, before, limits);
    var s := Run(EMPTY, before, limits);
    var key, e := s.requests[id].key, Entry(id, t + limits.ttlMs);
    var s1 := Step(s, Succeed(id, t), limits);
    hide Inv, Step, Run, Undisturbed, Kept, Respond, Touched;
    StepInv(s, Succeed(id, t), limits);
    StoredLast(s, id, t, limits);
    assert {} + Touched(s1, later, limits, key) == Touched(s1, later, limits, key);
    KeptRuns(s1, later, limits, key, e, {});
    RunInv(s1, later, limits);
    KeptIsHit(Run(s1, later, limits), limits, key, e, {} + Touched(s1, later, limits, key), now);
  }

  // ---------------------------------------------------------------- expiry

  /** The request has settled, and its cached result, if any, expires then. */
  ghost predicate Dated(s: Service, id: nat, expiresAt: int) {
    && id in s.requests && s.requests[id].phase != Running
    && forall i :: 0 <= i < |s.cache| && s.cache[i].1.origin == id ==> s.cache[i].1.expiresAt == expiresAt
  }

  lemma DatedStep(s: Service, a: Action, limits: Limits, id: nat, expiresAt: int)
    requires Inv(s, limits) && limits.maxEntries > 0 && Dated(s, id, expiresAt)
    ensures Dated(Step(s, a, limits), id, expiresAt)
  {
    var t := Step(s, a, limits);
    if Stores(s, a, limits) {
      var r := s.requests[a.request];
      StoredIsNew(s, a, limits);
      StoredEntries(s.cache, r.key, Entry(a.request, a.now + limits.ttlMs), limits.maxEntries);
      hide Stored;
      forall i | 0 <= i < |t.cache| && t.cache[i].1.origin == id ensures t.cache[i].1.expiresAt == expiresAt {
        assert t.cache[i] in s.cache;
      }
    } else if a.Suggest? && a.caller !in s.answers && a.caller !in s.requests {
      LookedUpEntries(s.cache, a.key, a.now);
      hide LookedUp, Respond;
      forall i | 0 <= i < |t.cache| && t.cache[i].1.origin == id ensures t.cache[i].1.expiresAt == expiresAt {
        assert t.cache[i] in s.cache;
      }
    }
  }

  lemma {:induction false} DatedRuns(s: Service, actions: seq<Action>, limits: Limits, id: nat, expiresAt: int)
    requires Inv(s, limits) && limits.maxEntries > 0 && Dated(s, id, expiresAt)
    ensures Dated(Run(s, actions, limits), id, expiresAt)
    decreases actions
  {
    hide Inv, Dated, Step;
    if actions != [] {
      DatedStep(s, actions[0], limits, id, expiresAt);
      StepInv(s, actions[0], limits);
      DatedRuns(Step(s, actions[0], limits), actions[1..], limits, id, expiresAt);
    }
  }

  lemma DatedAtFirst(s: Service, id: nat, t: int, limits: Limits)
    requires Inv(s, limits) && limits.maxEntries > 0 && id in s.requests && s.requests[id].phase == Running
    ensures Dated(Step(s, Succeed(id, t), limits), id, t + limits.ttlMs)
  {
    forall i | 0 <= i < |s.cache| ensures s.cache[i].1.origin != id { assert EntryInv(s, s.cache[i].0, s.cache[i].1); }
    if Stores(s, Succeed(id, t), limits) {
      StoredIsNew(s, Succeed(id, t), limits);
      StoredEntries(s.cache, s.requests[id].key, Entry(id, t + limits.ttlMs), limits.maxEntries);
    }
  }

  /** From `t + ttlMs` on the result is never an answer from the cache. */
  lemma ExpiredIsNoAnswer(before: seq<Action>, id: nat, t: int, later: seq<Action>, key: Key, now: int, limits: Limits)
    requires limits.maxEntries > 0 && t + limits.ttlMs <= now
    requires var s := Run(EMPTY, before, limits); id in s.requests && s.requests[id].phase == Running
    ensures var u := Run(Step(Run(EMPTY, before, limits), Succeed(id, t), limits), later, limits);
      Respond(u.cache, u.pending, key, now) != Hit(id)
  {
    RunInv(EMPTY, before, limits);
    var s := Run(EMPTY, before, limits);
    var s1 := Step(s, Succeed(id, t), limits);
    DatedAtFirst(s, id, t, limits);
    StepInv(s, Succeed(id, t), limits);
    DatedRuns(s1, later, limits, id, t + limits.ttlMs);
    var u := Run(s1, later, limits);
    hide Step, Run, Inv;
    if Has(u.cache, key) { assert u.cache[Index(u.cache, key)] == (key, Get(u.cache, key)); }
  }

  lemma NotCachedYet(s: Service, id: nat, limits: Limits)
    requires Inv(s, limits) && id in s.requests && s.requests[id].phase == Running
    ensures !Has(s.cache, s.requests[id].key)
  {
    forall i | 0 <= i < |s.cache| ensures s.cache[i].0 != s.requests[id].key {
      assert EntryInv(s, s.cache[i].0, s.cache[i].1);
    }
  }

  /** A request that fails leaves the cache alone; once it is finished, its key is free for a new one. */
  lemma FailureLeavesKeyFree(before: seq<Action>, id: nat, now: int, limits: Limits)
    requires limits.maxEntries > 0
    requires var s := Run(EMPTY, before, limits); id in s.requests && s.requests[id].phase == Running
    ensures var s := Run(EMPTY, before, limits); var key := s.requests[id].key;
      var t := Step(Step(s, Fail(id), limits), Finish(id), limits);
      && t.cache == s.cache && t.pending == s.pending - {key}
      && Respond(t.cache, t.pending, key, now) == Started
  {
    RunInv(EMPTY, before, limits);
    var s := Run(EMPTY, before, limits);
    var key := s.requests[id].key;
    NotCachedYet(s, id, limits);
  }
}
