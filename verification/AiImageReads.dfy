/** Image reads of the AI title service: a cached image is served from memory, a read under way is
    shared, and only else does a new read begin. */
module AiImageReads {
  import opened Options
  import opened OrderedMap
  import opened AiImageCache

  datatype Phase = Reading | Delivered | Failed | Ended

  /** One call of the media service for a key, and the image it brought. */
  datatype Job = Job(key: Key, phase: Phase, image: Option<Image>)

  datatype Answer = FromMemory(image: Image) | Joins(id: nat) | Begins(id: nat)

  datatype State = State(cache: Entries, pending: map<Key, nat>, jobs: seq<Job>)

  datatype Action =
    | Call(key: Key, now: int)
    | Deliver(id: nat, image: Image, now: int)
    | Fail(id: nat)
    | Finish(id: nat)

  /** Who serves a call. */
  function Respond(s: State, key: Key, now: int): Answer {
    match Read(s.cache, key, now).1
    case Some(image) => FromMemory(image)
    case None => if key in s.pending then Joins(s.pending[key]) else Begins(|s.jobs|)
  }

  function Step(s: State, a: Action, settings: Settings): State {
    match a
    case Call(key, now) =>
      var seen := s.(cache := Read(s.cache, key, now).0);
      if Respond(s, key, now).Begins? then
        seen.(pending := s.pending[key := |s.jobs|], jobs := s.jobs + [Job(key, Reading, None)])
      else seen
    case Deliver(id, image, now) =>
      if id < |s.jobs| && s.jobs[id].phase.Reading? then
        s.(cache := Stored(s.cache, s.jobs[id].key, image, now, settings),
           jobs := s.jobs[id := s.jobs[id].(phase := Delivered, image := Some(image))])
      else s
    case Fail(id) =>
      if id < |s.jobs| && s.jobs[id].phase.Reading? then s.(jobs := s.jobs[id := s.jobs[id].(phase := Failed)]) else s
    case Finish(id) =>
      if id < |s.jobs| && (s.jobs[id].phase.Delivered? || s.jobs[id].phase.Failed?) then
        var key := s.jobs[id].key;
        s.(pending := if key in s.pending && s.pending[key] == id then s.pending - {key} else s.pending,
           jobs := s.jobs[id := s.jobs[id].(phase := Ended)])
      else s
  }

  function Run(actions: seq<Action>, settings: Settings): State
    decreases actions
  {
    if actions == [] then State([], map[], [])
    else Step(Run(actions[..|actions| - 1], settings), actions[|actions| - 1], settings)
  }

  // ---------------------------------------------------------------- invariants

  /** The pending reads are exactly those that did not end, each under its own key. */
  ghost predicate PendingInv(s: State) {
    && (forall k :: k in s.pending ==> s.pending[k] < |s.jobs| && s.jobs[s.pending[k]].key == k
                                       && !s.jobs[s.pending[k]].phase.Ended?)
    && (forall id :: 0 <= id < |s.jobs| && !s.jobs[id].phase.Ended? ==>
          s.jobs[id].key in s.pending && s.pending[s.jobs[id].key] == id)
  }

  /** Some read of this key brought this image. */
  ghost predicate Brought(s: State, key: Key, image: Image) {
    exists id :: 0 <= id < |s.jobs| && s.jobs[id].key == key && s.jobs[id].image == Some(image)
  }

  ghost predicate CacheInv(s: State, settings: Settings) {
    && Within(s.cache, settings)
    && (forall x :: x in s.cache ==> Brought(s, x.0, x.1.value))
    && (forall id :: 0 <= id < |s.jobs| && s.jobs[id].phase.Reading? ==> s.jobs[id].image == None)
  }

  lemma PendingStep(s: State, a: Action, settings: Settings)
    requires PendingInv(s)
    ensures PendingInv(Step(s, a, settings))
  {
    hide Read, Stored;
  }

  lemma RemoveOnly(es: Entries, key: Key, x: (Key, Entry))
    ensures x in Remove(es, key) ==> x in es
  {
  }

  lemma ReadOnly(es: Entries, key: Key, now: int, x: (Key, Entry))
    ensures x in Read(es, key, now).0 ==> x in es
  {
    RemoveOnly(es, key, x);
    if Has(es, key) { assert es[Index(es, key)] == (key, Get(es, key)); }
  }

  lemma StoredOnly(es: Entries, key: Key, image: Image, now: int, s: Settings, x: (Key, Entry))
    ensures x in Stored(es, key, image, now, s) ==> x in es || (x.0 == key && x.1.value == image)
  {
    RemoveOnly(es, key, x);
  }

  lemma BroughtStays(s: State, a: Action, settings: Settings, key: Key, image: Image)
    requires Brought(s, key, image) && CacheInv(s, settings)
    ensures Brought(Step(s, a, settings), key, image)
  {
    hide Read, Stored, Within;
    var t := Step(s, a, settings);
    var id :| 0 <= id < |s.jobs| && s.jobs[id].key == key && s.jobs[id].image == Some(image);
    assert t.jobs[id].key == key && t.jobs[id].image == Some(image);
  }

  lemma CacheStep(s: State, a: Action, settings: Settings)
    requires CacheInv(s, settings) && settings.maxEntries > 0
    ensures CacheInv(Step(s, a, settings), settings)
  {
    hide Read, Stored, Within, Brought;
    var t := Step(s, a, settings);
    match a {
      case Call(key, now) => ReadWithin(s.cache, key, now, settings);
      case Deliver(id, image, now) =>
        if id < |s.jobs| { StoredWithin(s.cache, s.jobs[id].key, image, now, settings); }
      case _ =>
    }
    forall x | x in t.cache ensures Brought(t, x.0, x.1.value) { EntryBrought(s, a, settings, x); }
  }

  lemma EntryBrought(s: State, a: Action, settings: Settings, x: (Key, Entry))
    requires CacheInv(s, settings) && x in Step(s, a, settings).cache
    ensures Brought(Step(s, a, settings), x.0, x.1.value)
  {
    hide Read, Stored, Within;
    var t := Step(s, a, settings);
    match a {
      case Call(key, now) => ReadOnly(s.cache, key, now, x);
      case Deliver(id, image, now) =>
        if id < |s.jobs| && s.jobs[id].phase.Reading? {
          StoredOnly(s.cache, s.jobs[id].key, image, now, settings, x);
          assert t.jobs[id].image == Some(image);
        }
      case _ =>
    }
    if x in s.cache { BroughtStays(s, a, settings, x.0, x.1.value); }
  }

  lemma {:induction false} RunInv(actions: seq<Action>, settings: Settings)
    requires settings.maxEntries > 0
    ensures PendingInv(Run(actions, settings)) && CacheInv(Run(actions, settings), settings)
  {
    if actions != [] {
      var s := Run(actions[..|actions| - 1], settings);
      RunInv(actions[..|actions| - 1], settings);
      PendingStep(s, actions[|actions| - 1], settings);
      CacheStep(s, actions[|actions| - 1], settings);
    }
  }

  /** In every run at most one read per key is under way. */
  lemma OneReadPerKey(actions: seq<Action>, settings: Settings, i: nat, j: nat)
    requires settings.maxEntries > 0
    requires var jobs := Run(actions, settings).jobs;
      i < |jobs| && j < |jobs| && jobs[i].phase.Reading? && jobs[j].phase.Reading? && jobs[i].key == jobs[j].key
    ensures i == j
  {
    RunInv(actions, settings);
  }

  /** Every call is served from a read of its own key: an image that such a read brought, or a read
      that did not end yet. The cache keeps its limits. */
  lemma ServedFromOwnKey(actions: seq<Action>, settings: Settings, key: Key, now: int)
    requires settings.maxEntries > 0
    ensures var s := Run(actions, settings);
      && Within(s.cache, settings)
      && match Respond(s, key, now)
         case FromMemory(image) => Brought(s, key, image)
         case Joins(id) => id < |s.jobs| && s.jobs[id].key == key && !s.jobs[id].phase.Ended?
         case Begins(id) => forall i :: 0 <= i < |s.jobs| && s.jobs[i].key == key ==> s.jobs[i].phase.Ended?
  {
    hide Run, Within;
    RunInv(actions, settings);
    var s := Run(actions, settings);
    if Respond(s, key, now).FromMemory? {
      assert (key, Get(s.cache, key)) in s.cache;
    }
  }

  /** The guard of the clean-up always holds: a read that ends finds itself pending. */
  lemma EndingReadIsPending(actions: seq<Action>, settings: Settings, id: nat)
    requires settings.maxEntries > 0
    ensures var s := Run(actions, settings);
      id < |s.jobs| && !s.jobs[id].phase.Ended? ==> s.jobs[id].key in s.pending && s.pending[s.jobs[id].key] == id
  {
    RunInv(actions, settings);
  }

  // ---------------------------------------------------------------- the service's fields

  /** The image fields of the service, updated in place between its awaits. */
  class ImageReader {
    var cache: Entries
    var pending: map<Key, nat>
    var jobs: seq<Job>
    const settings: Settings

    ghost function Contents(): State
      reads this
    {
      State(cache, pending, jobs)
    }

    constructor (settings: Settings)
      ensures Contents() == State([], map[], []) && this.settings == settings
    {
      cache, pending, jobs := [], map[], [];
      this.settings := settings;
    }

    /** `readAiImage` up to its first `await`. */
    method ReadAiImage(key: Key, now: int) returns (answer: Answer)
      modifies this
      ensures answer == Respond(old(Contents()), key, now)
      ensures Contents() == Step(old(Contents()), Call(key, now), settings)
    {
      hide Read;
      var (left, cached) := Read(cache, key, now);
      cache := left;
      if cached.Some? {
        return FromMemory(cached.value);
      }
      if key in pending {
        return Joins(pending[key]);
      }
      answer := Begins(|jobs|);
      pending := pending[key := |jobs|];
      jobs := jobs + [Job(key, Reading, None)];
    }

    /** The media service delivers. */
    method ImageRead(id: nat, image: Image, now: int)
      requires id < |jobs| && jobs[id].phase.Reading?
      modifies this
      ensures Contents() == Step(old(Contents()), Deliver(id, image, now), settings)
    {
      hide Stored;
      cache := Stored(cache, jobs[id].key, image, now, settings);
      jobs := jobs[id := jobs[id].(phase := Delivered, image := Some(image))];
    }

    /** The `finally` of a read. */
    method FinishRead(id: nat)
      requires id < |jobs| && (jobs[id].phase.Delivered? || jobs[id].phase.Failed?)
      modifies this
      ensures Contents() == Step(old(Contents()), Finish(id), settings)
    {
      var key := jobs[id].key;
      if key in pending && pending[key] == id {
        pending := pending - {key};
      }
      jobs := jobs[id := jobs[id].(phase := Ended)];
    }
  }

  /** An image that was delivered is served from memory until it expires, and from then on a call shares the
      read under way or begins a new one. */
  lemma DeliveredIsServed(s: State, id: nat, image: Image, now: int, later: int, settings: Settings)
    requires Within(s.cache, settings) && settings.maxEntries > 0 && settings.ttlMs > 0
    requires 0 < image.byteLength <= settings.maxBytes
    requires id < |s.jobs| && s.jobs[id].phase.Reading?
    ensures var key := s.jobs[id].key; var t := Step(s, Deliver(id, image, now), settings);
      && (later < now + settings.ttlMs ==> Respond(t, key, later) == FromMemory(image))
      && (now + settings.ttlMs <= later ==>
            Respond(t, key, later) == if key in s.pending then Joins(s.pending[key]) else Begins(|s.jobs|))
  {
    StoredIsRead(s.cache, s.jobs[id].key, image, now, later, settings);
  }

  /** A read that fails brings nothing: once it ended, the next call for its key begins a new read. */
  lemma FailureFreesKey(actions: seq<Action>, id: nat, now: int, settings: Settings)
    requires settings.maxEntries > 0
    requires var s := Run(actions, settings); id < |s.jobs| && s.jobs[id].phase.Reading?
    ensures var s := Run(actions, settings); var key := s.jobs[id].key;
      var t := Step(Step(s, Fail(id), settings), Finish(id), settings);
      && t.cache == s.cache && t.pending == s.pending - {key} && t.jobs[id].image == None
      && (Read(s.cache, key, now).1 == None ==> Respond(t, key, now) == Begins(|s.jobs|))
  {
    RunInv(actions, settings);
  }
}
