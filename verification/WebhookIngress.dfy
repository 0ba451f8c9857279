/** Webhook ingestion as a step system: every `await` of a delivery is a step boundary, and
    deliveries and workers interleave freely. The event store inserts if absent; the queue is
    idempotent in the job id, which is the event id. */
module WebhookIngress {
  import opened Utf16

  datatype EventState = Received | Queued | Processing | Processed | Failed

  datatype Event = Event(id: nat, key: Text, state: EventState)

  /** Where a delivery stands in `ingest`. */
  datatype Phase =
    | Adding(eventId: nat, inserted: bool)
    | Marking(eventId: nat, inserted: bool)
    | MarkingFailure(eventId: nat)
    | Accepted(eventId: nat, duplicate: bool)
    | Rejected

  datatype World = World(
    events: seq<Event>,
    jobs: seq<nat>,
    deliveries: map<nat, (Text, Phase)>)

  const EMPTY := World([], [], map[])

  /** A delivery's next step, with the fate of the call it awaits, or a step of a worker. */
  datatype Action =
    | Insert(delivery: nat, key: Text)
    | Add(delivery: nat, ok: bool)
    | Mark(delivery: nat, ok: bool)
    | MarkFailure(delivery: nat, ok: bool)
    | Work(job: nat, state: EventState)

  function Find(events: seq<Event>, key: Text): (i: nat)
    ensures i <= |events|
    ensures i < |events| ==> events[i].key == key
    ensures forall j :: 0 <= j < i ==> events[j].key != key
  {
    if events == [] || events[0].key == key then 0 else 1 + Find(events[1..], key)
  }

  function SetState(events: seq<Event>, id: nat, state: EventState): seq<Event> {
    seq(|events|, i requires 0 <= i < |events| =>
      if events[i].id == id then events[i].(state := state) else events[i])
  }

  /** `eventStore.insert`: the stored event, and whether it is new. Ids count up. */
  function InsertEvent(events: seq<Event>, key: Text): (seq<Event>, Event, bool) {
    var i := Find(events, key);
    if i < |events| then (events, events[i], false)
    else
      var event := Event(|events|, key, Received);
      (events + [event], event, true)
  }

  /** `queue.add` */
  function AddJob(jobs: seq<nat>, id: nat): seq<nat> {
    if id in jobs then jobs else jobs + [id]
  }

  /** What follows the insert: an event that is known and past `received` is answered at once. */
  function AfterInsert(event: Event, inserted: bool): Phase {
    if !inserted && event.state != Received then Accepted(event.id, true) else Adding(event.id, inserted)
  }

  function At(w: World, d: nat): Phase
    requires d in w.deliveries
  {
    w.deliveries[d].1
  }

  function Move(w: World, d: nat, p: Phase): map<nat, (Text, Phase)>
    requires d in w.deliveries
  {
    w.deliveries[d := (w.deliveries[d].0, p)]
  }

  /** One step; an action that is not enabled changes nothing. */
  function Step(w: World, a: Action): World {
    match a
    case Insert(d, key) =>
      if d in w.deliveries then w
      else
        var (events, event, inserted) := InsertEvent(w.events, key);
        w.(events := events, deliveries := w.deliveries[d := (key, AfterInsert(event, inserted))])
    case Add(d, ok) =>
      if d !in w.deliveries || !At(w, d).Adding? then w
      else
        var Adding(id, inserted) := At(w, d);
        if ok then w.(jobs := AddJob(w.jobs, id), deliveries := Move(w, d, Marking(id, inserted)))
        else w.(deliveries := Move(w, d, MarkingFailure(id)))
    case Mark(d, ok) =>
      if d !in w.deliveries || !At(w, d).Marking? then w
      else
        var Marking(id, inserted) := At(w, d);
        if ok then w.(events := SetState(w.events, id, Queued), deliveries := Move(w, d, Accepted(id, !inserted)))
        else w.(deliveries := Move(w, d, MarkingFailure(id)))
    case MarkFailure(d, ok) =>
      if d !in w.deliveries || !At(w, d).MarkingFailure? then w
      else
        var id := At(w, d).eventId;
        w.(events := if ok then SetState(w.events, id, Received) else w.events, deliveries := Move(w, d, Rejected))
    case Work(id, state) =>
      if id !in w.jobs || state == Received then w else w.(events := SetState(w.events, id, state))
  }

  function Run(w: World, actions: seq<Action>): World
    decreases actions
  {
    if actions == [] then w else Run(Step(w, actions[0]), actions[1..])
  }

  // ---------------------------------------------------------------- invariant

  ghost predicate EventsInv(w: World) {
    && (forall i :: 0 <= i < |w.events| ==> w.events[i].id == i)
    && (forall i, j :: 0 <= i < j < |w.events| ==> w.events[i].key != w.events[j].key)
    && (forall i :: 0 <= i < |w.events| && w.events[i].state != Received ==> i in w.jobs)
  }

  ghost predicate JobsInv(w: World) {
    && (forall j :: 0 <= j < |w.jobs| ==> w.jobs[j] < |w.events|)
    && (forall i, j :: 0 <= i < j < |w.jobs| ==> w.jobs[i] != w.jobs[j])
  }

  /** A delivery works on the event of its own key; past a successful add, the job is there. */
  ghost predicate PhaseInv(w: World, key: Text, p: Phase) {
    match p
    case Adding(id, _) => id < |w.events| && w.events[id].key == key
    case Marking(id, _) => id < |w.events| && w.events[id].key == key && id in w.jobs
    case MarkingFailure(id) => id < |w.events| && w.events[id].key == key
    case Accepted(id, _) => id < |w.events| && w.events[id].key == key && id in w.jobs
    case Rejected => true
  }

  ghost predicate Inv(w: World) {
    && EventsInv(w) && JobsInv(w)
    && forall d :: d in w.deliveries ==> PhaseInv(w, w.deliveries[d].0, w.deliveries[d].1)
  }

  /** Events keep id and key, jobs stay: what later steps may rely on. */
  ghost predicate Grows(w: World, v: World) {
    && |w.events| <= |v.events|
    && (forall i :: 0 <= i < |w.events| ==> w.events[i].id == v.events[i].id && w.events[i].key == v.events[i].key)
    && (forall j :: j in w.jobs ==> j in v.jobs)
  }

  /** Changing the state of an event that has a job, or back to `received`, is harmless. */
  lemma SetStateInv(w: World, id: nat, state: EventState)
    requires EventsInv(w) && JobsInv(w) && (state != Received ==> id in w.jobs)
    ensures var v := w.(events := SetState(w.events, id, state)); EventsInv(v) && JobsInv(v) && Grows(w, v)
    ensures forall key, p :: PhaseInv(w, key, p) ==> PhaseInv(w.(events := SetState(w.events, id, state)), key, p)
  {
  }

  /** Which deliveries there are matters to neither events nor jobs. */
  lemma DeliveriesIrrelevant(w: World, deliveries: map<nat, (Text, Phase)>)
    requires EventsInv(w) && JobsInv(w)
    ensures EventsInv(w.(deliveries := deliveries)) && JobsInv(w.(deliveries := deliveries))
    ensures forall key, p :: PhaseInv(w, key, p) <==> PhaseInv(w.(deliveries := deliveries), key, p)
  {
  }

  lemma InsertInv(w: World, d: nat, key: Text)
    requires Inv(w) && d !in w.deliveries
    ensures var v := Step(w, Insert(d, key));
            EventsInv(v) && JobsInv(v) && Grows(w, v) && PhaseInv(v, key, At(v, d))
  {
  }

  lemma AddJobInv(w: World, id: nat)
    requires EventsInv(w) && JobsInv(w) && id < |w.events|
    ensures var v := w.(jobs := AddJob(w.jobs, id)); EventsInv(v) && JobsInv(v) && id in v.jobs && Grows(w, v)
  {
  }

  lemma AddInv(w: World, d: nat, ok: bool)
    requires Inv(w) && d in w.deliveries && At(w, d).Adding?
    ensures var v := Step(w, Add(d, ok));
            EventsInv(v) && JobsInv(v) && Grows(w, v) && PhaseInv(v, v.deliveries[d].0, At(v, d))
  {
    assert PhaseInv(w, w.deliveries[d].0, At(w, d));
    AddJobInv(w, At(w, d).eventId);
  }

  lemma MarkInv(w: World, d: nat, ok: bool)
    requires Inv(w) && d in w.deliveries && At(w, d).Marking?
    ensures var v := Step(w, Mark(d, ok));
            EventsInv(v) && JobsInv(v) && Grows(w, v) && PhaseInv(v, v.deliveries[d].0, At(v, d))
  {
    assert PhaseInv(w, w.deliveries[d].0, At(w, d));
    SetStateInv(w, At(w, d).eventId, Queued);
  }

  lemma RejectedInv(w: World, key: Text)
    ensures PhaseInv(w, key, Rejected)
  {
  }

  /** A phase stays justified while the world grows. */
  lemma PhaseStays(w: World, v: World, key: Text, p: Phase)
    requires PhaseInv(w, key, p) && Grows(w, v)
    ensures PhaseInv(v, key, p)
  {
  }

  lemma OthersStay(w: World, v: World, d: nat)
    requires Inv(w) && Grows(w, v) && d in v.deliveries && PhaseInv(v, v.deliveries[d].0, v.deliveries[d].1)
    requires forall e :: e in v.deliveries && e != d ==> e in w.deliveries && v.deliveries[e] == w.deliveries[e]
    ensures forall e :: e in v.deliveries ==> PhaseInv(v, v.deliveries[e].0, v.deliveries[e].1)
  {
    forall e | e in v.deliveries ensures PhaseInv(v, v.deliveries[e].0, v.deliveries[e].1) {
      if e != d { PhaseStays(w, v, w.deliveries[e].0, w.deliveries[e].1); }
    }
  }

  lemma StepInv(w: World, a: Action)
    requires Inv(w)
    ensures Inv(Step(w, a)) && Grows(w, Step(w, a))
  {
    hide EventsInv, JobsInv, PhaseInv, InsertEvent, AddJob, Find;
    var v := Step(w, a);
    match a
    case Insert(d, key) =>
      if d !in w.deliveries {
        InsertInv(w, d, key);
        OthersStay(w, v, d);
      }
    case Add(d, ok) =>
      if d in w.deliveries && At(w, d).Adding? {
        AddInv(w, d, ok);
        OthersStay(w, v, d);
      }
    case Mark(d, ok) =>
      if d in w.deliveries && At(w, d).Marking? {
        MarkInv(w, d, ok);
        OthersStay(w, v, d);
      }
    case MarkFailure(d, ok) =>
      if d in w.deliveries && At(w, d).MarkingFailure? {
        SetStateInv(w, At(w, d).eventId, Received);
        RejectedInv(v, w.deliveries[d].0);
        DeliveriesIrrelevant(w.(events := v.events), v.deliveries);
        OthersStay(w, v, d);
      }
    case Work(id, state) =>
      if id in w.jobs && state != Received {
        SetStateInv(w, id, state);
        forall e | e in v.deliveries ensures PhaseInv(v, v.deliveries[e].0, v.deliveries[e].1) {
          PhaseStays(w, v, w.deliveries[e].0, w.deliveries[e].1);
        }
      }
  }

  lemma {:induction false} RunInv(w: World, actions: seq<Action>)
    requires Inv(w)
    ensures Inv(Run(w, actions)) && Grows(w, Run(w, actions))
    decreases actions
  {
    if actions != [] {
      StepInv(w, actions[0]);
      RunInv(Step(w, actions[0]), actions[1..]);
    }
  }

  // ---------------------------------------------------------------- main results

  /** In every run, every key has at most one event and every event at most one job; an accepted
      delivery's event has its key and its job, and stays that way. */
  lemma ExactlyOnce(actions: seq<Action>, later: seq<Action>)
    ensures var w := Run(EMPTY, actions); var v := Run(w, later);
      && (forall i, j :: 0 <= i < |v.events| && 0 <= j < |v.events| && v.events[i].key == v.events[j].key ==> i == j)
      && (forall i, j :: 0 <= i < |v.jobs| && 0 <= j < |v.jobs| && v.jobs[i] == v.jobs[j] ==> i == j)
      && (forall i :: 0 <= i < |v.jobs| ==> v.jobs[i] < |v.events|)
      && (forall d :: d in w.deliveries && At(w, d).Accepted? ==>
            var id := At(w, d).eventId;
            id < |v.events| && v.events[id].key == w.deliveries[d].0 && id in v.jobs)
  {
    RunInv(EMPTY, actions);
    var w := Run(EMPTY, actions);
    RunInv(w, later);
    forall d | d in w.deliveries && At(w, d).Accepted?
      ensures PhaseInv(w, w.deliveries[d].0, w.deliveries[d].1)
    {
    }
  }

  /** Accepted deliveries share an event exactly when they share a key. */
  lemma SameKeySameEvent(actions: seq<Action>, d: nat, e: nat)
    requires var w := Run(EMPTY, actions);
             d in w.deliveries && e in w.deliveries && At(w, d).Accepted? && At(w, e).Accepted?
    ensures var w := Run(EMPTY, actions);
            At(w, d).eventId == At(w, e).eventId <==> w.deliveries[d].0 == w.deliveries[e].0
  {
    RunInv(EMPTY, actions);
    var w := Run(EMPTY, actions);
    assert PhaseInv(w, w.deliveries[d].0, At(w, d)) && PhaseInv(w, w.deliveries[e].0, At(w, e));
  }

  lemma {:induction false} FindStored(events: seq<Event>, key: Text, i: nat)
    requires i < |events| && events[i].key == key
    requires forall j, k :: 0 <= j < k < |events| ==> events[j].key != events[k].key
    ensures Find(events, key) == i
  {
    var j := Find(events, key);
  }

  lemma UnrollFour(w: World, a: Action, b: Action, c: Action, d: Action)
    ensures Run(w, [a, b, c, d]) == Step(Step(Step(Step(w, a), b), c), d)
  {
    var (w1, w2, w3) := (Step(w, a), Step(Step(w, a), b), Step(Step(Step(w, a), b), c));
    assert [a, b, c, d][1..] == [b, c, d];
    assert [b, c, d][1..] == [c, d];
    assert [c, d][1..] == [d];
    assert Run(w3, [d]) == Run(Step(w3, d), []);
    assert Run(w2, [c, d]) == Run(w3, [d]);
    assert Run(w1, [b, c, d]) == Run(w2, [c, d]);
  }

  /** A delivery is turned away as a duplicate only when the job already exists. */
  lemma DuplicateMeansJob(actions: seq<Action>, d: nat, key: Text)
    requires d !in Run(EMPTY, actions).deliveries
    ensures var w := Run(EMPTY, actions);
            var p := At(Step(w, Insert(d, key)), d);
            p.Accepted? ==> p.duplicate && p.eventId in w.jobs && Find(w.events, key) == p.eventId < |w.events|
  {
    RunInv(EMPTY, actions);
  }

  // ---------------------------------------------------------------- one delivery on its own

  /** The stores as `ingest` changes them; `addOk`, `markOk` and `markFailureOk` are the fates
      of the three calls it may await after the insert. */
  class Ingress {
    var events: seq<Event>
    var jobs: seq<nat>

    constructor ()
      ensures events == [] && jobs == []
    {
      events, jobs := [], [];
    }

    ghost function Snapshot(): World
      reads this
    {
      World(events, jobs, map[])
    }

    method Ingest(key: Text, known: bool, verified: bool, addOk: bool, markOk: bool, markFailureOk: bool)
      returns (phase: Phase)
      modifies this
      ensures !known || !verified ==> phase == Rejected && events == old(events) && jobs == old(jobs)
      ensures known && verified ==>
        var v := Run(old(Snapshot()), [Insert(0, key), Add(0, addOk), Mark(0, markOk), MarkFailure(0, markFailureOk)]);
        v.events == events && v.jobs == jobs && v.deliveries == map[0 := (key, phase)]
    {
      if !known || !verified {
        return Rejected;
      }
      ghost var w := Snapshot();
      UnrollFour(w, Insert(0, key), Add(0, addOk), Mark(0, markOk), MarkFailure(0, markFailureOk));
      var (stored, event, inserted) := InsertEvent(events, key);
      events := stored;
      if !inserted && event.state != Received {
        return Accepted(event.id, true);
      }
      if addOk {
        jobs := AddJob(jobs, event.id);
        if markOk {
          events := SetState(events, event.id, Queued);
          return Accepted(event.id, !inserted);
        }
      }
      if markFailureOk {
        events := SetState(events, event.id, Received);
      }
      return Rejected;
    }
  }

  // ---------------------------------------------------------------- who is new

  /** The delivery stored its event, rather than finding it. */
  predicate IsNew(p: Phase) {
    match p
    case Adding(_, inserted) => inserted
    case Marking(_, inserted) => inserted
    case Accepted(_, duplicate) => !duplicate
    case _ => false
  }

  /** At most one delivery is new for an event. */
  ghost predicate NewInv(w: World) {
    && Inv(w)
    && (forall d :: d in w.deliveries && IsNew(At(w, d)) ==> At(w, d).eventId < |w.events|)
    && (forall d, e :: NewFor(w, d, e) ==> d == e)
  }

  /** Both deliveries are new, for the same event. */
  ghost predicate NewFor(w: World, d: nat, e: nat) {
    && d in w.deliveries && e in w.deliveries && IsNew(At(w, d)) && IsNew(At(w, e))
    && At(w, d).eventId == At(w, e).eventId
  }

  /** A delivery is new exactly when no stored event has its key. */
  lemma NewIff(w: World, d: nat, key: Text)
    requires d !in w.deliveries
    ensures IsNew(At(Step(w, Insert(d, key)), d)) <==> forall i :: 0 <= i < |w.events| ==> w.events[i].key != key
  {
  }

  lemma NewStep(w: World, a: Action)
    requires NewInv(w)
    ensures NewInv(Step(w, a))
  {
    StepInv(w, a);
    hide Inv, SetState, AddJob;
    var v := Step(w, a);
    forall d | d in v.deliveries && IsNew(At(v, d)) ensures At(v, d).eventId < |v.events| { NewBefore(w, a, d); }
    forall d, e | NewFor(v, d, e) ensures d == e {
      NewBefore(w, a, d);
      NewBefore(w, a, e);
      if d in w.deliveries && e in w.deliveries { assert NewFor(w, d, e); }
    }
  }

  /** Who is new after a step was new before, for the same event, or has just stored it. */
  lemma NewBefore(w: World, a: Action, d: nat)
    requires NewInv(w) && d in Step(w, a).deliveries && IsNew(At(Step(w, a), d))
    ensures var v := Step(w, a);
      && |w.events| <= |v.events|
      && if d in w.deliveries then IsNew(At(w, d)) && At(w, d).eventId == At(v, d).eventId < |w.events|
         else a.Insert? && a.delivery == d && At(v, d).eventId == |w.events| < |v.events|
  {
    hide EventsInv, JobsInv, AddJob;
  }

  lemma {:induction false} NewRuns(w: World, actions: seq<Action>)
    requires NewInv(w)
    ensures NewInv(Run(w, actions))
    decreases actions
  {
    hide NewInv, Step;
    if actions != [] {
      NewStep(w, actions[0]);
      NewRuns(Step(w, actions[0]), actions[1..]);
    }
  }

  /** Of all accepted deliveries of a key, at most one is told that it is no duplicate. */
  lemma OneIsNoDuplicate(actions: seq<Action>, d: nat, e: nat)
    requires var w := Run(EMPTY, actions);
      && d in w.deliveries && e in w.deliveries && At(w, d).Accepted? && At(w, e).Accepted?
      && w.deliveries[d].0 == w.deliveries[e].0 && !At(w, d).duplicate && !At(w, e).duplicate
    ensures d == e
  {
    NewRuns(EMPTY, actions);
    SameKeySameEvent(actions, d, e);
    assert NewFor(Run(EMPTY, actions), d, e);
  }
}
