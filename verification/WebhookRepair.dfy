/** Redelivery among other deliveries and workers: how a failed enqueue is repaired, and when a
    processed event stays processed. */
module WebhookRepair {
  import opened Utf16
  import opened WebhookIngress

  // ---------------------------------------------------------------- other deliveries between

  /** The action is no step of this delivery. */
  predicate NotOf(a: Action, e: nat) {
    match a
    case Insert(d, _) => d != e
    case Add(d, _) => d != e
    case Mark(d, _) => d != e
    case MarkFailure(d, _) => d != e
    case Work(_, _) => true
  }

  ghost predicate NoneOf(actions: seq<Action>, e: nat) {
    forall i :: 0 <= i < |actions| ==> NotOf(actions[i], e)
  }

  /** What others do leaves a delivery where it stands. */
  lemma {:induction false} OthersLeave(w: World, actions: seq<Action>, e: nat)
    requires NoneOf(actions, e)
    ensures var v := Run(w, actions);
      (e in v.deliveries <==> e in w.deliveries) && (e in w.deliveries ==> v.deliveries[e] == w.deliveries[e])
    decreases actions
  {
    hide InsertEvent, SetState, AddJob, AfterInsert;
    if actions != [] {
      assert NotOf(actions[0], e);
      OthersLeave(Step(w, actions[0]), actions[1..], e);
    }
  }

  /** A delivery that comes and whose own calls succeed, with anything by others in between, ends
      accepted, and its event has its key and its job. */
  lemma DeliveryIsServed(w: World, e: nat, key: Text, x: seq<Action>, y: seq<Action>)
    requires Inv(w) && e !in w.deliveries && NoneOf(x, e) && NoneOf(y, e)
    ensures var a := Step(w, Insert(e, key));
            var b := Step(Run(a, x), Add(e, true));
            var v := Step(Run(b, y), Mark(e, true));
      && Inv(v) && e in v.deliveries && v.deliveries[e].0 == key && At(v, e).Accepted?
      && At(v, e).eventId < |v.events| && v.events[At(v, e).eventId].key == key && At(v, e).eventId in v.jobs
      && (At(a, e).Adding? ==> v.events[At(v, e).eventId].state == Queued)
  {
    var a := Step(w, Insert(e, key));
    StepInv(w, Insert(e, key));
    RunInv(a, x);
    OthersLeave(a, x, e);
    StepInv(Run(a, x), Add(e, true));
    var b := Step(Run(a, x), Add(e, true));
    RunInv(b, y);
    OthersLeave(b, y, e);
    StepInv(Run(b, y), Mark(e, true));
    hide Run, InsertEvent, EventsInv, JobsInv;
    var v := Step(Run(b, y), Mark(e, true));
    assert PhaseInv(v, v.deliveries[e].0, At(v, e));
    if At(a, e).Adding? { Marked(Run(b, y), e); }
  }

  /** Marking a delivery's event leaves it queued, with its key and its job. */
  lemma Marked(w: World, e: nat)
    requires Inv(w) && e in w.deliveries && At(w, e).Marking?
    ensures var v := Step(w, Mark(e, true));
      At(v, e).Accepted? && At(v, e).eventId < |v.events| && v.events[At(v, e).eventId].state == Queued
  {
    assert PhaseInv(w, w.deliveries[e].0, At(w, e));
  }

  lemma OneEventPerKey(w: World, id: nat, other: nat)
    requires EventsInv(w) && id < |w.events| && other < |w.events| && w.events[id].key == w.events[other].key
    ensures id == other
  {
  }

  /** A failed enqueue that was marked leaves the event `received`. Whatever others do before, between
      and after its steps, the next delivery of the key whose own calls succeed ends accepted on the
      same event, which then has its job; it enqueues and marks the event if it finds it `received`. */
  lemma FailedEnqueueIsRepaired(
      actions: seq<Action>, d: nat, e: nat, before: seq<Action>, x: seq<Action>, y: seq<Action>)
    requires var w := Run(EMPTY, actions); d in w.deliveries && At(w, d).MarkingFailure? && e !in w.deliveries
    requires NoneOf(before, e) && NoneOf(x, e) && NoneOf(y, e)
    ensures var w := Run(EMPTY, actions);
            var key := w.deliveries[d].0;
            var id := At(w, d).eventId;
            var marked := Step(w, MarkFailure(d, true));
            var found := Run(marked, before);
            var v := Step(Run(Step(Run(Step(found, Insert(e, key)), x), Add(e, true)), y), Mark(e, true));
      && id < |marked.events| <= |found.events| && marked.events[id].state == Received && marked.events[id].key == key
      && e in v.deliveries && At(v, e).Accepted? && At(v, e).eventId == id && id in v.jobs
      && id < |v.events| && v.events[id].key == key
      && (found.events[id].state == Received ==> v.events[id].state == Queued)
  {
    RunInv(EMPTY, actions);
    var w := Run(EMPTY, actions);
    var key, id := w.deliveries[d].0, At(w, d).eventId;
    hide Run, Inv, EventsInv, JobsInv, PhaseInv, Step;
    MarkedReceived(w, d, e);
    Redelivered(Step(w, MarkFailure(d, true)), e, key, id, before, x, y);
  }

  lemma MarkedReceived(w: World, d: nat, e: nat)
    requires Inv(w) && d in w.deliveries && At(w, d).MarkingFailure? && e !in w.deliveries
    ensures var marked := Step(w, MarkFailure(d, true)); var id := At(w, d).eventId;
      && Inv(marked) && e !in marked.deliveries && id < |marked.events|
      && marked.events[id].state == Received && marked.events[id].key == w.deliveries[d].0
  {
    assert PhaseInv(w, w.deliveries[d].0, At(w, d));
    StepInv(w, MarkFailure(d, true));
  }

  lemma Redelivered(
      w: World, e: nat, key: Text, id: nat, before: seq<Action>, x: seq<Action>, y: seq<Action>)
    requires Inv(w) && e !in w.deliveries && id < |w.events| && w.events[id].key == key
    requires NoneOf(before, e) && NoneOf(x, e) && NoneOf(y, e)
    ensures var found := Run(w, before);
            var v := Step(Run(Step(Run(Step(found, Insert(e, key)), x), Add(e, true)), y), Mark(e, true));
      && |w.events| <= |found.events| && id < |v.events| && v.events[id].key == key
      && e in v.deliveries && At(v, e).Accepted? && At(v, e).eventId == id && id in v.jobs
      && (found.events[id].state == Received ==> v.events[id].state == Queued)
  {
    var found := Run(w, before);
    RunInv(w, before);
    OthersLeave(w, before, e);
    DeliveryIsServed(found, e, key, x, y);
    GrowsAlong(found, e, key, x, y);
    hide Run, Inv, EventsInv, JobsInv, PhaseInv, Step;
    var v := Step(Run(Step(Run(Step(found, Insert(e, key)), x), Add(e, true)), y), Mark(e, true));
    SameEvent(v, id, At(v, e).eventId);
    if found.events[id].state == Received { FoundReceived(found, e, key, id); }
  }

  lemma SameEvent(w: World, id: nat, other: nat)
    requires Inv(w) && id < |w.events| && other < |w.events| && w.events[id].key == w.events[other].key
    ensures id == other
  {
    OneEventPerKey(w, id, other);
  }

  lemma GrowsAlong(w: World, e: nat, key: Text, x: seq<Action>, y: seq<Action>)
    requires Inv(w)
    ensures var v := Step(Run(Step(Run(Step(w, Insert(e, key)), x), Add(e, true)), y), Mark(e, true));
      |w.events| <= |v.events| && forall i :: 0 <= i < |w.events| ==> v.events[i].key == w.events[i].key
  {
    var a := Step(w, Insert(e, key));
    StepInv(w, Insert(e, key));
    RunInv(a, x);
    var b := Step(Run(a, x), Add(e, true));
    StepInv(Run(a, x), Add(e, true));
    RunInv(b, y);
    StepInv(Run(b, y), Mark(e, true));
  }

  lemma FoundReceived(w: World, e: nat, key: Text, id: nat)
    requires Inv(w) && e !in w.deliveries
    requires id < |w.events| && w.events[id].key == key && w.events[id].state == Received
    ensures At(Step(w, Insert(e, key)), e).Adding?
  {
    FindStored(w.events, key, id);
  }

  // ---------------------------------------------------------------- processed events

  /** A delivery that may still mark the event. */
  predicate Unsettled(p: Phase, id: nat) { (p.Adding? || p.Marking? || p.MarkingFailure?) && p.eventId == id }

  /** No delivery may still mark the event. */
  ghost predicate AllSettled(w: World, id: nat) {
    forall d :: d in w.deliveries ==> !Unsettled(At(w, d), id)
  }

  /** The workers leave the event alone. */
  ghost predicate NoWorkOn(actions: seq<Action>, id: nat) {
    forall i :: 0 <= i < |actions| ==> !(actions[i].Work? && actions[i].job == id)
  }

  ghost predicate DoneWith(w: World, id: nat) {
    Inv(w) && id < |w.events| && w.events[id].state == Processed && AllSettled(w, id)
  }

  lemma DoneStep(w: World, a: Action, id: nat)
    requires DoneWith(w, id) && !(a.Work? && a.job == id)
    ensures DoneWith(Step(w, a), id)
  {
    StepInv(w, a);
    var v := Step(w, a);
    match a {
      case Insert(d, key) => if d !in w.deliveries { InsertDone(w, d, key, id); }
      case Add(d, ok) => OneMoved(w, v, d, id);
      case Mark(d, ok) => if d in w.deliveries { assert !Unsettled(At(w, d), id); } OneMoved(w, v, d, id);
      case MarkFailure(d, ok) => if d in w.deliveries { assert !Unsettled(At(w, d), id); } OneMoved(w, v, d, id);
      case Work(_, _) =>
    }
  }

  lemma InsertDone(w: World, d: nat, key: Text, id: nat)
    requires DoneWith(w, id) && d !in w.deliveries
    ensures var v := Step(w, Insert(d, key)); v.events[id].state == Processed && AllSettled(v, id)
  {
    var v := Step(w, Insert(d, key));
    var i := Find(w.events, key);
    forall e | e in v.deliveries ensures !Unsettled(At(v, e), id) {
      if e != d { assert At(v, e) == At(w, e); }
    }
  }

  /** A step of one delivery that is not on the event leaves the others settled. */
  lemma OneMoved(w: World, v: World, d: nat, id: nat)
    requires DoneWith(w, id) && |v.events| == |w.events|
    requires v.deliveries.Keys == w.deliveries.Keys
    requires forall e :: e in w.deliveries && e != d ==> v.deliveries[e] == w.deliveries[e]
    requires d in w.deliveries ==> Unsettled(At(v, d), id) ==> Unsettled(At(w, d), id)
    ensures AllSettled(v, id)
  {
    forall e | e in v.deliveries ensures !Unsettled(At(v, e), id) {
      assert !Unsettled(At(w, e), id);
    }
  }

  lemma {:induction false} DoneRuns(w: World, actions: seq<Action>, id: nat)
    requires DoneWith(w, id) && NoWorkOn(actions, id)
    ensures DoneWith(Run(w, actions), id)
    decreases actions
  {
    hide DoneWith;
    if actions != [] {
      DoneStep(w, actions[0], id);
      DoneRuns(Step(w, actions[0]), actions[1..], id);
    }
  }

  /** A processed event stays processed in every later run in which no worker touches it, whatever is
      delivered, exactly when no delivery that came before may still mark it. */
  lemma ProcessedStaysIff(actions: seq<Action>, id: nat)
    requires var w := Run(EMPTY, actions); id < |w.events| && w.events[id].state == Processed
    ensures var w := Run(EMPTY, actions);
      (forall later :: NoWorkOn(later, id) ==> id < |Run(w, later).events| && Run(w, later).events[id].state == Processed)
      <==> AllSettled(w, id)
  {
    RunInv(EMPTY, actions);
    var w := Run(EMPTY, actions);
    if AllSettled(w, id) {
      forall later | NoWorkOn(later, id)
        ensures id < |Run(w, later).events| && Run(w, later).events[id].state == Processed { DoneRuns(w, later, id); }
    } else {
      var d :| d in w.deliveries && Unsettled(At(w, d), id);
      var later := LateMark(w, d, id);
    }
  }

  /** A delivery that was not done marks the event over again. */
  lemma LateMark(w: World, d: nat, id: nat) returns (later: seq<Action>)
    requires Inv(w) && d in w.deliveries && Unsettled(At(w, d), id)
    ensures NoWorkOn(later, id) && id < |Run(w, later).events| && Run(w, later).events[id].state != Processed
  {
    assert PhaseInv(w, w.deliveries[d].0, At(w, d));
    match At(w, d) {
      case Adding(_, _) =>
        later := [Add(d, true), Mark(d, true)];
        var m := Step(w, Add(d, true));
        assert later[1..] == [Mark(d, true)] && [Mark(d, true)][1..] == [];
        assert Run(w, later) == Run(m, [Mark(d, true)]);
        assert Run(m, [Mark(d, true)]) == Run(Step(m, Mark(d, true)), []);
      case Marking(_, _) =>
        later := [Mark(d, true)];
        assert Run(w, later) == Run(Step(w, Mark(d, true)), later[1..]);
      case MarkingFailure(_) =>
        later := [MarkFailure(d, true)];
        assert Run(w, later) == Run(Step(w, MarkFailure(d, true)), later[1..]);
    }
  }

  /** A delivery whose job is taken and processed before it marks the event: the mark puts the event
      back to queued. */
  lemma LateMarkUndoesProcessed(key: Text)
    ensures var actions := [Insert(0, key), Add(0, true), Work(0, Processed)];
            var w := Run(EMPTY, actions); var v := Step(w, Mark(0, true));
      && |w.events| == 1 && w.events[0].state == Processed && !AllSettled(w, 0)
      && |v.events| == 1 && v.events[0].state == Queued && At(v, 0).Accepted?
  {
    var a := Step(EMPTY, Insert(0, key));
    var b := Step(a, Add(0, true));
    var w := Step(b, Work(0, Processed));
    var actions := [Insert(0, key), Add(0, true), Work(0, Processed)];
    assert actions[1..] == [Add(0, true), Work(0, Processed)];
    assert actions[1..][1..] == [Work(0, Processed)] && [Work(0, Processed)][1..] == [];
    assert Run(w, []) == w && Run(b, [Work(0, Processed)]) == w;
    assert Run(a, actions[1..]) == Run(b, [Work(0, Processed)]) && Run(EMPTY, actions) == Run(a, actions[1..]);
    assert 0 in w.deliveries && Unsettled(At(w, 0), 0);
  }
}
