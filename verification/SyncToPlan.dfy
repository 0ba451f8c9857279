/** From a whole reply of the platform to the plans: what the rows keep of it, and what the plans act
    upon. */
module SyncToPlan {
  import opened JsStrings
  import opened ComplianceRows
  import opened ComplianceSync
  import opened Preflight

  // ---------------------------------------------------------------- what a row keeps of a reply

  /** Everything that a reply lists for an SKC. */
  function AllItems<T>(answers: seq<(string, Answer<T>)>, name: string): seq<T> {
    if answers == [] then []
    else
      var (of, answer) := answers[|answers| - 1];
      AllItems(answers[..|answers| - 1], name) + if of == name then answer.Items() else []
  }

  /** Of several entries for an SKC only the last one lists items. */
  ghost predicate OnlyLastLists<T>(answers: seq<(string, Answer<T>)>, name: string) {
    forall i, j :: 0 <= i < j < |answers| && answers[i].0 == answers[j].0 == name ==> answers[i].1.Items() == []
  }

  /** A lookup finds everything the reply lists for an SKC exactly when only its last entry lists items:
      an SKC that is answered twice loses the items of its first answer. */
  lemma {:induction false} NothingDroppedIff<T>(answers: seq<(string, Answer<T>)>, name: string)
    ensures Lookup(answers, name).Items() == AllItems(answers, name) <==> OnlyLastLists(answers, name)
    ensures |Lookup(answers, name).Items()| <= |AllItems(answers, name)|
  {
    if answers != [] {
      var n := |answers| - 1;
      var before := answers[..n];
      NothingDroppedIff(before, name);
      assert forall i :: 0 <= i < n ==> before[i] == answers[i];
      if answers[n].0 == name {
        NoItemsIff(before, name);
        assert |AllItems(answers, name)| == |AllItems(before, name)| + |answers[n].1.Items()|;
        if AllItems(before, name) == [] {
          assert AllItems(answers, name) == answers[n].1.Items();
        } else {
          var i :| 0 <= i < n && before[i].0 == name && before[i].1.Items() != [];
          assert answers[i].0 == answers[n].0 == name;
        }
      } else {
        assert AllItems(answers, name) == AllItems(before, name);
        SameEntries(answers, name);
      }
    }
  }

  lemma SameEntries<T>(answers: seq<(string, Answer<T>)>, name: string)
    requires answers != [] && answers[|answers| - 1].0 != name
    ensures OnlyLastLists(answers, name) <==> OnlyLastLists(answers[..|answers| - 1], name)
  {
    var before := answers[..|answers| - 1];
    assert forall i :: 0 <= i < |before| ==> before[i] == answers[i];
    if OnlyLastLists(answers, name) {
      forall i, j | 0 <= i < j < |before| && before[i].0 == before[j].0 == name ensures before[i].1.Items() == [] {
        assert answers[i].0 == answers[j].0 == name;
      }
    }
    if OnlyLastLists(before, name) {
      forall i, j | 0 <= i < j < |answers| && answers[i].0 == answers[j].0 == name ensures answers[i].1.Items() == [] {
        assert before[i].0 == before[j].0 == name;
      }
    }
  }

  lemma {:induction false} NoItemsIff<T>(answers: seq<(string, Answer<T>)>, name: string)
    ensures AllItems(answers, name) == [] <==>
      forall i :: 0 <= i < |answers| && answers[i].0 == name ==> answers[i].1.Items() == []
  {
    if answers != [] {
      var n := |answers| - 1;
      NoItemsIff(answers[..n], name);
      assert forall i :: 0 <= i < n ==> answers[..n][i] == answers[i];
      assert |AllItems(answers, name)|
        == |AllItems(answers[..n], name)| + if answers[n].0 == name then |answers[n].1.Items()| else 0;
    }
  }

  /** An SKC that is answered twice in one reply, first with an item: the item is dropped. */
  lemma SecondAnswerDropsItems<T>(name: string, item: T)
    ensures var answers := [(name, Returned([item])), (name, Returned([]))];
      Lookup(answers, name).Items() == [] && AllItems(answers, name) == [item] && !OnlyLastLists(answers, name)
  {
    var answers: seq<(string, Answer<T>)> := [(name, Returned([item])), (name, Returned([]))];
    assert answers[..1] == [(name, Returned([item]))] && answers[..1][..0] == [];
    assert AllItems(answers[..1][..0], name) == [];
    assert AllItems(answers[..1], name) == [item];
    assert answers[0].0 == answers[1].0 == name && answers[0].1.Items() == [item];
  }

  // ---------------------------------------------------------------- what the plans act upon

  /** An unresolved photo that a row keeps. */
  predicate KeptUnresolved(p: Photo) { PhotoUnresolved(p) && (p.labelGroup == "1" || p.labelGroup == "2") }

  lemma UnresolvedPhotosKept(skc: string, requirements: Answer<Requirement>, photos: Answer<Photo>)
    ensures multiset(Filter(PhotoUnresolved, Photos(BuildRow(skc, requirements, photos))))
         == multiset(Filter(KeptUnresolved, photos.Items()))
  {
    var row := BuildRow(skc, requirements, photos);
    var items := photos.Items();
    hide Filter, PhotoUnresolved;
    forall p
      ensures multiset(Filter(PhotoUnresolved, Photos(row)))[p] == multiset(Filter(KeptUnresolved, items))[p]
    {
      FilterCount(PhotoUnresolved, Photos(row), p);
      FilterCount(KeptUnresolved, items, p);
      FilterCount((q: Photo) => q.labelGroup == "2", items, p);
      FilterCount((q: Photo) => q.labelGroup == "1", items, p);
    }
  }

  /** For each SKC of a sync whose plan has no blockers: its actions are, one to one and in order,
      for requirements and photos that are together exactly the unresolved ones of its last answers. */
  lemma WholeReplyToPlan(
      names: seq<string>, requirements: seq<(string, Answer<Requirement>)>, photos: seq<(string, Answer<Photo>)>,
      i: nat, inputs: Inputs, hasTemplate: bool, snapshot: Snapshot, now: int, maxAge: int)
    requires i < |NormalizeRows(names, requirements, photos)|
    ensures var row := NormalizeRows(names, requirements, photos)[i];
            var plan := MakePlan(row, inputs, hasTemplate, snapshot, now, maxAge);
            var rs := Filter(Unresolved, Requirements(row));
            var ps := Filter(PhotoUnresolved, Photos(row));
      plan.blockers == [] ==>
      && |plan.actions| == |rs| + |ps|
      && InStepWith(plan.actions[..|rs|], rs) && InStepWithPhotos(plan.actions[|rs|..], ps)
      && multiset(rs) == multiset(Filter(Unresolved, Lookup(requirements, row.skc).Items()))
      && multiset(ps) == multiset(Filter(KeptUnresolved, Lookup(photos, row.skc).Items()))
  {
    hide MakePlan, Filter, BuildRow, UniqueNames, InStepWith, InStepWithPhotos, Lookup, Requirements, Photos;
    var name := UniqueNames(names)[i];
    var row := NormalizeRows(names, requirements, photos)[i];
    BuiltFor(name, Lookup(requirements, name), Lookup(photos, name));
    if MakePlan(row, inputs, hasTemplate, snapshot, now, maxAge).blockers == [] {
      BuiltRowsAreGrouped(name, Lookup(requirements, name), Lookup(photos, name));
      NothingLostInPlan(row, inputs, hasTemplate, snapshot, now, maxAge);
      NothingLostFromSyncToPlan(
        name, Lookup(requirements, name), Lookup(photos, name), inputs, hasTemplate, snapshot, now, maxAge);
      UnresolvedPhotosKept(name, Lookup(requirements, name), Lookup(photos, name));
    }
  }

  lemma BuiltFor(skc: string, requirements: Answer<Requirement>, photos: Answer<Photo>)
    ensures BuildRow(skc, requirements, photos).skc == skc
  {
  }

  /** No entry for an SKC but the last one lists something of the kind. */
  ghost predicate OnlyLastHas<T>(p: T -> bool, answers: seq<(string, Answer<T>)>, name: string) {
    forall i, j :: 0 <= i < j < |answers| && answers[i].0 == answers[j].0 == name ==>
      Filter(p, answers[i].1.Items()) == []
  }

  /** The entries with their items of one kind only. */
  function Kept<T>(p: T -> bool, answers: seq<(string, Answer<T>)>): seq<(string, Answer<T>)> {
    seq(|answers|, i requires 0 <= i < |answers| => (answers[i].0, Returned(Filter(p, answers[i].1.Items()))))
  }

  lemma {:induction false} KeptItems<T>(p: T -> bool, answers: seq<(string, Answer<T>)>, name: string)
    ensures AllItems(Kept(p, answers), name) == Filter(p, AllItems(answers, name))
    ensures Lookup(Kept(p, answers), name).Items() == Filter(p, Lookup(answers, name).Items())
  {
    if answers != [] {
      var n := |answers| - 1;
      assert Kept(p, answers)[..n] == Kept(p, answers[..n]);
      KeptItems(p, answers[..n], name);
      FilterConcat(p, AllItems(answers[..n], name), answers[n].1.Items());
      assert AllItems(answers[..n], name) + [] == AllItems(answers[..n], name);
    }
  }

  lemma {:induction false} FilterConcat<T>(p: T -> bool, a: seq<T>, b: seq<T>)
    ensures Filter(p, a + b) == Filter(p, a) + Filter(p, b)
  {
    if b == [] {
      assert a + b == a;
    } else {
      var n := |b| - 1;
      FilterConcat(p, a, b[..n]);
      assert (a + b)[..|a + b| - 1] == a + b[..n];
    }
  }

  /** A lookup finds as many items of a kind as the reply lists for the SKC exactly when only its last
      entry lists some. */
  lemma NoneOfKindDroppedIff<T>(p: T -> bool, answers: seq<(string, Answer<T>)>, name: string)
    ensures multiset(Filter(p, Lookup(answers, name).Items())) == multiset(Filter(p, AllItems(answers, name))) <==>
            OnlyLastHas(p, answers, name)
  {
    var kept := Kept(p, answers);
    KeptItems(p, answers, name);
    NothingDroppedIff(kept, name);
    LookupIsLast(kept, name);
    var found, all := Lookup(kept, name).Items(), AllItems(kept, name);
    if multiset(found) == multiset(all) { assert |multiset(found)| == |multiset(all)|; }
    assert OnlyLastLists(kept, name) <==> OnlyLastHas(p, answers, name) by {
      assert forall i :: 0 <= i < |answers| ==>
        kept[i].0 == answers[i].0 && kept[i].1.Items() == Filter(p, answers[i].1.Items());
    }
  }

  /** What a lookup finds is the end of all that is listed. */
  lemma {:induction false} LookupIsLast<T>(answers: seq<(string, Answer<T>)>, name: string)
    ensures var found, all := Lookup(answers, name).Items(), AllItems(answers, name);
      |found| <= |all| && all[|all| - |found|..] == found
  {
    if answers != [] {
      var n := |answers| - 1;
      LookupIsLast(answers[..n], name);
      assert AllItems(answers[..n], name) + [] == AllItems(answers[..n], name);
    }
  }

  /** So nothing unresolved that the reply lists for an SKC is lost on the way to its unblocked plan
      exactly when no earlier answer for it lists anything unresolved. */
  lemma NothingLostFromReplyIff(
      names: seq<string>, requirements: seq<(string, Answer<Requirement>)>, photos: seq<(string, Answer<Photo>)>,
      i: nat, inputs: Inputs, hasTemplate: bool, snapshot: Snapshot, now: int, maxAge: int)
    requires i < |NormalizeRows(names, requirements, photos)|
    requires MakePlan(NormalizeRows(names, requirements, photos)[i], inputs, hasTemplate, snapshot, now, maxAge).blockers == []
    ensures var row := NormalizeRows(names, requirements, photos)[i];
      && (multiset(Filter(Unresolved, Requirements(row))) == multiset(Filter(Unresolved, AllItems(requirements, row.skc)))
          <==> OnlyLastHas(Unresolved, requirements, row.skc))
      && (multiset(Filter(PhotoUnresolved, Photos(row))) == multiset(Filter(KeptUnresolved, AllItems(photos, row.skc)))
          <==> OnlyLastHas(KeptUnresolved, photos, row.skc))
  {
    hide NormalizeRows, MakePlan, Filter, Lookup, AllItems, OnlyLastHas;
    hide InStepWith, InStepWithPhotos, Requirements, Photos;
    var row := NormalizeRows(names, requirements, photos)[i];
    WholeReplyToPlan(names, requirements, photos, i, inputs, hasTemplate, snapshot, now, maxAge);
    NoneOfKindDroppedIff(Unresolved, requirements, row.skc);
    NoneOfKindDroppedIff(KeptUnresolved, photos, row.skc);
  }
}
