/** The read-back simulator: a fold over events in which receipts may be repeated and reordered.
    The result must be a join of the receipts: how many there are, and the highest-ranked code. */
module FaultGates {

  datatype Event =
    | Receipt(id: string, code: string)
    | AmbiguousAttempt
    | ProjectionTransactionFailed
    | SourceFailed
    | SourceEmptyConfirmed
    | Other

  datatype Readback = Readback(
    receipts: set<string>,
    currentRank: int,
    currentCode: string,
    attemptState: string,
    projectionState: string,
    sourceHealth: string,
    snapshotValue: string,
    stale: bool)

  const UNKNOWN := "unknown"
  const REJECTED := "rejected"
  const ACCEPTED := "accepted"

  /** `outcomeRank[code] ?? -1` */
  function Rank(code: string): int {
    if code == UNKNOWN then 0 else if code == REJECTED then 1 else if code == ACCEPTED then 2 else -1
  }

  predicate Known(code: string) { code in [UNKNOWN, REJECTED, ACCEPTED] }

  const START := Readback({}, -1, UNKNOWN, "clear", "current", "healthy", "last-known-good", false)

  function Apply(s: Readback, e: Event): Readback {
    match e
    case Receipt(id, code) =>
      if id in s.receipts then s
      else if Rank(code) >= s.currentRank then
        s.(receipts := s.receipts + {id}, currentRank := Rank(code), currentCode := code)
      else s.(receipts := s.receipts + {id})
    case AmbiguousAttempt => s.(attemptState := "conflict")
    case ProjectionTransactionFailed => s.(projectionState := "unchanged")
    case SourceFailed => s.(sourceHealth := "failed", stale := true)
    case SourceEmptyConfirmed => s.(sourceHealth := "healthy", snapshotValue := "empty", stale := false)
    case Other => s
  }

  function Fold(events: seq<Event>): Readback {
    if events == [] then START else Apply(Fold(events[..|events| - 1]), events[|events| - 1])
  }

  /** `simulateReadbackFault` */
  method SimulateReadbackFault(events: seq<Event>) returns (result: Readback)
    ensures result == Fold(events)
  {
    var receipts: set<string> := {};
    var currentRank, currentCode := -1, UNKNOWN;
    var attemptState, projectionState, sourceHealth := "clear", "current", "healthy";
    var snapshotValue, stale := "last-known-good", false;
    for i := 0 to |events|
      invariant Readback(receipts, currentRank, currentCode, attemptState, projectionState, sourceHealth,
                         snapshotValue, stale) == Fold(events[..i])
    {
      assert events[..i + 1][..i] == events[..i];
      match events[i] {
        case Receipt(id, code) =>
          if id !in receipts {
            receipts := receipts + {id};
            if Rank(code) >= currentRank {
              currentRank, currentCode := Rank(code), code;
            }
          }
        case AmbiguousAttempt => attemptState := "conflict";
        case ProjectionTransactionFailed => projectionState := "unchanged";
        case SourceFailed => sourceHealth, stale := "failed", true;
        case SourceEmptyConfirmed => sourceHealth, snapshotValue, stale := "healthy", "empty", false;
        case Other =>
      }
    }
    assert events[..|events|] == events;
    result := Readback(receipts, currentRank, currentCode, attemptState, projectionState, sourceHealth,
                       snapshotValue, stale);
  }

  /** The receipts of a list, without order and repetition. */
  ghost function Receipts(events: seq<Event>): (r: set<Event>)
    ensures forall e :: e in r ==> e.Receipt?
  {
    set e | e in events && e.Receipt?
  }

  /** Every receipt carries a known code, and an id always the same one. */
  ghost predicate FixedCodes(events: seq<Event>) {
    && (forall e :: e in Receipts(events) ==> Known(e.code))
    && (forall d, e :: d in Receipts(events) && e in Receipts(events) && d.id == e.id ==> d == e)
  }

  /** The code that the receipts should lead to: the highest-ranked one, or unknown without any. */
  ghost predicate Highest(receipts: set<Event>, code: string)
    requires forall e :: e in receipts ==> e.Receipt?
  {
    && (forall e :: e in receipts ==> Rank(e.code) <= Rank(code))
    && (if receipts == {} then code == UNKNOWN else exists e :: e in receipts && e.code == code)
  }

  ghost function Ids(receipts: set<Event>): set<string>
    requires forall e :: e in receipts ==> e.Receipt?
  {
    set e | e in receipts :: e.id
  }

  lemma {:induction false} FoldIds(events: seq<Event>)
    ensures Fold(events).receipts == Ids(Receipts(events))
  {
    if events != [] {
      var n := |events| - 1;
      FoldIds(events[..n]);
      ReceiptsSnoc(events);
    }
  }

  lemma ReceiptsSnoc(events: seq<Event>)
    requires events != []
    ensures var n := |events| - 1;
      Receipts(events) == Receipts(events[..n]) + if events[n].Receipt? then {events[n]} else {}
  {
    var n := |events| - 1;
    assert events == events[..n] + [events[n]];
  }

  /** The fold keeps the highest-ranked code received. */
  lemma {:induction false} CurrentIsHighest(events: seq<Event>)
    requires FixedCodes(events)
    ensures HighestSoFar(Receipts(events), Fold(events))
  {
    hide FixedCodes;
    if events == [] {
      assert Receipts(events) == {} && Fold(events) == START;
    } else {
      var n := |events| - 1;
      hide Receipts, HighestSoFar, Rank, Ids, Apply;
      FixedBefore(events);
      ReceiptsSnoc(events);
      CurrentIsHighest(events[..n]);
      FoldIds(events[..n]);
      if events[n].Receipt? {
        HighestStep(Receipts(events[..n]), Fold(events[..n]), events[n]);
      } else {
        assert Receipts(events) == Receipts(events[..n]);
        OtherEvent(Receipts(events[..n]), Fold(events[..n]), events[n]);
      }
    }
  }

  lemma OtherEvent(receipts: set<Event>, s: Readback, e: Event)
    requires (forall d :: d in receipts ==> d.Receipt?) && !e.Receipt? && HighestSoFar(receipts, s)
    ensures HighestSoFar(receipts, Apply(s, e))
  {
  }

  lemma FixedBefore(events: seq<Event>)
    requires events != [] && FixedCodes(events)
    ensures var n := |events| - 1;
      && FixedCodes(events[..n])
      && forall d :: d in Receipts(events[..n]) && events[n].Receipt? && d.id == events[n].id ==> d == events[n]
  {
    ReceiptsSnoc(events);
    if events[|events| - 1].Receipt? { assert events[|events| - 1] in Receipts(events); }
  }

  ghost predicate HighestSoFar(receipts: set<Event>, s: Readback)
    requires forall e :: e in receipts ==> e.Receipt?
  {
    Highest(receipts, s.currentCode) && s.currentRank == if receipts == {} then -1 else Rank(s.currentCode)
  }

  lemma HighestStep(receipts: set<Event>, s: Readback, e: Event)
    requires (forall d :: d in receipts ==> d.Receipt? && (e.Receipt? && d.id == e.id ==> d == e)) && e.Receipt?
    requires HighestSoFar(receipts, s) && s.receipts == Ids(receipts)
    ensures HighestSoFar(receipts + {e}, Apply(s, e))
  {
    if e.id in s.receipts {
      var d :| d in receipts && d.id == e.id;
      assert receipts + {e} == receipts;
    } else if Rank(e.code) >= s.currentRank {
      assert e in receipts + {e};
    } else {
      var d :| d in receipts && d.code == s.currentCode;
      assert d in receipts + {e};
    }
  }

  lemma HighestIsUnique(receipts: set<Event>, a: string, b: string)
    requires forall e :: e in receipts ==> e.Receipt? && Known(e.code)
    requires Highest(receipts, a) && Highest(receipts, b)
    ensures a == b
  {
    if receipts != {} {
      var d :| d in receipts && d.code == a;
      var e :| e in receipts && e.code == b;
    }
  }

  /** Reading back is a join: two lists with the same receipts, in any order and any number of
      copies and with any other events between them, give the same count and the same code. */
  lemma ReadbackIsJoin(events: seq<Event>, others: seq<Event>)
    requires FixedCodes(events) && Receipts(events) == Receipts(others)
    ensures |Fold(events).receipts| == |Fold(others).receipts|
    ensures Fold(events).currentCode == Fold(others).currentCode
    ensures Highest(Receipts(events), Fold(events).currentCode)
  {
    FoldIds(events);
    FoldIds(others);
    CurrentIsHighest(events);
    CurrentIsHighest(others);
    HighestIsUnique(Receipts(events), Fold(events).currentCode, Fold(others).currentCode);
  }

  /** The count needs no hypothesis: it depends on the ids alone. */
  lemma CountDependsOnIds(events: seq<Event>, others: seq<Event>)
    requires Ids(Receipts(events)) == Ids(Receipts(others))
    ensures |Fold(events).receipts| == |Fold(others).receipts|
  {
    FoldIds(events);
    FoldIds(others);
  }

  lemma FoldTwo(a: Event, b: Event)
    ensures Fold([a, b]) == Apply(Apply(START, a), b)
    ensures Receipts([a, b]) == Receipts([b, a])
  {
    assert [a, b][..1] == [a] && [a][..0] == [];
    assert Fold([a]) == Apply(Fold([a][..0]), a) && Fold([a, b]) == Apply(Fold([a, b][..1]), b);
    forall e ensures e in [a, b] <==> e in [b, a] {
      assert e in [a, b] <==> e == a || e == b;
    }
  }

  /** Two receipts swap without effect exactly when they carry different ids and codes of different
      rank, or the same code. */
  lemma SwapIff(a: Event, b: Event)
    requires a.Receipt? && b.Receipt?
    ensures Fold([a, b]).currentCode == Fold([b, a]).currentCode <==>
              a.code == b.code || (a.id != b.id && Rank(a.code) != Rank(b.code))
  {
    SecondCode(a, b);
    SecondCode(b, a);
  }

  lemma SecondCode(a: Event, b: Event)
    requires a.Receipt? && b.Receipt?
    ensures Fold([a, b]).currentCode == if a.id != b.id && Rank(b.code) >= Rank(a.code) then b.code else a.code
  {
    FoldTwo(a, b);
    var first := Apply(START, a);
    assert first.currentRank == Rank(a.code) && first.currentCode == a.code && first.receipts == {a.id};
  }

  /** Without one code per id the order decides, because a repeated id is not read again. */
  lemma ChangedCodeDependsOnOrder()
    ensures exists a, b :: Receipts([a, b]) == Receipts([b, a])
                        && Fold([a, b]).currentCode == REJECTED && Fold([b, a]).currentCode == ACCEPTED
  {
    var a, b := Receipt("r", REJECTED), Receipt("r", ACCEPTED);
    FoldTwo(a, b);
    FoldTwo(b, a);
    assert Receipts([a, b]) == Receipts([b, a]);
    assert Fold([a, b]).currentCode == REJECTED && Fold([b, a]).currentCode == ACCEPTED;
  }

  // ---------------------------------------------------------------- when the order does not matter

  /** Every list with the same receipts gives the same code. */
  ghost predicate OrderIrrelevant(events: seq<Event>) {
    forall others :: Receipts(others) == Receipts(events) ==> Fold(others).currentCode == Fold(events).currentCode
  }

  ghost predicate Top(receipts: set<Event>, rank: int)
    requires forall e :: e in receipts ==> e.Receipt?
  {
    (forall e :: e in receipts ==> Rank(e.code) <= rank) && exists e :: e in receipts && Rank(e.code) == rank
  }

  /** The id was received, and only with codes of this rank. */
  ghost predicate Only(receipts: set<Event>, id: string, rank: int)
    requires forall e :: e in receipts ==> e.Receipt?
  {
    && (exists e :: e in receipts && e.id == id)
    && forall e :: e in receipts && e.id == id ==> Rank(e.code) == rank
  }

  /** The current code is one of the received codes. */
  lemma {:induction false} CodeReceived(events: seq<Event>)
    ensures var s := Fold(events);
      if Receipts(events) == {} then s.currentRank == -1 && s.currentCode == UNKNOWN
      else s.currentRank == Rank(s.currentCode) && exists e :: e in Receipts(events) && e.code == s.currentCode
  {
    if events != [] {
      var n := |events| - 1;
      hide Rank;
      ReceiptsSnoc(events);
      CodeReceived(events[..n]);
      FoldIds(events[..n]);
      RankLeast(events[n]);
      if events[n].Receipt? { assert events[n] in Receipts(events); }
    }
  }

  lemma RankLeast(e: Event)
    ensures e.Receipt? ==> Rank(e.code) >= -1
  {
  }

  /** An id that carries codes of one rank only lifts the current rank to it. */
  lemma {:induction false} OnlyLifts(events: seq<Event>, id: string, rank: int)
    requires Only(Receipts(events), id, rank)
    ensures Fold(events).currentRank >= rank
  {
    var n := |events| - 1;
    hide Rank;
    ReceiptsSnoc(events);
    FoldIds(events[..n]);
    if id in Ids(Receipts(events[..n])) {
      OnlyLifts(events[..n], id, rank);
    } else {
      assert events[n].Receipt? && events[n].id == id && events[n] in Receipts(events);
    }
  }

  /** When all ids of a tail were received before it, the tail changes neither code nor ids. */
  lemma {:induction false} OldIds(head: seq<Event>, tail: seq<Event>)
    requires Ids(Receipts(tail)) <= Ids(Receipts(head))
    ensures Fold(head + tail).currentCode == Fold(head).currentCode
    ensures Receipts(head + tail) == Receipts(head) + Receipts(tail)
    ensures Fold(head + tail).receipts == Fold(head).receipts
  {
    if tail == [] {
      assert head + tail == head;
    } else {
      var n := |tail| - 1;
      ReceiptsSnoc(tail);
      OldIds(head, tail[..n]);
      assert (head + tail)[..|head + tail| - 1] == head + tail[..n];
      ReceiptsSnoc(head + tail);
      FoldIds(head);
    }
  }

  lemma {:induction false} TopExists(events: seq<Event>) returns (t: Event)
    requires Receipts(events) != {}
    ensures t in Receipts(events) && Top(Receipts(events), Rank(t.code))
  {
    hide Rank;
    var n := |events| - 1;
    ReceiptsSnoc(events);
    if Receipts(events[..n]) == {} {
      t := events[n];
    } else {
      t := TopExists(events[..n]);
      if events[n].Receipt? && Rank(events[n].code) > Rank(t.code) { t := events[n]; }
    }
  }

  lemma IdsWith(receipts: set<Event>, e: Event)
    requires (forall d :: d in receipts ==> d.Receipt?) && e.Receipt?
    ensures Ids(receipts + {e}) == Ids(receipts) + {e.id}
  {
  }

  /** For every id of the events one of the receipts below the rank, if every id has one. */
  lemma {:induction false} LowReceipts(events: seq<Event>, receipts: set<Event>, rank: int) returns (low: seq<Event>)
    requires Receipts(events) <= receipts && forall e :: e in receipts ==> e.Receipt? && Rank(e.code) <= rank
    requires forall e :: e in receipts ==> !Only(receipts, e.id, rank)
    ensures forall e :: e in low ==> e in receipts && Rank(e.code) < rank
    ensures Ids(Receipts(events)) <= Ids(Receipts(low))
  {
    hide Rank;
    low := [];
    if events == [] {
      assert Receipts(events) == {};
    } else {
      var n := |events| - 1;
      ReceiptsSnoc(events);
      low := LowReceipts(events[..n], receipts, rank);
      if events[n].Receipt? {
        assert !Only(receipts, events[n].id, rank);
        var e :| e in receipts && e.id == events[n].id && Rank(e.code) != rank;
        ReceiptsSnoc(low + [e]);
        assert (low + [e])[..|low|] == low;
        IdsWith(Receipts(low), e);
        IdsWith(Receipts(events[..n]), events[n]);
        low := low + [e];
      }
    }
  }

  /** Where each id also carries a lower code, the code depends on the order. */
  lemma LowerFirst(events: seq<Event>, t: Event)
    requires t in Receipts(events) && Top(Receipts(events), Rank(t.code))
    requires forall e :: e in Receipts(events) ==> !Only(Receipts(events), e.id, Rank(t.code))
    ensures !OrderIrrelevant(events)
  {
    hide Rank, Fold;
    var receipts, rank := Receipts(events), Rank(t.code);
    var low := LowReceipts(events, receipts, rank);
    OldIds(low, events);
    CodeReceived(low);
    assert Receipts(low + events) == receipts;
    assert t.id in Ids(receipts);
    assert Rank(Fold(low + events).currentCode) < rank;
    HeadLifts(t, events);
    CodeReceived([t] + events);
    assert Rank(Fold([t] + events).currentCode) >= rank;
  }

  /** What comes first counts, so the code does not fall below it. */
  lemma {:induction false} HeadLifts(t: Event, events: seq<Event>)
    requires t.Receipt?
    ensures Fold([t] + events).currentRank >= Rank(t.code)
    ensures Receipts([t] + events) == {t} + Receipts(events)
  {
    if events == [] {
      assert [t] + events == [t] && [t][..0] == [];
      assert Fold([t]) == Apply(Fold([t][..0]), t);
    } else {
      var n := |events| - 1;
      HeadLifts(t, events[..n]);
      ReceiptsSnoc(events);
      ReceiptsSnoc([t] + events);
      assert ([t] + events)[..|[t] + events| - 1] == [t] + events[..n];
    }
  }

  /** Among codes without a rank the id that was new last decides. */
  lemma LastNewDecides(events: seq<Event>, a: Event)
    requires a in Receipts(events) && forall e :: e in Receipts(events) ==> Rank(e.code) == -1
    ensures exists others :: Receipts(others) == Receipts(events) && Fold(others).currentCode == a.code
  {
    hide Rank;
    var before := WithoutId(events, a.id);
    CodeReceived(before);
    FoldIds(before);
    var head := before + [a];
    assert head[..|head| - 1] == before;
    ReceiptsSnoc(head);
    assert Fold(head).currentCode == a.code;
    OldIds(head, events);
    assert Receipts(head + events) == Receipts(events);
  }

  lemma {:induction false} WithoutId(events: seq<Event>, id: string) returns (others: seq<Event>)
    ensures forall e :: e in Receipts(others) <==> e in Receipts(events) && e.id != id
  {
    others := [];
    if events != [] {
      var n := |events| - 1;
      others := WithoutId(events[..n], id);
      ReceiptsSnoc(events);
      if events[n].Receipt? && events[n].id != id {
        ReceiptsSnoc(others + [events[n]]);
        assert (others + [events[n]])[..|others|] == others;
        others := others + [events[n]];
      }
    }
  }

  /** Some id carries only the best code received; codes without a rank are best only when they are
      all the same. */
  ghost predicate Decided(receipts: set<Event>)
    requires forall e :: e in receipts ==> e.Receipt?
  {
    || (exists e :: e in receipts && Rank(e.code) >= 0 && Top(receipts, Rank(e.code)) && Only(receipts, e.id, Rank(e.code)))
    || (forall d, e :: d in receipts && e in receipts ==> Rank(d.code) == -1 && d.code == e.code)
  }

  /** For any list of events, with any codes: all lists with the same receipts give the same code
      exactly when there is no receipt, or some id carries only the highest-ranked code received, or
      no code received has a rank and all are the same. */
  lemma OrderIrrelevantIff(events: seq<Event>)
    ensures OrderIrrelevant(events) <==> Decided(Receipts(events))
  {
    hide Rank, Fold, Top, Only;
    if Receipts(events) == {} {
      forall others | Receipts(others) == Receipts(events)
        ensures Fold(others).currentCode == Fold(events).currentCode
      {
        CodeReceived(others);
        CodeReceived(events);
      }
    } else {
      var t := TopExists(events);
      RankLeast(t);
      if Rank(t.code) >= 0 { RankedIff(events, t); } else { UnrankedIff(events, t); }
    }
  }

  lemma RankedIff(events: seq<Event>, t: Event)
    requires t in Receipts(events) && Top(Receipts(events), Rank(t.code)) && Rank(t.code) >= 0
    ensures OrderIrrelevant(events) <==> Decided(Receipts(events))
  {
    var receipts := Receipts(events);
    if e :| e in receipts && Only(receipts, e.id, Rank(t.code)) {
      forall others | Receipts(others) == receipts ensures Fold(others).currentCode == t.code {
        OnlyLifts(others, e.id, Rank(t.code));
        CodeReceived(others);
        SameRank(Fold(others).currentCode, t.code);
      }
      assert Fold(events).currentCode == t.code;
      assert Rank(e.code) == Rank(t.code);
    } else {
      LowerFirst(events, t);
    }
  }

  lemma SameRank(a: string, b: string)
    ensures Rank(a) == Rank(b) >= 0 ==> a == b
  {
  }

  lemma UnrankedIff(events: seq<Event>, t: Event)
    requires t in Receipts(events) && Top(Receipts(events), Rank(t.code)) && Rank(t.code) == -1
    ensures OrderIrrelevant(events) <==> Decided(Receipts(events))
  {
    var receipts := Receipts(events);
    forall e | e in receipts ensures Rank(e.code) == -1 { RankLeast(e); }
    hide Rank, Fold;
    if d, e :| d in receipts && e in receipts && d.code != e.code {
      LastNewDecides(events, d);
      LastNewDecides(events, e);
    } else {
      forall others | Receipts(others) == receipts ensures Fold(others).currentCode == t.code { CodeReceived(others); }
      assert Fold(events).currentCode == t.code;
    }
  }

  /** One code per id, all known, decides: the join is a case of the general rule. */
  lemma FixedCodesDecide(events: seq<Event>)
    requires FixedCodes(events)
    ensures Decided(Receipts(events))
  {
    if Receipts(events) != {} {
      var t := TopExists(events);
      assert Only(Receipts(events), t.id, Rank(t.code));
    }
  }

  // ---------------------------------------------------------------- attempts, projection and source

  predicate OfSource(e: Event) { e.SourceFailed? || e.SourceEmptyConfirmed? }

  /** The last event about the source. */
  ghost predicate LastOfSource(events: seq<Event>, i: int) {
    0 <= i < |events| && OfSource(events[i]) && forall j :: i < j < |events| ==> !OfSource(events[j])
  }

  /** An ambiguous attempt and a failed projection leave their mark for good; a confirmed empty source
      replaces the snapshot. */
  lemma {:induction false} MarksExact(events: seq<Event>)
    ensures var s := Fold(events);
      && s.attemptState == (if AmbiguousAttempt in events then "conflict" else "clear")
      && s.projectionState == (if ProjectionTransactionFailed in events then "unchanged" else "current")
      && s.snapshotValue == (if SourceEmptyConfirmed in events then "empty" else "last-known-good")
  {
    hide Rank;
    if events != [] {
      var n := |events| - 1;
      MarksExact(events[..n]);
      MemberSnoc(events, AmbiguousAttempt);
      MemberSnoc(events, ProjectionTransactionFailed);
      MemberSnoc(events, SourceEmptyConfirmed);
    }
  }

  lemma MemberSnoc(events: seq<Event>, e: Event)
    requires events != []
    ensures e in events <==> e in events[..|events| - 1] || e == events[|events| - 1]
  {
    assert events == events[..|events| - 1] + [events[|events| - 1]];
  }

  /** The last event about the source says whether it is healthy and the snapshot up to date; without any
      it is healthy. */
  lemma {:induction false} SourceExact(events: seq<Event>, i: int)
    requires LastOfSource(events, i) || forall e :: e in events ==> !OfSource(e)
    ensures var s := Fold(events); var failed := LastOfSource(events, i) && events[i].SourceFailed?;
      s.sourceHealth == (if failed then "failed" else "healthy") && s.stale == failed
  {
    hide Rank;
    if events != [] {
      var n := |events| - 1;
      assert events[n] in events && forall e :: e in events[..n] ==> e in events;
      if !OfSource(events[n]) {
        assert LastOfSource(events, i) ==> LastOfSource(events[..n], i);
        assert LastOfSource(events[..n], i) ==> LastOfSource(events, i);
        SourceExact(events[..n], i);
      }
    }
  }
}
