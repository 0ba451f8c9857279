/** Which rows a compliance job leaves behind, SKC by SKC. */
module ComplianceJobRows {
  import opened JsStrings
  import opened ComplianceRows
  import opened ComplianceSync
  import opened ComplianceRuns

  /** The SKCs of a job are the non-blank names of the request, trimmed, each once and in the order in
      which they first stand there. */
  lemma UniqueNamesExact(names: seq<string>) returns (places: seq<nat>)
    ensures forall s :: s in UniqueNames(names) <==> s != "" && exists t :: t in names && Trim(t) == s
    ensures |places| == |UniqueNames(names)|
    ensures forall k :: 0 <= k < |places| ==> places[k] < |names| && UniqueNames(names)[k] == Trim(names[places[k]])
    ensures forall k, i :: 0 <= k < |places| && 0 <= i < places[k] ==> Trim(names[i]) != UniqueNames(names)[k]
    ensures forall j, k :: 0 <= j < k < |places| ==> places[j] < places[k]
  {
    var trimmed := seq(|names|, i requires 0 <= i < |names| => Trim(names[i]));
    places := UniqueInOrder(trimmed);
    hide Trim;
    forall s ensures s in UniqueNames(names) <==> s != "" && exists t :: t in names && Trim(t) == s {
      UniqueStringsMember(trimmed, s);
      if s in trimmed {
        var i :| 0 <= i < |trimmed| && trimmed[i] == s;
        assert names[i] in names && Trim(names[i]) == s;
      }
      if t :| t in names && Trim(t) == s {
        var i :| 0 <= i < |names| && names[i] == t;
        assert trimmed[i] == s;
      }
    }
    hide UniqueStrings;
    forall k, i | 0 <= k < |places| && 0 <= i < places[k] ensures Trim(names[i]) != UniqueNames(names)[k] {
      assert trimmed[i] == Trim(names[i]);
    }
  }

  /** Distinct non-empty texts stand where they first stood. */
  lemma {:induction false} UniqueInOrder(xs: seq<string>) returns (places: seq<nat>)
    ensures |places| == |UniqueStrings(xs)|
    ensures forall k :: 0 <= k < |places| ==> places[k] < |xs| && UniqueStrings(xs)[k] == xs[places[k]]
    ensures forall k, i :: 0 <= k < |places| && 0 <= i < places[k] ==> xs[i] != UniqueStrings(xs)[k]
    ensures forall j, k :: 0 <= j < k < |places| ==> places[j] < places[k]
  {
    if xs == [] {
      places := [];
    } else {
      var n := |xs| - 1;
      var nonEmpty := (s: string) => s != "";
      places := UniqueInOrder(xs[..n]);
      if xs[n] != "" && xs[n] !in UniqueStrings(xs[..n]) {
        UniqueStringsMember(xs[..n], xs[n]);
        assert forall i :: 0 <= i < n ==> xs[i] == xs[..n][i];
        assert UniqueStrings(xs) == UniqueStrings(xs[..n]) + [xs[n]] by { UniqueStep(xs); }
        places := places + [n];
      } else {
        UniqueStep(xs);
      }
    }
  }

  lemma UniqueStep(xs: seq<string>)
    requires xs != []
    ensures var n := |xs| - 1; var before := UniqueStrings(xs[..n]);
      UniqueStrings(xs) == if xs[n] == "" || xs[n] in before then before else before + [xs[n]]
  {
    var n := |xs| - 1;
    var kept := Filter((s: string) => s != "", xs[..n]);
    if xs[n] != "" {
      assert Filter((s: string) => s != "", xs) == kept + [xs[n]];
      assert (kept + [xs[n]])[..|kept|] == kept;
    }
  }

  // ---------------------------------------------------------------- one SKC

  /** A job with a usable name whose result is stored, in which each reply keeps to its own batch. */
  ghost predicate Done(before: Record, names: seq<string>, replies: nat -> Reply) {
    DistinctRows(before.rows) && UniqueNames(names) != [] && Stores(names, replies) && OwnNames(Plan(names, replies))
  }

  /** The SKC of an answered batch has exactly one row afterwards, built from the last entries for it in
      the two answers to its own batch. */
  lemma AnsweredRow(
      before: Record, names: seq<string>, replies: nat -> Reply, replaceRows: bool, k: nat, name: string, r: Row)
    requires Done(before, names, replies) && k < |Plan(names, replies).batches| && name in Plan(names, replies).batches[k]
    requires replies(k).Complete? && r.skc == name
    ensures r in AfterJob(before, names, replies, replaceRows).rows <==>
            r == BuildRow(name, Lookup(replies(k).requirements, name), Lookup(replies(k).photos, name))
  {
    UniqueNamesNormal(names);
    FinalRowOf(names, Plan(names, replies), k, name);
    var built := BuildRow(name, Lookup(replies(k).requirements, name), Lookup(replies(k).photos, name));
    AfterJobRows(before, names, replies, replaceRows, built);
    OnlyRowOf(AfterJob(before, names, replies, replaceRows).rows, built, r);
  }

  lemma OnlyRowOf(rows: Rows, built: Row, r: Row)
    requires DistinctRows(rows) && built in rows && r.skc == built.skc
    ensures r in rows <==> r == built
  {
  }

  /** An SKC that no answered batch names keeps the row it had, or loses it if the job replaces rows. */
  lemma OtherRow(before: Record, names: seq<string>, replies: nat -> Reply, replaceRows: bool, r: Row)
    requires Done(before, names, replies)
    requires forall k: nat :: k < |Plan(names, replies).batches| && r.skc in Plan(names, replies).batches[k] ==>
      !replies(k).Complete?
    ensures r in AfterJob(before, names, replies, replaceRows).rows <==> !replaceRows && r in before.rows
  {
    var f := Plan(names, replies);
    var n := |f.batches|;
    UniqueNamesNormal(names);
    FinalRowsSkcs(UniqueNames(names), f);
    SuccessIn(f, n, r.skc);
    AfterJobRows(before, names, replies, replaceRows, r);
    hide FinalRows, Successes, AfterJob, DistinctRows;
    assert r.skc !in Names(Successes(f, n));
  }

  lemma {:induction false} SuccessIn(f: Fetch, n: nat, name: string)
    requires n <= |f.batches|
    ensures name in Successes(f, n) <==> exists k: nat :: k < n && f.replies(k).Complete? && name in f.batches[k]
  {
    if n > 0 { SuccessIn(f, n - 1, name); }
  }

  /** The rows returned at the end hold for the SKC what its own batch was answered. */
  lemma FinalRowOf(names: seq<string>, f: Fetch, k: nat, name: string)
    requires Answered(UniqueNames(names), f) && k < |f.batches| && name in f.batches[k] && f.replies(k).Complete?
    ensures BuildRow(name, Lookup(f.replies(k).requirements, name), Lookup(f.replies(k).photos, name)) in FinalRows(f)
  {
    hide BuildRow, Lookup, AllRequirements, AllPhotos;
    var n := |f.batches|;
    OutcomesNormal(UniqueNames(names), f);
    NormalNames(Successes(f, n));
    SuccessIn(f, n, name);
    LookupOwn(UniqueNames(names), f, k, n, name);
    hide Answered, Normal, UniqueNames;
    var i :| 0 <= i < |Successes(f, n)| && Successes(f, n)[i] == name;
    assert RowsFor(Successes(f, n), AllRequirements(f, n), AllPhotos(f, n))[i]
        == BuildRow(name, Lookup(AllRequirements(f, n), name), Lookup(AllPhotos(f, n), name));
  }

  /** The rows after the job are the rows returned, and in a merging job the others of before. */
  lemma AfterJobRows(before: Record, names: seq<string>, replies: nat -> Reply, replaceRows: bool, r: Row)
    requires Done(before, names, replies)
    ensures var rows, next := AfterJob(before, names, replies, replaceRows).rows, FinalRows(Plan(names, replies));
      && DistinctRows(rows) && (r in rows <==> r in next || (!replaceRows && r in before.rows && r.skc !in Skcs(next)))
  {
    var f := Plan(names, replies);
    UniqueNamesNormal(names);
    FinalRowsSkcs(UniqueNames(names), f);
    hide FinalRows, DistinctRows;
    if !replaceRows {
      IncrementalIsOneShot(before, names, replies);
      MergeOfDistinct(before.rows);
      MergeIntoConcat([], before.rows, FinalRows(f));
      MergedMember(before.rows, FinalRows(f), r);
    }
  }

  lemma {:induction false} MergedMember(rows: Rows, next: Rows, r: Row)
    requires DistinctRows(rows) && DistinctRows(next)
    ensures r in MergeInto(rows, next) <==> r in next || (r in rows && r.skc !in Skcs(next))
  {
    if next != [] {
      var n := |next| - 1;
      MergedMember(rows, next[..n], r);
      MergeIntoKeeps(rows, next[..n]);
      PutRowKeeps(MergeInto(rows, next[..n]), next[n]);
      SkcsSnoc(next);
      assert next == next[..n] + [next[n]];
      hide PutRow, Skcs, MergeInto;
      assert MergeInto(rows, next) == PutRow(MergeInto(rows, next[..n]), next[n]);
    }
  }
}
