/** Blank texts, and arrays used as sets: what `trim`, `filter` and `Array.from(new Set(...))` do. */
module JsStrings {
  import opened Trimming

  predicate IsSpace(c: char) { IsSpaceCode(c as int) }

  function Trim(s: string): (r: string)
    ensures |r| <= |s|
    ensures r != [] ==> !IsSpace(r[0]) && !IsSpace(r[|r| - 1])
  {
    TrimWhere(IsSpace, s)
  }

  predicate HasText(s: string) { Trim(s) != [] }

  /** Lower case of the letters A to Z. */
  function Lower(s: string): string {
    seq(|s|, i requires 0 <= i < |s| => if 'A' <= s[i] <= 'Z' then (s[i] as int + 32) as char else s[i])
  }

  /** `String.prototype.includes` */
  predicate Contains(s: string, part: string) {
    part <= s || (s != [] && Contains(s[1..], part))
  }

  function Filter<T>(p: T -> bool, xs: seq<T>): seq<T> {
    if xs == [] then []
    else if p(xs[|xs| - 1]) then Filter(p, xs[..|xs| - 1]) + [xs[|xs| - 1]]
    else Filter(p, xs[..|xs| - 1])
  }

  /** Adds to a list without repetitions whatever is new, in order. */
  function AddAll<T(==)>(have: seq<T>, xs: seq<T>): seq<T> {
    if xs == [] then have
    else
      var r := AddAll(have, xs[..|xs| - 1]);
      if xs[|xs| - 1] in r then r else r + [xs[|xs| - 1]]
  }

  lemma {:induction false} FilterMember<T>(p: T -> bool, xs: seq<T>, x: T)
    ensures x in Filter(p, xs) <==> x in xs && p(x)
  {
    if xs != [] {
      var n := |xs| - 1;
      FilterMember(p, xs[..n], x);
      assert xs == xs[..n] + [xs[n]];
    }
  }

  /** Filtering keeps every copy of what passes. */
  lemma {:induction false} FilterCount<T>(p: T -> bool, xs: seq<T>, x: T)
    ensures multiset(Filter(p, xs))[x] == if p(x) then multiset(xs)[x] else 0
  {
    if xs != [] {
      var n := |xs| - 1;
      FilterCount(p, xs[..n], x);
      assert xs == xs[..n] + [xs[n]];
    }
  }

  lemma {:induction false} AddAllMember<T>(have: seq<T>, xs: seq<T>, x: T)
    ensures x in AddAll(have, xs) <==> x in have || x in xs
  {
    if xs != [] {
      var n := |xs| - 1;
      AddAllMember(have, xs[..n], x);
      assert xs == xs[..n] + [xs[n]];
    }
  }

  lemma UniqueStringsMember(xs: seq<string>, x: string)
    ensures x in UniqueStrings(xs) <==> x in xs && x != ""
  {
    var kept := Filter((s: string) => s != "", xs);
    AddAllMember([], kept, x);
    FilterMember((s: string) => s != "", xs, x);
  }

  ghost predicate NoDuplicates<T>(xs: seq<T>) {
    forall i, j :: 0 <= i < j < |xs| ==> xs[i] != xs[j]
  }

  lemma {:induction false} AddAllNoDuplicates<T>(have: seq<T>, xs: seq<T>)
    requires NoDuplicates(have)
    ensures NoDuplicates(AddAll(have, xs))
  {
    if xs != [] { AddAllNoDuplicates(have, xs[..|xs| - 1]); }
  }

  lemma LastIsNew<T>(xs: seq<T>)
    requires xs != [] && NoDuplicates(xs)
    ensures NoDuplicates(xs[..|xs| - 1]) && xs[|xs| - 1] !in xs[..|xs| - 1]
  {
  }

  lemma Snoc<T>(have: seq<T>, xs: seq<T>)
    requires xs != []
    ensures have + xs[..|xs| - 1] + [xs[|xs| - 1]] == have + xs
  {
    assert xs == xs[..|xs| - 1] + [xs[|xs| - 1]];
  }

  /** Adding distinct elements that are all new appends them. */
  lemma {:induction false} AddAllAppends<T>(have: seq<T>, xs: seq<T>)
    requires NoDuplicates(xs) && forall x :: x in xs ==> x !in have
    ensures AddAll(have, xs) == have + xs
  {
    if xs == [] {
      assert have + xs == have;
    } else {
      var n := |xs| - 1;
      LastIsNew(xs);
      Snoc(have, xs);
      assert xs[n] in xs && forall x :: x in xs[..n] ==> x in xs;
      hide NoDuplicates;
      AddAllAppends(have, xs[..n]);
    }
  }

  /** Adding what is there already changes nothing. */
  lemma {:induction false} AddAllKnown<T>(have: seq<T>, xs: seq<T>)
    requires forall x :: x in xs ==> x in have
    ensures AddAll(have, xs) == have
  {
    if xs != [] {
      var n := |xs| - 1;
      assert forall x :: x in xs[..n] ==> x in xs;
      AddAllKnown(have, xs[..n]);
      assert xs[n] in xs;
    }
  }

  /** `Array.from(new Set(xs))` */
  function Unique<T(==)>(xs: seq<T>): seq<T> { AddAll([], xs) }

  lemma UniqueIsIdentity<T>(xs: seq<T>)
    requires NoDuplicates(xs)
    ensures Unique(xs) == xs
  {
    AddAllAppends([], xs);
  }

  /** The workflow's `uniqueStrings`: distinct non-empty strings. */
  function UniqueStrings(xs: seq<string>): seq<string> {
    Unique(Filter((s: string) => s != "", xs))
  }

  lemma {:induction false} FilterAll<T>(p: T -> bool, xs: seq<T>)
    requires forall x :: x in xs ==> p(x)
    ensures Filter(p, xs) == xs
  {
    if xs != [] {
      var n := |xs| - 1;
      assert forall x :: x in xs[..n] ==> x in xs;
      FilterAll(p, xs[..n]);
      assert xs[n] in xs && xs == xs[..n] + [xs[n]];
    }
  }

  // ---------------------------------------------------------------- what these mean

  lemma TrimExact(s: string) returns (before: string, after: string)
    ensures s == before + Trim(s) + after
    ensures forall c :: c in before + after ==> IsSpace(c)
  {
    before, after := TrimParts(IsSpace, s);
  }

  /** A text counts exactly when it has a character that is no white space. */
  lemma HasTextIff(s: string)
    ensures HasText(s) <==> exists c :: c in s && !IsSpace(c)
  {
    var before, after := TrimExact(s);
    if HasText(s) { assert Trim(s)[0] in s; }
  }

  const CAPITALS := "ABCDEFGHIJKLMNOPQRSTUVWXYZ"

  const SMALL_LETTERS := "abcdefghijklmnopqrstuvwxyz"

  /** Capitals become the small letters at their place in the alphabet; nothing else changes. */
  lemma LowerExact(s: string, i: nat)
    requires i < |s|
    ensures |Lower(s)| == |s|
    ensures forall k :: 0 <= k < 26 && s[i] == CAPITALS[k] ==> Lower(s)[i] == SMALL_LETTERS[k]
    ensures s[i] !in CAPITALS ==> Lower(s)[i] == s[i]
  {
    assert forall k :: 0 <= k < 26 ==> CAPITALS[k] as int == 'A' as int + k && SMALL_LETTERS[k] as int == 'a' as int + k;
    if 'A' <= s[i] <= 'Z' {
      var k := s[i] as int - 'A' as int;
      assert CAPITALS[k] == s[i];
    }
  }

  /** The part stands somewhere in the text. */
  ghost predicate Occurs(part: string, s: string) {
    exists i :: OccursAt(part, s, i)
  }

  ghost predicate OccursAt(part: string, s: string, i: int) { 0 <= i <= |s| - |part| && s[i..i + |part|] == part }

  lemma AtStart(s: string, part: string)
    ensures OccursAt(part, s, 0) <==> part <= s
  {
    if |part| <= |s| { assert s[0..0 + |part|] == s[..|part|]; }
  }

  lemma OneLater(s: string, part: string, i: int)
    requires s != [] && i > 0
    ensures OccursAt(part, s, i) <==> OccursAt(part, s[1..], i - 1)
  {
    if i <= |s| - |part| { assert s[1..][i - 1..i - 1 + |part|] == s[i..i + |part|]; }
  }

  lemma {:induction false} ContainsIff(s: string, part: string)
    ensures Contains(s, part) <==> Occurs(part, s)
  {
    AtStart(s, part);
    if !(part <= s) && s != [] {
      ContainsIff(s[1..], part);
      forall i | i > 0 ensures OccursAt(part, s, i) <==> OccursAt(part, s[1..], i - 1) { OneLater(s, part, i); }
      if i :| OccursAt(part, s[1..], i) {
        assert i + 1 > 0 && OccursAt(part, s, i + 1);
      }
      if i :| OccursAt(part, s, i) {
        assert i > 0 && OccursAt(part, s[1..], i - 1);
      }
    }
  }

  lemma BlankBetween(x: string, y: string, t: string, i: nat)
    requires OccursAt(t, x + " " + y, i) && i <= |x| < i + |t|
    ensures ' ' in t
  {
    assert t[|x| - i] == (x + " " + y)[|x|];
  }

  /** A word without blanks stands in one of two texts if it stands in both with a blank between. */
  lemma OccursConcat(x: string, y: string, t: string)
    requires t != "" && ' ' !in t
    ensures Occurs(t, x + " " + y) <==> Occurs(t, x) || Occurs(t, y)
  {
    var s := x + " " + y;
    if i :| OccursAt(t, x, i) {
      assert s[i..i + |t|] == x[i..i + |t|];
      assert OccursAt(t, s, i);
    }
    if i :| OccursAt(t, y, i) {
      assert s[|x| + 1..] == y;
      assert s[i + |x| + 1..i + |x| + 1 + |t|] == s[|x| + 1..][i..i + |t|];
      assert OccursAt(t, s, i + |x| + 1);
    }
    if i :| OccursAt(t, s, i) {
      if i <= |x| < i + |t| {
        BlankBetween(x, y, t, i);
      } else if i + |t| <= |x| {
        assert s[i..i + |t|] == x[i..i + |t|];
        assert OccursAt(t, x, i);
      } else {
        var j := i - |x| - 1;
        assert s[|x| + 1..] == y;
        assert s[i..i + |t|] == s[|x| + 1..][j..j + |t|];
        assert OccursAt(t, y, j);
      }
    }
  }

  /** Filtering keeps the order: what is kept stands at rising places. */
  lemma {:induction false} FilterInOrder<T>(p: T -> bool, xs: seq<T>) returns (places: seq<nat>)
    ensures |places| == |Filter(p, xs)|
    ensures forall k :: 0 <= k < |places| ==> places[k] < |xs| && Filter(p, xs)[k] == xs[places[k]]
    ensures forall j, k :: 0 <= j < k < |places| ==> places[j] < places[k]
  {
    if xs == [] {
      places := [];
    } else {
      var n := |xs| - 1;
      places := FilterInOrder(p, xs[..n]);
      if p(xs[n]) { places := places + [n]; }
    }
  }
}
