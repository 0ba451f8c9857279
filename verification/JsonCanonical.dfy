/** What the two key-sorting printers identify: `stableJson` and `JSON.stringify` after
    `canonicalize` print two values alike exactly when they are equal up to key order. */
module JsonCanonical {
  import opened Options
  import opened Utf16
  import opened Decimals
  import opened Json
  import opened JsonRoundTrip

  ghost predicate DistinctKeys<V>(es: seq<(Text, V)>) {
    forall i, j :: 0 <= i < j < |es| ==> es[i].0 != es[j].0
  }

  /** No object of the value has a key twice. */
  ghost predicate WellFormed(v: Json)
    decreases v
  {
    match v
    case Arr(items) => forall i :: 0 <= i < |items| ==> WellFormed(items[i])
    case Obj(fields) => DistinctKeys(fields) && forall i :: 0 <= i < |fields| ==> WellFormed(fields[i].1)
    case _ => true
  }

  /** Equality up to the order of object keys. */
  ghost predicate Same(v: Json, w: Json)
    decreases v
  {
    match (v, w)
    case (Arr(a), Arr(b)) => |a| == |b| && forall i :: 0 <= i < |a| ==> Same(a[i], b[i])
    case (Obj(a), Obj(b)) =>
      && |a| == |b|
      && forall i :: 0 <= i < |a| ==> exists j :: 0 <= j < |b| && a[i].0 == b[j].0 && Same(a[i].1, b[j].1)
    case _ => v == w
  }

  // ---------------------------------------------------------------- sorting

  ghost predicate StrictlySorted(ks: seq<Text>) {
    forall i, j :: 0 <= i < j < |ks| ==> TextLess(ks[i], ks[j])
  }

  function Keys<V>(es: seq<(Text, V)>): seq<Text> {
    seq(|es|, i requires 0 <= i < |es| => es[i].0)
  }

  lemma {:induction false} InsertByKeySorted<V>(e: (Text, V), s: seq<(Text, V)>)
    requires StrictlySorted(Keys(s))
    requires forall i :: 0 <= i < |s| ==> s[i].0 != e.0
    ensures StrictlySorted(Keys(InsertByKey(e, s)))
    ensures e in InsertByKey(e, s) && forall x :: x in s ==> x in InsertByKey(e, s)
  {
    if s == [] {
    } else if TextLess(e.0, s[0].0) {
      forall j | 0 <= j < |s| ensures TextLess(e.0, s[j].0) {
        if j > 0 {
          assert TextLess(Keys(s)[0], Keys(s)[j]);
          TextLessTransitive(e.0, s[0].0, s[j].0);
        }
      }
      PrependSorted(e, s);
    } else {
      TextLessTotal(e.0, s[0].0);
      var tail := s[1..];
      TailSorted(s);
      InsertByKeySorted(e, tail);
      var r := InsertByKey(e, tail);
      forall j | 0 <= j < |r| ensures TextLess(s[0].0, r[j].0) {
        if r[j] != e {
          var m :| 0 <= m < |tail| && tail[m] == r[j];
        }
      }
      PrependSorted(s[0], r);
      assert s == [s[0]] + tail;
    }
  }

  lemma PrependSorted<V>(e: (Text, V), s: seq<(Text, V)>)
    requires StrictlySorted(Keys(s)) && forall j :: 0 <= j < |s| ==> TextLess(e.0, s[j].0)
    ensures StrictlySorted(Keys([e] + s))
  {
    var ks := Keys([e] + s);
    forall i, j | 0 <= i < j < |ks| ensures TextLess(ks[i], ks[j]) {
      if i > 0 { assert TextLess(Keys(s)[i - 1], Keys(s)[j - 1]); }
    }
  }

  lemma TailSorted<V>(s: seq<(Text, V)>)
    requires StrictlySorted(Keys(s)) && s != []
    ensures StrictlySorted(Keys(s[1..])) && forall j :: 0 <= j < |s[1..]| ==> TextLess(s[0].0, s[1..][j].0)
  {
    var ks := Keys(s[1..]);
    forall i, j | 0 <= i < j < |ks| ensures TextLess(ks[i], ks[j]) {
      assert TextLess(Keys(s)[i + 1], Keys(s)[j + 1]);
    }
    forall j | 0 <= j < |s[1..]| ensures TextLess(s[0].0, s[1..][j].0) {
      assert TextLess(Keys(s)[0], Keys(s)[j + 1]);
    }
  }

  /** Sorting keeps the entries and orders distinct keys strictly. */
  lemma {:induction false} SortByKeySorted<V>(es: seq<(Text, V)>)
    requires DistinctKeys(es)
    ensures StrictlySorted(Keys(SortByKey(es)))
    ensures forall x :: x in es <==> x in SortByKey(es)
  {
    if es != [] {
      SortByKeySorted(es[1..]);
      InsertByKeySorted(es[0], SortByKey(es[1..]));
      assert es == [es[0]] + es[1..];
    }
  }

  /** A strictly sorted list is determined by its elements. */
  lemma {:induction false} SortedUnique(ks: seq<Text>, ls: seq<Text>)
    requires StrictlySorted(ks) && StrictlySorted(ls)
    requires forall k :: k in ks <==> k in ls
    ensures ks == ls
  {
    assert ls != [] ==> ls[0] in ls;
    if ks != [] {
      assert ks[0] in ls;
      var j :| 0 <= j < |ls| && ls[j] == ks[0];
      assert ls[0] in ks;
      var i :| 0 <= i < |ks| && ks[i] == ls[0];
      if i > 0 && j > 0 {
        TextLessTransitive(ks[0], ks[i], ls[j]);
        TextLessIrreflexive(ks[0]);
      }
      assert ks[0] == ls[0];
      forall k ensures k in ks[1..] <==> k in ls[1..] {
        TailMember(ks, k);
        TailMember(ls, k);
      }
      SortedUnique(ks[1..], ls[1..]);
      assert ks == [ks[0]] + ks[1..] && ls == [ls[0]] + ls[1..];
    }
  }

  lemma TailMember(ks: seq<Text>, k: Text)
    requires ks != [] && StrictlySorted(ks)
    ensures k in ks[1..] <==> k in ks && k != ks[0]
  {
    assert ks == [ks[0]] + ks[1..];
    if k in ks[1..] {
      var i :| 0 <= i < |ks| - 1 && ks[1..][i] == k;
      assert TextLess(ks[0], ks[i + 1]);
      TextLessIrreflexive(k);
    }
  }

  // ---------------------------------------------------------------- the sorted tree

  /** The value with the fields of every object in key order. */
  function SortKeys(v: Json): Json
    decreases v
  {
    match v
    case Arr(items) => Arr(seq(|items|, i requires 0 <= i < |items| => SortKeys(items[i])))
    case Obj(fields) =>
      var s := SortByKey(fields);
      Obj(seq(|s|, i requires 0 <= i < |s| => (s[i].0, SortKeys(s[i].1))))
    case _ => v
  }

  lemma {:induction false} StableJsonSorts(v: Json)
    ensures StableJson(v) == Stringify(SortKeys(v))
    decreases v
  {
    match v
    case Arr(items) =>
      forall i | 0 <= i < |items| ensures StableJson(items[i]) == Stringify(SortKeys(items[i])) {
        StableJsonSorts(items[i]);
      }
      assert seq(|items|, i requires 0 <= i < |items| => StableJson(items[i])) == ItemTexts(SortKeys(v).items);
    case Obj(fields) =>
      var s := SortByKey(fields);
      forall i | 0 <= i < |s| ensures StableJson(s[i].1) == Stringify(SortKeys(s[i].1)) {
        StableJsonSorts(s[i].1);
      }
      assert seq(|s|, i requires 0 <= i < |s| => Member(s[i].0, StableJson(s[i].1))) == MemberTexts(SortKeys(v).fields);
    case _ =>
  }

  lemma {:induction false} CanonicalizeSorts(v: Json)
    ensures Canonicalize(v) == Evaluate(SortKeys(v))
    decreases v
  {
    match v
    case Arr(items) =>
      forall i | 0 <= i < |items| ensures Canonicalize(items[i]) == Evaluate(SortKeys(items[i])) {
        CanonicalizeSorts(items[i]);
      }
    case Obj(fields) =>
      var s := SortByKey(fields);
      var t := SortKeys(v).fields;
      forall i | 0 <= i < |s| ensures Canonicalize(s[i].1) == Evaluate(SortKeys(s[i].1)) {
        CanonicalizeSorts(s[i].1);
      }
      assert seq(|s|, i requires 0 <= i < |s| => (s[i].0, Canonicalize(s[i].1)))
          == seq(|t|, i requires 0 <= i < |t| => (t[i].0, Evaluate(t[i].1)));
    case _ =>
  }

  /** Every entry has its place in the sorted list, and there are no others. */
  lemma SortedKeySets(a: seq<(Text, Json)>, b: seq<(Text, Json)>)
    requires DistinctKeys(a) && DistinctKeys(b) && |a| == |b|
    requires forall i :: 0 <= i < |a| ==> exists j :: 0 <= j < |b| && a[i].0 == b[j].0
    ensures Keys(SortByKey(a)) == Keys(SortByKey(b))
  {
    var (s, t) := (SortByKey(a), SortByKey(b));
    SortByKeySorted(a);
    SortByKeySorted(b);
    var (ka, kb) := (set i | 0 <= i < |a| :: a[i].0, set i | 0 <= i < |b| :: b[i].0);
    KeySetSize(a);
    KeySetSize(b);
    assert ka <= kb;
    SubsetOfSameSize(ka, kb);
    forall k ensures k in Keys(s) <==> k in Keys(t) {
      assert k in Keys(s) <==> k in ka by { KeyMembers(a, s, k); }
      assert k in Keys(t) <==> k in kb by { KeyMembers(b, t, k); }
    }
    SortedUnique(Keys(s), Keys(t));
  }

  lemma KeyMembers(a: seq<(Text, Json)>, s: seq<(Text, Json)>, k: Text)
    requires forall x :: x in a <==> x in s
    ensures k in Keys(s) <==> exists i :: 0 <= i < |a| && a[i].0 == k
  {
    if k in Keys(s) {
      var i :| 0 <= i < |s| && s[i].0 == k;
      assert s[i] in a;
    }
    if i :| 0 <= i < |a| && a[i].0 == k {
      assert a[i] in s;
      var j :| 0 <= j < |s| && s[j] == a[i];
      assert Keys(s)[j] == k;
    }
  }

  lemma {:induction false} KeySetSize<V>(a: seq<(Text, V)>)
    requires DistinctKeys(a)
    ensures |set i | 0 <= i < |a| :: a[i].0| == |a|
  {
    var ks := set i | 0 <= i < |a| :: a[i].0;
    if a != [] {
      var n := |a| - 1;
      var b := a[..n];
      KeySetSize(b);
      var ls := set i | 0 <= i < |b| :: b[i].0;
      assert ks == ls + {a[n].0} by {
        forall k | k in ks ensures k in ls + {a[n].0} {
          var i :| 0 <= i < |a| && a[i].0 == k;
          if i < n { assert b[i].0 == k; }
        }
      }
      assert a[n].0 !in ls;
    }
  }

  lemma SubsetOfSameSize<T>(a: set<T>, b: set<T>)
    requires a <= b && |a| == |b|
    ensures a == b
  {
    if x :| x in b && x !in a {
      assert a <= b - {x};
      SubsetSize(a, b - {x});
    }
  }

  lemma {:induction false} SubsetSize<T>(a: set<T>, b: set<T>)
    requires a <= b
    ensures |a| <= |b|
    decreases |a|
  {
    if x :| x in a {
      SubsetSize(a - {x}, b - {x});
    }
  }

  lemma {:induction false} SameGivesSorted(v: Json, w: Json)
    requires WellFormed(v) && WellFormed(w) && Same(v, w)
    ensures SortKeys(v) == SortKeys(w)
    decreases v, 2
  {
    if v.Arr? && w.Arr? {
      forall i | 0 <= i < |v.items| ensures SortKeys(v.items[i]) == SortKeys(w.items[i]) {
        SameGivesSorted(v.items[i], w.items[i]);
      }
      assert SortKeys(v).items == SortKeys(w).items;
    } else if v.Obj? && w.Obj? {
      SameObjectsSorted(v, w, SortByKey(v.fields), SortByKey(w.fields));
      assert SortKeys(v).fields == SortKeys(w).fields;
    }
  }

  lemma {:induction false} SameObjectsSorted(v: Json, w: Json, s: seq<(Text, Json)>, t: seq<(Text, Json)>)
    requires v.Obj? && w.Obj? && WellFormed(v) && WellFormed(w) && Same(v, w)
    requires s == SortByKey(v.fields) && t == SortByKey(w.fields)
    ensures |s| == |t|
    ensures forall i :: 0 <= i < |s| ==> s[i].0 == t[i].0 && SortKeys(s[i].1) == SortKeys(t[i].1)
    decreases v, 1
  {
    SortedKeySets(v.fields, w.fields);
    assert |Keys(s)| == |Keys(t)|;
    forall i | 0 <= i < |s| ensures s[i].0 == t[i].0 && SortKeys(s[i].1) == SortKeys(t[i].1) {
      assert Keys(s)[i] == Keys(t)[i];
      SameFieldGivesSorted(v, w, s[i], t[i]);
    }
  }

  lemma {:induction false} SameFieldGivesSorted(v: Json, w: Json, f: (Text, Json), g: (Text, Json))
    requires v.Obj? && w.Obj? && WellFormed(v) && WellFormed(w) && Same(v, w)
    requires f in v.fields && g in w.fields && f.0 == g.0
    ensures SortKeys(f.1) == SortKeys(g.1)
    decreases v, 0
  {
    var p :| 0 <= p < |v.fields| && v.fields[p] == f;
    var j :| 0 <= j < |w.fields| && f.0 == w.fields[j].0 && Same(f.1, w.fields[j].1);
    assert w.fields[j] == g;
    SameGivesSorted(f.1, g.1);
  }

  lemma {:induction false} SortedGivesSame(v: Json, w: Json)
    requires WellFormed(v) && WellFormed(w) && SortKeys(v) == SortKeys(w)
    ensures Same(v, w)
    decreases v, 1
  {
    if v.Arr? && w.Arr? {
      assert |SortKeys(v).items| == |SortKeys(w).items|;
      forall i | 0 <= i < |v.items| ensures Same(v.items[i], w.items[i]) {
        assert SortKeys(v).items[i] == SortKeys(w).items[i];
        SortedGivesSame(v.items[i], w.items[i]);
      }
    } else if v.Obj? && w.Obj? {
      var (a, b) := (v.fields, w.fields);
      forall i | 0 <= i < |a| ensures exists j :: 0 <= j < |b| && a[i].0 == b[j].0 && Same(a[i].1, b[j].1) {
        var j := SortedFieldGivesSame(v, w, i);
      }
      assert |SortKeys(v).fields| == |SortKeys(w).fields|;
    }
  }

  lemma {:induction false} SortedFieldGivesSame(v: Json, w: Json, i: nat) returns (j: nat)
    requires v.Obj? && w.Obj? && WellFormed(v) && WellFormed(w) && SortKeys(v) == SortKeys(w)
    requires i < |v.fields|
    ensures j < |w.fields| && v.fields[i].0 == w.fields[j].0 && Same(v.fields[i].1, w.fields[j].1)
    decreases v, 0
  {
    var (s, t) := (SortByKey(v.fields), SortByKey(w.fields));
    SortByKeySorted(v.fields);
    assert v.fields[i] in s;
    var p :| 0 <= p < |s| && s[p] == v.fields[i];
    assert SortKeys(v).fields[p] == SortKeys(w).fields[p];
    assert t[p] in w.fields;
    j :| 0 <= j < |w.fields| && w.fields[j] == t[p];
    SortedGivesSame(v.fields[i].1, w.fields[j].1);
  }

  /** `stableJson` is canonical and injective. */
  lemma StableJsonCanonical(v: Json, w: Json)
    requires WellFormed(v) && WellFormed(w)
    ensures StableJson(v) == StableJson(w) <==> Same(v, w)
  {
    StableJsonSorts(v);
    StableJsonSorts(w);
    if Same(v, w) { SameGivesSorted(v, w); }
    if StableJson(v) == StableJson(w) {
      StringifyInjective(SortKeys(v), SortKeys(w));
      SortedGivesSame(v, w);
    }
  }

  /** Parsing the stable text gives the canonicalized value. */
  lemma ParseStableJson(v: Json)
    ensures Parse(StableJson(v)) == Some(Canonicalize(v))
  {
    StableJsonSorts(v);
    CanonicalizeSorts(v);
    ParseStringify(SortKeys(v));
  }

  // ---------------------------------------------------------------- enumeration order

  /** No later key would be enumerated before an earlier one. */
  ghost predicate InOrder<V>(es: seq<(Text, V)>) {
    forall i, j :: 0 <= i < j < |es| ==> !MustPrecede(es[j].0, es[i].0)
  }

  /** Setting a property brings in nothing else. */
  lemma {:induction false} SetPropertyOnly<V>(es: seq<(Text, V)>, k: Text, v: V, x: (Text, V))
    requires x in SetProperty(es, k, v)
    ensures x == (k, v) || x in es
  {
    if es != [] && es[0].0 != k && !MustPrecede(k, es[0].0) && x != es[0] {
      SetPropertyOnly(es[1..], k, v, x);
    }
  }

  /** Setting a property keeps every other one. */
  lemma {:induction false} SetPropertyAll<V>(es: seq<(Text, V)>, k: Text, v: V, x: (Text, V))
    requires x in es && x.0 != k
    ensures x in SetProperty(es, k, v)
  {
    if es[0].0 != k && !MustPrecede(k, es[0].0) && x != es[0] {
      assert es == [es[0]] + es[1..];
      SetPropertyAll(es[1..], k, v, x);
    }
  }

  lemma {:induction false} SetPropertyHas<V>(es: seq<(Text, V)>, k: Text, v: V)
    ensures (k, v) in SetProperty(es, k, v)
  {
    if es != [] && es[0].0 != k && !MustPrecede(k, es[0].0) {
      SetPropertyHas(es[1..], k, v);
    }
  }

  /** Setting a property keeps keys distinct and in enumeration order. */
  lemma {:induction false} SetPropertyOrder<V>(es: seq<(Text, V)>, k: Text, v: V)
    requires DistinctKeys(es) && InOrder(es)
    ensures DistinctKeys(SetProperty(es, k, v)) && InOrder(SetProperty(es, k, v))
  {
    if es == [] {
    } else if es[0].0 == k || MustPrecede(k, es[0].0) {
      HeadPlace(es, k);
      Prepend((k, v), if es[0].0 == k then es[1..] else es);
    } else {
      SetPropertyOrder(es[1..], k, v);
      var t := SetProperty(es[1..], k, v);
      forall i | 0 <= i < |t| ensures t[i].0 != es[0].0 && !MustPrecede(t[i].0, es[0].0) {
        SetPropertyOnly(es[1..], k, v, t[i]);
        if t[i] != (k, v) { TailFields(es, t[i]); }
      }
      Prepend(es[0], t);
    }
  }

  lemma Prepend<V>(e: (Text, V), tail: seq<(Text, V)>)
    requires DistinctKeys(tail) && InOrder(tail)
    requires forall i :: 0 <= i < |tail| ==> tail[i].0 != e.0 && !MustPrecede(tail[i].0, e.0)
    ensures DistinctKeys([e] + tail) && InOrder([e] + tail)
  {
    var r := [e] + tail;
    assert forall i :: 1 <= i < |r| ==> r[i] == tail[i - 1];
  }

  lemma TailFields<V>(es: seq<(Text, V)>, x: (Text, V))
    requires DistinctKeys(es) && InOrder(es) && es != [] && x in es[1..]
    ensures x.0 != es[0].0 && !MustPrecede(x.0, es[0].0)
  {
    var m :| 0 <= m < |es[1..]| && es[1..][m] == x;
    assert es[m + 1] == x;
  }

  lemma HeadPlace<V>(es: seq<(Text, V)>, k: Text)
    requires DistinctKeys(es) && InOrder(es) && es != []
    requires es[0].0 == k || MustPrecede(k, es[0].0)
    ensures forall i :: 1 <= i < |es| ==> es[i].0 != k && !MustPrecede(es[i].0, k)
    ensures es[0].0 != k ==> !MustPrecede(es[0].0, k)
  {
  }

  lemma {:induction false} FromEntriesOrder<V>(es: seq<(Text, V)>)
    ensures DistinctKeys(FromEntries(es)) && InOrder(FromEntries(es))
  {
    if es != [] {
      var n := |es| - 1;
      FromEntriesOrder(es[..n]);
      SetPropertyOrder(FromEntries(es[..n]), es[n].0, es[n].1);
    }
  }

  /** Properties only ever get values from the entries. */
  lemma {:induction false} FromEntriesOnly<V>(es: seq<(Text, V)>, x: (Text, V))
    requires x in FromEntries(es)
    ensures x in es
  {
    if es != [] {
      var n := |es| - 1;
      SetPropertyOnly(FromEntries(es[..n]), es[n].0, es[n].1, x);
      if x != es[n] { FromEntriesOnly(es[..n], x); }
    }
  }

  lemma {:induction false} FromEntriesAll<V>(es: seq<(Text, V)>, i: nat)
    requires DistinctKeys(es) && i < |es|
    ensures es[i] in FromEntries(es)
  {
    var n := |es| - 1;
    var before := FromEntries(es[..n]);
    if i < n {
      FromEntriesAll(es[..n], i);
      assert es[..n][i] == es[i];
      SetPropertyAll(before, es[n].0, es[n].1, es[i]);
    } else {
      SetPropertyHas(before, es[n].0, es[n].1);
    }
  }

  /** Assigning entries with distinct keys keeps exactly these entries. */
  lemma FromEntriesKeeps<V>(es: seq<(Text, V)>)
    ensures DistinctKeys(FromEntries(es)) && InOrder(FromEntries(es))
    ensures DistinctKeys(es) ==> forall x :: x in FromEntries(es) <==> x in es
  {
    FromEntriesOrder(es);
    if DistinctKeys(es) {
      forall x ensures x in FromEntries(es) <==> x in es {
        if x in FromEntries(es) { FromEntriesOnly(es, x); }
        if i :| 0 <= i < |es| && es[i] == x { FromEntriesAll(es, i); }
      }
    }
  }

  lemma {:induction false} SetPropertyAppends<V>(es: seq<(Text, V)>, k: Text, v: V)
    requires forall i :: 0 <= i < |es| ==> es[i].0 != k && !MustPrecede(k, es[i].0)
    ensures SetProperty(es, k, v) == es + [(k, v)]
  {
    if es != [] {
      SetPropertyAppends(es[1..], k, v);
      assert es == [es[0]] + es[1..];
    }
  }

  /** `Object.fromEntries` keeps a list as it is exactly when its keys are distinct and in
      enumeration order. */
  lemma {:induction false} FromEntriesFixed<V>(es: seq<(Text, V)>)
    ensures FromEntries(es) == es <==> DistinctKeys(es) && InOrder(es)
  {
    FromEntriesKeeps(es);
    if DistinctKeys(es) && InOrder(es) && es != [] {
      var n := |es| - 1;
      FromEntriesFixed(es[..n]);
      SetPropertyAppends(es[..n], es[n].0, es[n].1);
      assert es == es[..n] + [es[n]];
    }
  }

  /** A value of the language: every object has distinct keys in enumeration order. */
  ghost predicate IsValue(v: Json)
    decreases v
  {
    match v
    case Arr(items) => forall i :: 0 <= i < |items| ==> IsValue(items[i])
    case Obj(fields) =>
      && DistinctKeys(fields) && InOrder(fields)
      && forall i :: 0 <= i < |fields| ==> IsValue(fields[i].1)
    case _ => true
  }

  lemma {:induction false} EvaluateFixed(v: Json)
    ensures Evaluate(v) == v <==> IsValue(v)
    decreases v
  {
    match v
    case Arr(items) =>
      forall i | 0 <= i < |items| ensures Evaluate(items[i]) == items[i] <==> IsValue(items[i]) {
        EvaluateFixed(items[i]);
      }
      if IsValue(v) {
        assert Evaluate(v).items == items;
      }
      if Evaluate(v) == v {
        forall i | 0 <= i < |items| ensures IsValue(items[i]) { assert Evaluate(v).items[i] == items[i]; }
      }
    case Obj(fields) =>
      var es := seq(|fields|, i requires 0 <= i < |fields| => (fields[i].0, Evaluate(fields[i].1)));
      assert Evaluate(v).fields == FromEntries(es);
      forall i | 0 <= i < |fields| ensures Evaluate(fields[i].1) == fields[i].1 <==> IsValue(fields[i].1) {
        EvaluateFixed(fields[i].1);
      }
      FromEntriesFixed(es);
      if IsValue(v) {
        assert es == fields;
      }
      if Evaluate(v) == v {
        FixedFields(fields, es);
      }
    case _ =>
  }

  lemma FixedFields(fields: seq<(Text, Json)>, es: seq<(Text, Json)>)
    requires |es| == |fields|
    requires forall i :: 0 <= i < |fields| ==> es[i].0 == fields[i].0
    requires FromEntries(es) == fields
    ensures DistinctKeys(fields) && InOrder(fields) && es == fields
  {
    FromEntriesKeeps(es);
    assert DistinctKeys(es) && InOrder(es);
    FromEntriesFixed(es);
  }

  /** Whatever text is parsed, the result is a value. */
  lemma {:induction false} EvaluateIsValue(v: Json)
    ensures IsValue(Evaluate(v))
    decreases v
  {
    match v
    case Arr(items) =>
      forall i | 0 <= i < |items| ensures IsValue(Evaluate(items[i])) { EvaluateIsValue(items[i]); }
    case Obj(fields) =>
      var es := seq(|fields|, i requires 0 <= i < |fields| => (fields[i].0, Evaluate(fields[i].1)));
      forall i | 0 <= i < |fields| ensures IsValue(es[i].1) { EvaluateIsValue(fields[i].1); }
      FromEntriesOrder(es);
      var r := FromEntries(es);
      forall i | 0 <= i < |r| ensures IsValue(r[i].1) { FromEntriesOnly(es, r[i]); }
    case _ =>
  }

  /** `JSON.parse` undoes `JSON.stringify` on every value. */
  lemma ParseStringifyValue(v: Json)
    requires IsValue(v)
    ensures Parse(Stringify(v)) == Some(v)
  {
    ParseStringify(v);
    EvaluateFixed(v);
  }

  // ---------------------------------------------------------------- canonicalize

  lemma {:induction false} CanonicalGivesSame(v: Json, w: Json)
    requires WellFormed(v) && WellFormed(w) && Canonicalize(v) == Canonicalize(w)
    ensures Same(v, w)
    decreases v, 2
  {
    if v.Arr? && w.Arr? {
      assert |Canonicalize(v).items| == |Canonicalize(w).items|;
      forall i | 0 <= i < |v.items| ensures Same(v.items[i], w.items[i]) {
        assert Canonicalize(v).items[i] == Canonicalize(w).items[i];
        CanonicalGivesSame(v.items[i], w.items[i]);
      }
    } else if v.Obj? && w.Obj? {
      CanonicalObjectsSame(v, w);
    }
  }

  lemma {:induction false} CanonicalObjectsSame(v: Json, w: Json)
    requires v.Obj? && w.Obj? && WellFormed(v) && WellFormed(w) && Canonicalize(v) == Canonicalize(w)
    ensures Same(v, w)
    decreases v, 1
  {
    var (a, b) := (v.fields, w.fields);
    assert |a| == |b| by {
      CanonicalSize(v);
      CanonicalSize(w);
    }
    hide Canonicalize;
    forall i | 0 <= i < |a| ensures exists j :: 0 <= j < |b| && a[i].0 == b[j].0 && Same(a[i].1, b[j].1) {
      var j := CanonicalFieldGivesSame(v, w, i);
    }
    assert v == Obj(a) && w == Obj(b);
  }

  /** The fields of a canonicalized object are the canonicalized fields. */
  lemma CanonicalField(v: Json, x: (Text, Json))
    requires v.Obj? && WellFormed(v)
    ensures Canonicalize(v).Obj? && (x in Canonicalize(v).fields <==> x in CanonicalEntries(SortByKey(v.fields)))
  {
    var s := SortByKey(v.fields);
    var es := CanonicalEntries(s);
    CanonicalObject(v);
    hide Canonicalize, CanonicalEntries, SortByKey, WellFormed, FromEntries, StrictlySorted, DistinctKeys, InOrder;
    SortedDistinct(s, es);
    FromEntriesKeeps(es);
  }

  /** Each field of an object is found, canonicalized, in the canonicalized object. */
  lemma CanonicalHas(v: Json, f: (Text, Json))
    requires v.Obj? && WellFormed(v) && f in v.fields
    ensures Canonicalize(v).Obj? && (f.0, Canonicalize(f.1)) in Canonicalize(v).fields
  {
    var s := SortByKey(v.fields);
    CanonicalObject(v);
    CanonicalField(v, (f.0, Canonicalize(f.1)));
    hide Canonicalize, CanonicalEntries, SortByKey, WellFormed, StrictlySorted, DistinctKeys;
    var p :| 0 <= p < |s| && s[p] == f;
    assert CanonicalEntries(s)[p] in CanonicalEntries(s);
  }

  /** A canonicalized object has no other fields. */
  lemma CanonicalOnly(v: Json, x: (Text, Json)) returns (f: (Text, Json))
    requires v.Obj? && WellFormed(v) && Canonicalize(v).Obj? && x in Canonicalize(v).fields
    ensures f in v.fields && x == (f.0, Canonicalize(f.1))
  {
    var s := SortByKey(v.fields);
    CanonicalObject(v);
    CanonicalField(v, x);
    hide Canonicalize, CanonicalEntries, SortByKey, WellFormed, StrictlySorted, DistinctKeys;
    var p :| 0 <= p < |CanonicalEntries(s)| && CanonicalEntries(s)[p] == x;
    f := s[p];
    assert s[p] in s;
  }

  lemma CanonicalSize(v: Json)
    requires v.Obj? && WellFormed(v)
    ensures Canonicalize(v).Obj? && |Canonicalize(v).fields| == |v.fields|
  {
    var s := SortByKey(v.fields);
    var es := CanonicalEntries(s);
    CanonicalObject(v);
    hide Canonicalize, CanonicalEntries, SortByKey, WellFormed, FromEntries, StrictlySorted, DistinctKeys, InOrder;
    SortedDistinct(s, es);
    FromEntriesKeeps(es);
    SameMembersSameSize(es, FromEntries(es));
    SortedSameSize(v.fields);
  }

  lemma CanonicalObject(v: Json)
    requires v.Obj? && WellFormed(v)
    ensures var s := SortByKey(v.fields); var es := CanonicalEntries(s);
      && Canonicalize(v) == Obj(FromEntries(es)) && StrictlySorted(Keys(s)) && DistinctKeys(v.fields)
      && |es| == |s| && (forall i :: 0 <= i < |s| ==> es[i] == (s[i].0, Canonicalize(s[i].1)))
    ensures forall x :: x in v.fields <==> x in SortByKey(v.fields)
  {
    SortByKeySorted(v.fields);
  }

  function CanonicalEntries(s: seq<(Text, Json)>): seq<(Text, Json)> {
    seq(|s|, i requires 0 <= i < |s| => (s[i].0, Canonicalize(s[i].1)))
  }

  lemma {:induction false} SortedSameSize(es: seq<(Text, Json)>)
    ensures |SortByKey(es)| == |es|
  {
    if es != [] { SortedSameSize(es[1..]); }
  }

  lemma SortedDistinct<V, W>(s: seq<(Text, V)>, es: seq<(Text, W)>)
    requires StrictlySorted(Keys(s)) && |es| == |s|
    requires forall i :: 0 <= i < |s| ==> es[i].0 == s[i].0
    ensures DistinctKeys(es)
  {
    forall i, j | 0 <= i < j < |es| ensures es[i].0 != es[j].0 {
      assert TextLess(Keys(s)[i], Keys(s)[j]);
      TextLessIrreflexive(es[i].0);
    }
  }

  lemma SameMembersSameSize<V>(a: seq<(Text, V)>, b: seq<(Text, V)>)
    requires DistinctKeys(a) && DistinctKeys(b) && forall x :: x in a <==> x in b
    ensures |a| == |b|
  {
    KeySetSize(a);
    KeySetSize(b);
    var (ka, kb) := (set i | 0 <= i < |a| :: a[i].0, set i | 0 <= i < |b| :: b[i].0);
    assert ka == kb by {
      forall k | k in ka ensures k in kb {
        var i :| 0 <= i < |a| && a[i].0 == k;
        assert a[i] in b;
      }
      forall k | k in kb ensures k in ka {
        var i :| 0 <= i < |b| && b[i].0 == k;
        assert b[i] in a;
      }
    }
  }

  lemma {:induction false} CanonicalFieldGivesSame(v: Json, w: Json, i: nat) returns (j: nat)
    requires v.Obj? && w.Obj? && WellFormed(v) && WellFormed(w) && Canonicalize(v) == Canonicalize(w)
    requires i < |v.fields|
    ensures j < |w.fields| && v.fields[i].0 == w.fields[j].0 && Same(v.fields[i].1, w.fields[j].1)
    decreases v, 0
  {
    var f := v.fields[i];
    CanonicalHas(v, f);
    var g := CanonicalOnly(w, (f.0, Canonicalize(f.1)));
    j :| 0 <= j < |w.fields| && w.fields[j] == g;
    CanonicalGivesSame(f.1, g.1);
  }

  /** Printing a canonicalized value is canonical and injective too, with any keys. */
  lemma CanonicalTextCanonical(v: Json, w: Json)
    requires WellFormed(v) && WellFormed(w)
    ensures Stringify(Canonicalize(v)) == Stringify(Canonicalize(w)) <==> Same(v, w)
  {
    if Same(v, w) {
      SameGivesSorted(v, w);
      CanonicalizeSorts(v);
      CanonicalizeSorts(w);
    }
    if Stringify(Canonicalize(v)) == Stringify(Canonicalize(w)) {
      StringifyInjective(Canonicalize(v), Canonicalize(w));
      CanonicalGivesSame(v, w);
    }
  }

  // ---------------------------------------------------------------- where the two printers agree

  /** Keys of one object that are enumerated in numeric order are in that order as texts too. */
  ghost predicate OrdersAgree<V>(fields: seq<(Text, V)>) {
    forall f, g :: f in fields && g in fields && MustPrecede(f.0, g.0) ==> TextLess(f.0, g.0)
  }

  ghost predicate IndexKeysSorted(v: Json)
    decreases v
  {
    match v
    case Arr(items) => forall i :: 0 <= i < |items| ==> IndexKeysSorted(items[i])
    case Obj(fields) => OrdersAgree(fields) && forall i :: 0 <= i < |fields| ==> IndexKeysSorted(fields[i].1)
    case _ => true
  }

  lemma SortedOrder<V>(fields: seq<(Text, V)>)
    requires DistinctKeys(fields)
    ensures InOrder(SortByKey(fields)) <==> OrdersAgree(fields)
  {
    hide SortByKey, TextLess;
    var s := SortByKey(fields);
    SortByKeySorted(fields);
    if InOrder(s) {
      forall f, g | f in fields && g in fields && MustPrecede(f.0, g.0) ensures TextLess(f.0, g.0) {
        var p :| 0 <= p < |s| && s[p] == f;
        var q :| 0 <= q < |s| && s[q] == g;
        if p < q { assert TextLess(Keys(s)[p], Keys(s)[q]); }
      }
    } else {
      var p, q :| 0 <= p < q < |s| && MustPrecede(s[q].0, s[p].0);
      assert s[p] in fields && s[q] in fields;
      assert TextLess(Keys(s)[p], Keys(s)[q]);
      if TextLess(s[q].0, s[p].0) {
        TextLessTransitive(s[p].0, s[q].0, s[p].0);
        TextLessIrreflexive(s[p].0);
      }
    }
  }

  lemma {:induction false} SortedIsValue(v: Json)
    requires WellFormed(v)
    ensures IsValue(SortKeys(v)) <==> IndexKeysSorted(v)
    decreases v, 2
  {
    match v
    case Arr(items) => SortedItemsAreValues(v, SortKeys(v).items);
    case Obj(fields) => SortedObjectIsValue(v, SortByKey(fields), SortKeys(v).fields);
    case _ =>
  }

  lemma {:induction false} SortedObjectIsValue(v: Json, s: seq<(Text, Json)>, t: seq<(Text, Json)>)
    requires v.Obj? && WellFormed(v) && s == SortByKey(v.fields) && |t| == |s|
    requires forall i :: 0 <= i < |s| ==> t[i] == (s[i].0, SortKeys(s[i].1))
    ensures IsValue(Obj(t)) <==> IndexKeysSorted(v)
    decreases v, 1
  {
    assert Keys(t) == Keys(s) && DistinctKeys(v.fields);
    hide SortByKey, SortKeys, InOrder, OrdersAgree, DistinctKeys, Keys, StrictlySorted;
    SortedKeyOrder(v.fields, t);
    SortByKeySorted(v.fields);
    SortedFieldsAreValues(v, s, t);
  }

  lemma SortedKeyOrder<V, W>(fields: seq<(Text, V)>, t: seq<(Text, W)>)
    requires DistinctKeys(fields) && Keys(t) == Keys(SortByKey(fields))
    ensures DistinctKeys(t) && (InOrder(t) <==> OrdersAgree(fields))
  {
    var s := SortByKey(fields);
    SortByKeySorted(fields);
    SortedOrder(fields);
    assert |Keys(t)| == |Keys(s)|;
    assert forall i :: 0 <= i < |s| ==> t[i].0 == Keys(t)[i] == Keys(s)[i] == s[i].0;
    SortedDistinct(s, t);
  }

  lemma {:induction false} SortedItemsAreValues(v: Json, t: seq<Json>)
    requires v.Arr? && WellFormed(v) && |t| == |v.items|
    requires forall i :: 0 <= i < |t| ==> t[i] == SortKeys(v.items[i])
    ensures IsValue(Arr(t)) <==> IndexKeysSorted(v)
    decreases v, 1
  {
    forall i | 0 <= i < |t| ensures IsValue(t[i]) <==> IndexKeysSorted(v.items[i]) {
      SortedIsValue(v.items[i]);
    }
  }

  lemma {:induction false} SortedFieldsAreValues(v: Json, s: seq<(Text, Json)>, t: seq<(Text, Json)>)
    requires v.Obj? && WellFormed(v) && |s| == |t|
    requires forall f :: f in v.fields <==> f in s
    requires forall i :: 0 <= i < |s| ==> t[i].1 == SortKeys(s[i].1)
    ensures (forall i :: 0 <= i < |t| ==> IsValue(t[i].1))
       <==> (forall i :: 0 <= i < |v.fields| ==> IndexKeysSorted(v.fields[i].1))
    decreases v, 0
  {
    forall i | 0 <= i < |t| ensures s[i] in v.fields && (IsValue(t[i].1) <==> IndexKeysSorted(s[i].1)) {
      assert s[i] in s;
      SortedIsValue(s[i].1);
    }
    if forall i :: 0 <= i < |t| ==> IsValue(t[i].1) {
      forall i | 0 <= i < |v.fields| ensures IndexKeysSorted(v.fields[i].1) {
        assert v.fields[i] in s;
        var p :| 0 <= p < |s| && s[p] == v.fields[i];
      }
    }
  }

  /** The two printers agree exactly on the values whose numeric key order is also their
      text order; then the canonicalized value enumerates its keys as printed. */
  lemma PrintersAgree(v: Json)
    requires WellFormed(v)
    ensures Stringify(Canonicalize(v)) == StableJson(v) <==> IndexKeysSorted(v)
  {
    StableJsonSorts(v);
    CanonicalizeSorts(v);
    SortedIsValue(v);
    EvaluateFixed(SortKeys(v));
    if Stringify(Canonicalize(v)) == StableJson(v) {
      StringifyInjective(Canonicalize(v), SortKeys(v));
    }
  }

  ghost predicate NoIndexKeys(v: Json)
    decreases v
  {
    match v
    case Arr(items) => forall i :: 0 <= i < |items| ==> NoIndexKeys(items[i])
    case Obj(fields) => forall i :: 0 <= i < |fields| ==> !IsIndex(fields[i].0) && NoIndexKeys(fields[i].1)
    case _ => true
  }

  lemma {:induction false} NoIndexKeysSorted(v: Json)
    requires NoIndexKeys(v)
    ensures IndexKeysSorted(v)
    decreases v
  {
    match v
    case Arr(items) =>
      forall i | 0 <= i < |items| ensures IndexKeysSorted(items[i]) { NoIndexKeysSorted(items[i]); }
    case Obj(fields) =>
      forall i | 0 <= i < |fields| ensures IndexKeysSorted(fields[i].1) { NoIndexKeysSorted(fields[i].1); }
    case _ =>
  }

  /** A plan or payload without array-index keys is printed alike by both. */
  lemma PrintersAgreeWithoutIndexKeys(v: Json)
    requires WellFormed(v) && NoIndexKeys(v)
    ensures Stringify(Canonicalize(v)) == StableJson(v)
  {
    NoIndexKeysSorted(v);
    PrintersAgree(v);
  }

  /** With the keys "2" and "10" they differ: sorted as text, enumerated as numbers. */
  lemma PrintersDiffer()
    ensures var v := Obj([([50], Null), ([49, 48], Null)]);
            WellFormed(v) && Stringify(Canonicalize(v)) != StableJson(v)
  {
    var two: Text := [50];
    var ten: Text := [49, 48];
    var v := Obj([(two, Null), (ten, Null)]);
    assert ten[..1] == [49];
    assert DigitsValue([49]) == DigitsValue([]) * 10 + 1;
    assert DigitsValue(ten) == 10;
    assert DigitsValue(two) == DigitsValue([]) * 10 + 2;
    assert MustPrecede(two, ten) && !TextLess(two, ten);
    assert v.fields[0] == (two, Null) && v.fields[1] == (ten, Null);
    assert !OrdersAgree(v.fields);
    PrintersAgree(v);
  }
}
