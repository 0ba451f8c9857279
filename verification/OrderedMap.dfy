/** JavaScript's `Map`: entries with distinct keys in order of insertion. */
module OrderedMap {

  ghost predicate Distinct<K, V>(m: seq<(K, V)>) {
    forall i, j :: 0 <= i < j < |m| ==> m[i].0 != m[j].0
  }

  /** The place of a key, or the size of the map. */
  function Index<K(==), V>(m: seq<(K, V)>, k: K): (i: nat)
    ensures i <= |m| && (i < |m| ==> m[i].0 == k)
    ensures forall j :: 0 <= j < i ==> m[j].0 != k
  {
    if m == [] || m[0].0 == k then 0 else 1 + Index(m[1..], k)
  }

  predicate Has<K(==), V>(m: seq<(K, V)>, k: K) { Index(m, k) < |m| }

  function Get<K(==), V>(m: seq<(K, V)>, k: K): (v: V)
    requires Has(m, k)
    ensures (k, v) in m
  {
    assert m[Index(m, k)] == (k, m[Index(m, k)].1);
    m[Index(m, k)].1
  }

  /** `delete` */
  function Remove<K(==), V>(m: seq<(K, V)>, k: K): seq<(K, V)> {
    var i := Index(m, k);
    if i < |m| then m[..i] + m[i + 1..] else m
  }

  /** `set`: a known key keeps its place, a new one goes last. */
  function Put<K(==), V>(m: seq<(K, V)>, k: K, v: V): seq<(K, V)> {
    var i := Index(m, k);
    if i < |m| then m[i := (k, v)] else m + [(k, v)]
  }

  lemma GetAt<K, V>(m: seq<(K, V)>, i: nat)
    requires i < |m| && Distinct(m)
    ensures Index(m, m[i].0) == i && Has(m, m[i].0) && Get(m, m[i].0) == m[i].1
  {
  }

  lemma RemoveDistinct<K, V>(m: seq<(K, V)>, k: K)
    requires Distinct(m)
    ensures Distinct(Remove(m, k)) && !Has(Remove(m, k), k)
    ensures |Remove(m, k)| == if Has(m, k) then |m| - 1 else |m|
    ensures forall i :: 0 <= i < |Remove(m, k)| ==> Remove(m, k)[i].0 != k
  {
    var i := Index(m, k);
    var r := Remove(m, k);
    if i < |m| {
      assert forall j :: 0 <= j < |r| ==> r[j] == if j < i then m[j] else m[j + 1];
    }
  }

  lemma RemoveMember<K, V>(m: seq<(K, V)>, k: K, x: (K, V))
    requires Distinct(m)
    ensures x in Remove(m, k) <==> x in m && x.0 != k
  {
    RemoveDistinct(m, k);
    var i := Index(m, k);
    var r := Remove(m, k);
    if x in m && x.0 != k && i < |m| {
      var j :| 0 <= j < |m| && m[j] == x;
      assert x == if j < i then r[j] else r[j - 1];
    }
  }
}
