/** The image cache of the AI title service: least recently used first, bounded by entries and
    by bytes, with its byte count kept on the side. */
module AiImageCache {
  import opened Options
  import opened OrderedMap

  datatype Image = Image(id: nat, byteLength: nat)

  datatype Entry = Entry(value: Image, sizeBytes: nat, expiresAt: int)

  type Key = string

  type Entries = seq<(Key, Entry)>

  datatype Settings = Settings(ttlMs: int, maxEntries: nat, maxBytes: nat)

  function TotalBytes(es: Entries): nat {
    if es == [] then 0 else es[0].1.sizeBytes + TotalBytes(es[1..])
  }

  lemma {:induction false} TotalBytesConcat(a: Entries, b: Entries)
    ensures TotalBytes(a + b) == TotalBytes(a) + TotalBytes(b)
  {
    if a == [] {
      assert a + b == b;
    } else {
      assert (a + b)[1..] == a[1..] + b;
      TotalBytesConcat(a[1..], b);
    }
  }

  lemma TotalBytesRemove(es: Entries, k: Key)
    requires Has(es, k)
    ensures TotalBytes(Remove(es, k)) == TotalBytes(es) - Get(es, k).sizeBytes
  {
    var i := Index(es, k);
    assert es == es[..i] + ([es[i]] + es[i + 1..]);
    TotalBytesConcat(es[..i], [es[i]] + es[i + 1..]);
    TotalBytesConcat(es[..i], es[i + 1..]);
    assert ([es[i]] + es[i + 1..])[1..] == es[i + 1..];
  }

  /** There is room for one more entry of this size. */
  predicate Fits(es: Entries, sizeBytes: nat, s: Settings) {
    |es| < s.maxEntries && TotalBytes(es) + sizeBytes <= s.maxBytes
  }

  predicate Cacheable(image: Image, s: Settings) {
    s.ttlMs > 0 && 0 < image.byteLength <= s.maxBytes
  }

  /** What always holds of the entries: distinct keys, both limits. */
  ghost predicate Within(es: Entries, s: Settings) {
    Distinct(es) && |es| <= s.maxEntries && TotalBytes(es) <= s.maxBytes
  }

  class ImageCache {
    var imageCache: Entries
    var imageCacheBytes: int
    const settings: Settings

    ghost predicate Valid()
      reads this
    {
      && settings.maxEntries > 0 && settings.maxBytes > 0
      && imageCacheBytes == TotalBytes(imageCache)
      && Within(imageCache, settings)
    }

    constructor (ttlMs: int, maxEntries: int, maxBytes: int)
      ensures Valid() && imageCache == []
      ensures if ttlMs >= 0 then settings.ttlMs == ttlMs else settings.ttlMs == 0
      ensures maxEntries > 0 ==> settings.maxEntries == maxEntries
      ensures maxEntries <= 0 ==> settings.maxEntries == if maxEntries == 0 then 64 else 1
      ensures maxBytes > 0 ==> settings.maxBytes == maxBytes
      ensures maxBytes <= 0 ==> settings.maxBytes == if maxBytes == 0 then 16_777_216 else 1
    {
      imageCache, imageCacheBytes := [], 0;
      settings := Settings(
        if ttlMs < 0 then 0 else ttlMs,
        if maxEntries == 0 then 64 else if maxEntries < 1 then 1 else maxEntries,
        if maxBytes == 0 then 16 * 1024 * 1024 else if maxBytes < 1 then 1 else maxBytes);
    }

    /** The clamp at zero leaves the exact count. */
    method RemoveImageCacheEntry(key: Key)
      requires Distinct(imageCache) && imageCacheBytes == TotalBytes(imageCache)
      modifies this
      ensures imageCache == Remove(old(imageCache), key)
      ensures Distinct(imageCache) && imageCacheBytes == TotalBytes(imageCache)
      ensures old(Valid()) ==> Valid()
    {
      if !Has(imageCache, key) {
        return;
      }
      TotalBytesRemove(imageCache, key);
      RemoveDistinct(imageCache, key);
      var entry := Get(imageCache, key);
      imageCache := Remove(imageCache, key);
      imageCacheBytes := if imageCacheBytes - entry.sizeBytes < 0 then 0 else imageCacheBytes - entry.sizeBytes;
    }

    method ReadImageCache(key: Key, now: int) returns (image: Option<Image>)
      requires Valid()
      modifies this
      ensures Valid()
      ensures (imageCache, image) == Read(old(imageCache), key, now)
    {
      if !Has(imageCache, key) {
        return None;
      }
      var entry := Get(imageCache, key);
      ReadWithin(imageCache, key, now, settings);
      RemoveImageCacheEntry(key);
      if entry.expiresAt <= now {
        return None;
      }
      TotalBytesConcat(imageCache, [(key, entry)]);
      imageCache := imageCache + [(key, entry)];
      imageCacheBytes := imageCacheBytes + entry.sizeBytes;
      return Some(entry.value);
    }

    /** The eviction loop of `storeImageCache`: it drops the shortest least recent prefix that
        makes room and never runs out of entries. */
    method MakeRoom(sizeBytes: nat)
      requires Valid() && sizeBytes <= settings.maxBytes
      modifies this
      ensures Valid()
      ensures Fits(imageCache, sizeBytes, settings)
      ensures imageCache == old(imageCache)[EvictCount(old(imageCache), sizeBytes, settings)..]
    {
      hide EvictCount, Remove, TotalBytes, Distinct;
      ghost var before := imageCache;
      ghost var n := 0;
      while |imageCache| >= settings.maxEntries || imageCacheBytes + sizeBytes > settings.maxBytes
        invariant n <= |before| && imageCache == before[n..]
        invariant Valid()
        invariant EvictCount(before, sizeBytes, settings) == n + EvictCount(imageCache, sizeBytes, settings)
        decreases |imageCache|
      {
        if |imageCache| == 0 {
          NoBytes();
          assert false;
          break;
        }
        EvictFirst(imageCache, sizeBytes, settings);
        assert imageCache[1..] == before[n + 1..];
        RemoveImageCacheEntry(imageCache[0].0);
        n := n + 1;
      }
      NothingToEvict(imageCache, sizeBytes, settings);
    }

    /** Evicts just enough of the least recent images, then adds this one as the most recent. */
    method StoreImageCache(key: Key, image: Image, now: int)
      requires Valid()
      modifies this
      ensures Valid()
      ensures imageCache == Stored(old(imageCache), key, image, now, settings)
    {
      hide EvictCount, Remove;
      if settings.ttlMs <= 0 {
        return;
      }
      var sizeBytes := image.byteLength;
      if sizeBytes == 0 || sizeBytes > settings.maxBytes {
        return;
      }
      StoredWithin(imageCache, key, image, now, settings);
      RemoveImageCacheEntry(key);
      MakeRoom(sizeBytes);
      var entry := Entry(image, sizeBytes, now + settings.ttlMs);
      TotalBytesConcat(imageCache, [(key, entry)]);
      imageCache := imageCache + [(key, entry)];
      imageCacheBytes := imageCacheBytes + sizeBytes;
    }
  }

  // ---------------------------------------------------------------- a list of recent images

  /** Reading: an expired entry is dropped, a live one becomes the most recent. */
  function Read(es: Entries, key: Key, now: int): (Entries, Option<Image>) {
    if !Has(es, key) then (es, None)
    else
      var e := Get(es, key);
      if e.expiresAt <= now then (Remove(es, key), None) else (Remove(es, key) + [(key, e)], Some(e.value))
  }

  /** The length of the shortest prefix whose removal makes room. */
  function EvictCount(es: Entries, sizeBytes: nat, s: Settings): (n: nat)
    ensures n <= |es|
    ensures forall m :: 0 <= m < n ==> !Fits(es[m..], sizeBytes, s)
    ensures 0 < s.maxEntries && sizeBytes <= s.maxBytes ==> Fits(es[n..], sizeBytes, s)
  {
    if Fits(es, sizeBytes, s) || es == [] then 0
    else
      var n := EvictCount(es[1..], sizeBytes, s);
      assert forall m :: 0 < m <= |es| ==> es[m..] == es[1..][m - 1..];
      n + 1
  }

  lemma NoBytes()
    ensures TotalBytes([]) == 0
  {
  }

  /** Without room the oldest entry goes. */
  lemma EvictFirst(es: Entries, sizeBytes: nat, s: Settings)
    requires es != [] && !Fits(es, sizeBytes, s)
    ensures EvictCount(es, sizeBytes, s) == 1 + EvictCount(es[1..], sizeBytes, s)
    ensures Remove(es, es[0].0) == es[1..]
  {
  }

  lemma NothingToEvict(es: Entries, sizeBytes: nat, s: Settings)
    requires Fits(es, sizeBytes, s)
    ensures EvictCount(es, sizeBytes, s) == 0
  {
  }

  function Stored(es: Entries, key: Key, image: Image, now: int, s: Settings): Entries {
    if !Cacheable(image, s) then es
    else
      var rest := Remove(es, key);
      rest[EvictCount(rest, image.byteLength, s)..] + [(key, Entry(image, image.byteLength, now + s.ttlMs))]
  }

  lemma ReadWithin(es: Entries, key: Key, now: int, s: Settings)
    requires Within(es, s)
    ensures Within(Read(es, key, now).0, s)
  {
    if Has(es, key) {
      TotalBytesRemove(es, key);
      RemoveDistinct(es, key);
      TotalBytesConcat(Remove(es, key), [(key, Get(es, key))]);
    }
  }

  lemma StoredWithin(es: Entries, key: Key, image: Image, now: int, s: Settings)
    requires Within(es, s) && s.maxEntries > 0
    ensures Within(Stored(es, key, image, now, s), s)
  {
    if Cacheable(image, s) {
      var rest := Remove(es, key);
      RemoveDistinct(es, key);
      var n := EvictCount(rest, image.byteLength, s);
      var kept := rest[n..];
      TotalBytesConcat(kept, [(key, Entry(image, image.byteLength, now + s.ttlMs))]);
      forall i | 0 <= i < |kept| ensures kept[i].0 != key { assert kept[i] in rest; }
    }
  }

  /** What was stored is read back unchanged until it expires, and is then dropped. */
  lemma StoredIsRead(es: Entries, key: Key, image: Image, now: int, later: int, s: Settings)
    requires Within(es, s) && s.maxEntries > 0 && Cacheable(image, s)
    ensures var stored := Stored(es, key, image, now, s);
            Read(stored, key, later) ==
              if now + s.ttlMs <= later then (stored[..|stored| - 1], None) else (stored, Some(image))
  {
    hide EvictCount, TotalBytes, Remove, Read, Distinct;
    StoredWithin(es, key, image, now, s);
    var rest := Remove(es, key);
    ReadLast(rest[EvictCount(rest, image.byteLength, s)..], (key, Entry(image, image.byteLength, now + s.ttlMs)), later);
  }

  /** A store of an image that may be cached keeps the others in their order but for the oldest, of which it
      drops as few as it must; any other store changes nothing. */
  lemma StoredExact(es: Entries, key: Key, image: Image, now: int, s: Settings) returns (kept: Entries)
    requires Within(es, s) && s.maxEntries > 0
    ensures !(s.ttlMs > 0 && 0 < image.byteLength <= s.maxBytes) ==> Stored(es, key, image, now, s) == es
    ensures s.ttlMs > 0 && 0 < image.byteLength <= s.maxBytes ==>
      var others := Remove(es, key); var dropped := |others| - |kept|;
      && Stored(es, key, image, now, s) == kept + [(key, Entry(image, image.byteLength, now + s.ttlMs))]
      && 0 <= dropped && kept == others[dropped..]
      && (dropped > 0 ==>
            |others| - (dropped - 1) >= s.maxEntries
            || TotalBytes(others[dropped - 1..]) + image.byteLength > s.maxBytes)
  {
    var others := Remove(es, key);
    var n := EvictCount(others, image.byteLength, s);
    kept := others[n..];
    if n > 0 { assert !Fits(others[n - 1..], image.byteLength, s); }
  }

  lemma ReadLast(es: Entries, x: (Key, Entry), now: int)
    requires Distinct(es + [x])
    ensures Read(es + [x], x.0, now) == if x.1.expiresAt <= now then (es, None) else (es + [x], Some(x.1.value))
  {
    var all, n := es + [x], |es|;
    GetAt(all, n);
    assert Remove(all, x.0) == es;
  }

  // ---------------------------------------------------------------- runs

  datatype Use = ReadOf(key: Key, now: int) | StoreOf(key: Key, image: Image, now: int)

  function Apply(es: Entries, u: Use, s: Settings): Entries {
    match u
    case ReadOf(key, now) => Read(es, key, now).0
    case StoreOf(key, image, now) => Stored(es, key, image, now, s)
  }

  function After(uses: seq<Use>, n: nat, s: Settings): Entries
    requires n <= |uses|
  {
    if n == 0 then [] else Apply(After(uses, n - 1, s), uses[n - 1], s)
  }

  /** A hit, or a store that is not refused. */
  predicate Effective(es: Entries, u: Use, s: Settings) {
    match u
    case ReadOf(key, now) => Read(es, key, now).1 != None
    case StoreOf(_, image, _) => Cacheable(image, s)
  }

  /** Use `i` is a hit on the key or stores an image under it. */
  predicate Touches(uses: seq<Use>, i: nat, key: Key, s: Settings)
    requires i < |uses|
  {
    uses[i].key == key && Effective(After(uses, i, s), uses[i], s)
  }

  /** The last of the first `n` uses that touched the key, or -1. */
  function LastTouch(uses: seq<Use>, n: nat, key: Key, s: Settings): int
    requires n <= |uses|
  {
    if n == 0 then -1
    else if Touches(uses, n - 1, key, s) then n - 1
    else LastTouch(uses, n - 1, key, s)
  }

  lemma {:induction false} LastTouchBelow(uses: seq<Use>, n: nat, key: Key, s: Settings)
    requires n <= |uses|
    ensures LastTouch(uses, n, key, s) < n
  {
    if n > 0 { LastTouchBelow(uses, n - 1, key, s); }
  }

  /** Entries are listed from the least to the most recently touched key. */
  ghost predicate ByRecency(es: Entries, uses: seq<Use>, n: nat, s: Settings)
    requires n <= |uses|
  {
    forall i, j :: 0 <= i < j < |es| ==> LastTouch(uses, n, es[i].0, s) < LastTouch(uses, n, es[j].0, s)
  }

  /** In every run of reads and stores the limits hold and the order of the map is the order
      of last use. */
  lemma {:induction false} AlwaysRecent(uses: seq<Use>, n: nat, s: Settings)
    requires n <= |uses| && s.maxEntries > 0
    ensures Within(After(uses, n, s), s)
    ensures ByRecency(After(uses, n, s), uses, n, s)
  {
    if n > 0 {
      AlwaysRecent(uses, n - 1, s);
      var es := After(uses, n - 1, s);
      match uses[n - 1] {
        case ReadOf(key, now) => ReadWithin(es, key, now, s);
        case StoreOf(key, image, now) => StoredWithin(es, key, image, now, s);
      }
      if Effective(es, uses[n - 1], s) {
        var from, e := EffectiveShape(es, uses[n - 1], s);
        TouchedIsLast(es, After(uses, n, s), from, (uses[n - 1].key, e), uses, n, s);
      } else {
        UntouchedStays(es, uses, n, s);
      }
    }
  }

  /** An effective use drops some least recent entries and puts its own key last. */
  lemma EffectiveShape(es: Entries, u: Use, s: Settings) returns (from: nat, e: Entry)
    requires Effective(es, u, s)
    ensures from <= |Remove(es, u.key)|
    ensures Apply(es, u, s) == Remove(es, u.key)[from..] + [(u.key, e)]
  {
    match u
    case ReadOf(key, now) => from, e := 0, Get(es, key);
    case StoreOf(key, image, now) =>
      from, e := EvictCount(Remove(es, key), image.byteLength, s), Entry(image, image.byteLength, now + s.ttlMs);
  }

  lemma IneffectiveShape(es: Entries, u: Use, s: Settings)
    requires !Effective(es, u, s)
    ensures Apply(es, u, s) == es || Apply(es, u, s) == Remove(es, u.key)
  {
  }

  lemma TouchedIsLast(es: Entries, r: Entries, from: nat, e: (Key, Entry), uses: seq<Use>, n: nat, s: Settings)
    requires 0 < n <= |uses| && Distinct(es) && Touches(uses, n - 1, e.0, s)
    requires from <= |Remove(es, e.0)| && r == Remove(es, e.0)[from..] + [e]
    requires ByRecency(es, uses, n - 1, s)
    ensures ByRecency(r, uses, n, s)
  {
    hide *;
    RemoveDistinct(es, e.0);
    RemoveByRecency(es, e.0, uses, n - 1, s);
    AppendByRecency(Remove(es, e.0), from, e, uses, n, s);
  }

  lemma AppendByRecency(rest: Entries, from: nat, e: (Key, Entry), uses: seq<Use>, n: nat, s: Settings)
    requires 0 < n <= |uses| && from <= |rest|
    requires Touches(uses, n - 1, e.0, s) && forall i :: 0 <= i < |rest| ==> rest[i].0 != e.0
    requires ByRecency(rest, uses, n - 1, s)
    ensures ByRecency(rest[from..] + [e], uses, n, s)
  {
    var r := rest[from..] + [e];
    forall i | from <= i < |rest| ensures LastTouch(uses, n, rest[i].0, s) == LastTouch(uses, n - 1, rest[i].0, s) < n - 1 {
      LastTouchBelow(uses, n - 1, rest[i].0, s);
    }
    forall i, j | 0 <= i < j < |r| ensures LastTouch(uses, n, r[i].0, s) < LastTouch(uses, n, r[j].0, s) {
      assert r[i] == rest[from + i];
      if j < |r| - 1 { assert r[j] == rest[from + j]; }
    }
  }

  lemma LastTouchSame(uses: seq<Use>, n: nat, key: Key, s: Settings)
    requires 0 < n <= |uses| && !Effective(After(uses, n - 1, s), uses[n - 1], s)
    ensures LastTouch(uses, n, key, s) == LastTouch(uses, n - 1, key, s)
  {
    hide After, Effective;
  }

  /** An expired read or an image that is not cacheable leaves the order as it is. */
  lemma UntouchedStays(es: Entries, uses: seq<Use>, n: nat, s: Settings)
    requires 0 < n <= |uses| && es == After(uses, n - 1, s)
    requires !Effective(es, uses[n - 1], s)
    requires ByRecency(es, uses, n - 1, s)
    ensures ByRecency(Apply(es, uses[n - 1], s), uses, n, s)
  {
    hide Apply, LastTouch, Remove, After, Effective;
    IneffectiveShape(es, uses[n - 1], s);
    RemoveByRecency(es, uses[n - 1].key, uses, n - 1, s);
    forall key ensures LastTouch(uses, n, key, s) == LastTouch(uses, n - 1, key, s) {
      LastTouchSame(uses, n, key, s);
    }
  }

  lemma RemoveByRecency(es: Entries, key: Key, uses: seq<Use>, n: nat, s: Settings)
    requires n <= |uses| && ByRecency(es, uses, n, s)
    ensures ByRecency(Remove(es, key), uses, n, s)
  {
    var p := Index(es, key);
    var r := Remove(es, key);
    forall i, j | 0 <= i < j < |r| ensures LastTouch(uses, n, r[i].0, s) < LastTouch(uses, n, r[j].0, s) {
      var a := if i < p then i else i + 1;
      var b := if j < p then j else j + 1;
      if p < |es| { assert r[i] == es[a] && r[j] == es[b]; }
    }
  }
}
