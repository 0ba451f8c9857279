/** The dedupe key of a webhook delivery. The digest is taken to be injective, so the key is
    the digested text. */
module WebhookKey {
  import opened Utf16
  import opened Decimals
  import opened Json
  import opened JsonRoundTrip
  import opened JsonCanonical
  import opened WebhookPayload

  const NEWLINE: Unit := 10
  const UNSCOPED: Text := [117, 110, 115, 99, 111, 112, 101, 100]

  /** A delivery; an absent tenant or store is the empty text. */
  datatype Delivery = Delivery(source: Text, eventType: Text, tenant: Text, store: Text, payload: Json)

  function ScopeName(id: Text): Text { if id == [] then UNSCOPED else id }

  function Scope(d: Delivery): Text {
    d.source + [COLON] + d.eventType + [COLON] + ScopeName(d.tenant) + [COLON] + ScopeName(d.store)
  }

  function DedupeKey(d: Delivery): Text {
    Scope(d) + [NEWLINE] + Stringify(Canonicalize(Normalize(d.payload)))
  }

  lemma {:induction false} EscapeNoNewline(s: Text)
    ensures NEWLINE !in EscapeText(s)
  {
    if |s| > 1 && IsHighSurrogate(s[0]) && IsLowSurrogate(s[1]) {
      EscapeNoNewline(s[2..]);
    } else if s != [] {
      EscapeNoNewline(s[1..]);
    }
  }

  lemma {:induction false} JoinNoNewline(parts: seq<Text>)
    requires forall i :: 0 <= i < |parts| ==> NEWLINE !in parts[i]
    ensures NEWLINE !in Join(parts)
  {
    if |parts| > 1 { JoinNoNewline(parts[1..]); }
  }

  lemma DigitsNoNewline(ds: seq<Digit>)
    ensures NEWLINE !in ds
  {
  }

  lemma NumberNoNewline(n: Number)
    ensures NEWLINE !in NumberText(n)
  {
    if n.Decimal? { UnsignedNoNewline(n.digits, n.point); }
  }

  lemma UnsignedNoNewline(ds: Significand, n: int)
    ensures NEWLINE !in UnsignedText(ds, n)
  {
    var e := n - 1;
    DigitsNoNewline(NatDigits(if e < 0 then -e else e));
    assert NEWLINE !in ExponentText(e);
  }

  /** Printed JSON is a single line. */
  lemma {:induction false} StringifyNoNewline(v: Json)
    ensures NEWLINE !in Stringify(v)
    decreases v
  {
    match v
    case Null =>
    case Bool(_) =>
    case Num(n) => NumberNoNewline(n);
    case Str(s) => EscapeNoNewline(s);
    case Arr(items) =>
      forall i | 0 <= i < |items| ensures NEWLINE !in ItemTexts(items)[i] { StringifyNoNewline(items[i]); }
      JoinNoNewline(ItemTexts(items));
      assert Stringify(v) == [LBRACKET] + Join(ItemTexts(items)) + [RBRACKET];
    case Obj(fields) =>
      forall i | 0 <= i < |fields| ensures NEWLINE !in MemberTexts(fields)[i] {
        StringifyNoNewline(fields[i].1);
        EscapeNoNewline(fields[i].0);
      }
      JoinNoNewline(MemberTexts(fields));
      assert Stringify(v) == [LBRACE] + Join(MemberTexts(fields)) + [RBRACE];
  }

  /** Texts without the separator can be split off the end. */
  lemma SplitLast(a: Text, x: Text, b: Text, y: Text, c: Unit)
    requires a + [c] + x == b + [c] + y && c !in x && c !in y
    ensures a == b && x == y
  {
    var t := a + [c] + x;
    assert t[|a|] == c && t[|b|] == c;
    assert a == t[..|a|] && b == t[..|b|];
    assert x == t[|a| + 1..] && y == t[|b| + 1..];
  }

  lemma {:induction false} ValueWellFormed(v: Json)
    requires IsValue(v)
    ensures WellFormed(v)
    decreases v
  {
    match v
    case Arr(items) =>
      forall i | 0 <= i < |items| ensures WellFormed(items[i]) { ValueWellFormed(items[i]); }
    case Obj(fields) =>
      forall i | 0 <= i < |fields| ensures WellFormed(fields[i].1) { ValueWellFormed(fields[i].1); }
    case _ =>
  }

  /** Two deliveries have one key exactly when their scopes have the same text and their
      normalized payloads are equal up to key order. */
  lemma DedupeKeyExact(d: Delivery, e: Delivery)
    requires IsValue(d.payload) && IsValue(e.payload)
    ensures DedupeKey(d) == DedupeKey(e)
       <==> Scope(d) == Scope(e) && Same(Normalize(d.payload), Normalize(e.payload))
  {
    var (p, q) := (Normalize(d.payload), Normalize(e.payload));
    NormalizeIsValue(d.payload);
    NormalizeIsValue(e.payload);
    ValueWellFormed(p);
    ValueWellFormed(q);
    CanonicalTextCanonical(p, q);
    if DedupeKey(d) == DedupeKey(e) {
      StringifyNoNewline(Canonicalize(p));
      StringifyNoNewline(Canonicalize(q));
      SplitLast(Scope(d), Stringify(Canonicalize(p)), Scope(e), Stringify(Canonicalize(q)), NEWLINE);
    }
  }

  predicate PlainId(id: Text) { COLON !in id && id != UNSCOPED }

  /** Stores and tenants with plain ids never share a key. */
  lemma StoresNeverShare(d: Delivery, e: Delivery)
    requires IsValue(d.payload) && IsValue(e.payload)
    requires PlainId(d.tenant) && PlainId(d.store) && PlainId(e.tenant) && PlainId(e.store)
    requires DedupeKey(d) == DedupeKey(e)
    ensures d.tenant == e.tenant && d.store == e.store
    ensures Same(Normalize(d.payload), Normalize(e.payload))
  {
    DedupeKeyExact(d, e);
    var (a, b) := (d.source + [COLON] + d.eventType, e.source + [COLON] + e.eventType);
    var (s, t) := (a + [COLON] + ScopeName(d.tenant), b + [COLON] + ScopeName(e.tenant));
    assert Scope(d) == s + [COLON] + ScopeName(d.store);
    assert Scope(e) == t + [COLON] + ScopeName(e.store);
    SplitLast(s, ScopeName(d.store), t, ScopeName(e.store), COLON);
    SplitLast(a, ScopeName(d.tenant), b, ScopeName(e.tenant), COLON);
  }

  /** With a colon in an id, or an id spelled "unscoped", different stores do share a key. */
  lemma StoresCanShare(source: Text, eventType: Text, payload: Json)
    ensures DedupeKey(Delivery(source, eventType, [97, COLON, 98], [99], payload))
         == DedupeKey(Delivery(source, eventType, [97], [98, COLON, 99], payload))
    ensures DedupeKey(Delivery(source, eventType, [97], UNSCOPED, payload))
         == DedupeKey(Delivery(source, eventType, [97], [], payload))
  {
    var prefix := source + [COLON] + eventType + [COLON];
    var d := Delivery(source, eventType, [97, COLON, 98], [99], payload);
    var e := Delivery(source, eventType, [97], [98, COLON, 99], payload);
    assert Scope(d) == prefix + [97, COLON, 98, COLON, 99] == Scope(e);
  }

  /** The tenant and store part of a scope. */
  function Joined(tenant: Text, store: Text): Text { ScopeName(tenant) + [COLON] + ScopeName(store) }

  /** A name in use is "unscoped", or the joined text has a second split into two non-empty parts. */
  ghost predicate Ambiguous(tenant: Text, store: Text) {
    || ScopeName(tenant) == UNSCOPED || ScopeName(store) == UNSCOPED
    || exists i :: OtherSplit(tenant, store, i)
  }

  predicate OtherSplit(tenant: Text, store: Text, i: int) {
    0 < i < |Joined(tenant, store)| - 1 && i != |ScopeName(tenant)| && Joined(tenant, store)[i] == COLON
  }

  /** For a given source, event type and payload, a tenant and store share their key with another pair
      exactly when they are ambiguous. */
  lemma SharesKeyIff(source: Text, eventType: Text, payload: Json, tenant: Text, store: Text)
    ensures (exists t, s :: (t, s) != (tenant, store)
                         && DedupeKey(Delivery(source, eventType, t, s, payload))
                         == DedupeKey(Delivery(source, eventType, tenant, store, payload)))
       <==> Ambiguous(tenant, store)
  {
    hide DedupeKey, Joined;
    forall t, s
      ensures DedupeKey(Delivery(source, eventType, t, s, payload))
           == DedupeKey(Delivery(source, eventType, tenant, store, payload))
         <==> Joined(t, s) == Joined(tenant, store)
    {
      KeyOfJoined(source, eventType, payload, t, s, tenant, store);
    }
    if t, s :| (t, s) != (tenant, store) && Joined(t, s) == Joined(tenant, store) {
      SharedIsAmbiguous(tenant, store, t, s);
    }
    if Ambiguous(tenant, store) {
      var t, s := AmbiguousIsShared(tenant, store);
      assert Joined(t, s) == Joined(tenant, store);
    }
  }

  lemma KeyOfJoined(source: Text, eventType: Text, payload: Json, t: Text, s: Text, tenant: Text, store: Text)
    ensures DedupeKey(Delivery(source, eventType, t, s, payload))
         == DedupeKey(Delivery(source, eventType, tenant, store, payload))
       <==> Joined(t, s) == Joined(tenant, store)
  {
    hide Stringify, Canonicalize, Normalize;
    var prefix := source + [COLON] + eventType + [COLON];
    var suffix := [NEWLINE] + Stringify(Canonicalize(Normalize(payload)));
    SplitKey(prefix, Delivery(source, eventType, t, s, payload), suffix);
    SplitKey(prefix, Delivery(source, eventType, tenant, store, payload), suffix);
    MiddleOf(prefix, Joined(t, s), Joined(tenant, store), suffix);
  }

  lemma SplitKey(prefix: Text, d: Delivery, suffix: Text)
    requires prefix == d.source + [COLON] + d.eventType + [COLON]
    requires suffix == [NEWLINE] + Stringify(Canonicalize(Normalize(d.payload)))
    ensures DedupeKey(d) == prefix + Joined(d.tenant, d.store) + suffix
  {
    hide Stringify, Canonicalize, Normalize;
    assert Scope(d) == prefix + Joined(d.tenant, d.store);
  }

  lemma MiddleOf(prefix: Text, a: Text, b: Text, suffix: Text)
    ensures prefix + a + suffix == prefix + b + suffix <==> a == b
  {
    var x, y := prefix + a + suffix, prefix + b + suffix;
    if x == y {
      assert |x| == |prefix| + |a| + |suffix| && |y| == |prefix| + |b| + |suffix|;
      assert a == x[|prefix|..|prefix| + |a|] && b == y[|prefix|..|prefix| + |b|];
    }
  }

  lemma SharedIsAmbiguous(tenant: Text, store: Text, t: Text, s: Text)
    requires (t, s) != (tenant, store) && Joined(t, s) == Joined(tenant, store)
    ensures Ambiguous(tenant, store)
  {
    var i, j := |ScopeName(t)|, Joined(tenant, store);
    assert Joined(t, s)[i] == COLON && 0 < i < |j| - 1;
    if i == |ScopeName(tenant)| {
      assert ScopeName(t) == j[..i] && ScopeName(tenant) == j[..i];
      assert ScopeName(s) == Joined(t, s)[i + 1..] && ScopeName(store) == j[i + 1..];
    } else {
      assert OtherSplit(tenant, store, i);
    }
  }

  lemma AmbiguousIsShared(tenant: Text, store: Text) returns (t: Text, s: Text)
    requires Ambiguous(tenant, store)
    ensures (t, s) != (tenant, store) && Joined(t, s) == Joined(tenant, store)
  {
    t, s := tenant, store;
    if ScopeName(tenant) == UNSCOPED {
      t := if tenant == [] then UNSCOPED else [];
    } else if ScopeName(store) == UNSCOPED {
      s := if store == [] then UNSCOPED else [];
    } else {
      var i :| OtherSplit(tenant, store, i);
      var j := Joined(tenant, store);
      t, s := j[..i], j[i + 1..];
      assert j == t + [COLON] + s;
      assert |ScopeName(t)| == i;
    }
  }
}
