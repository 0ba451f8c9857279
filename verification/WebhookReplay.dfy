/** The timestamp window and the replay store in front of webhook ingestion. Signatures,
    decryption and the store lookup are boolean inputs; the replay digest is taken to be injective. */
module WebhookReplay {
  import opened Utf16

  /** What the replay digest is made of. */
  datatype ReplayKey = ReplayKey(appId: Text, timestamp: int, path: Text, signature: Text)

  /** A request: its replay key and the outcome of the checks that do not depend on state. */
  datatype Request = Request(
    key: ReplayKey,
    eventCodeOk: bool,
    appIdOk: bool,
    timestampOk: bool,
    signatureOk: bool)

  datatype ErrorCode =
    | InvalidEventCode | AppIdMismatch | InvalidTimestamp | StaleTimestamp | InvalidSignature
    | DecryptionFailed | InvalidEventData | StoreLookupFailed

  /** What becomes of a delivery after its claim: it is read, cannot be deciphered, holds no JSON, or its
      store cannot be looked up. */
  datatype Reading = Readable | Undecipherable | NotJson | LookupFails

  datatype Outcome = Refused(code: ErrorCode) | Duplicate | Adapted

  type Entries = map<ReplayKey, int>

  predicate InWindow(timestamp: int, now: int, skew: int) {
    -skew <= now - timestamp <= skew
  }

  /** The checks before the claim, in the order of the code. */
  function Check(r: Request, now: int, skew: int): Outcome {
    if !r.eventCodeOk then Refused(InvalidEventCode)
    else if !r.appIdOk then Refused(AppIdMismatch)
    else if !r.timestampOk then Refused(InvalidTimestamp)
    else if !InWindow(r.key.timestamp, now, skew) then Refused(StaleTimestamp)
    else if !r.signatureOk then Refused(InvalidSignature)
    else Adapted
  }

  /** A key can be claimed unless an unexpired entry holds it; an expiry of 0 counts as none. */
  predicate Claimable(entries: Entries, key: ReplayKey, now: int) {
    !(key in entries && entries[key] != 0 && entries[key] > now)
  }

  /** `MemoryWebhookReplayStore` and the adapter in front of it. */
  class Adapter {
    var entries: Entries
    const skew: int

    constructor (maxClockSkewMs: int)
      requires maxClockSkewMs > 0
      ensures entries == map[] && skew == maxClockSkewMs
    {
      entries := map[];
      skew := maxClockSkewMs;
    }

    method Claim(key: ReplayKey, ttl: int, now: int) returns (ok: bool)
      modifies this`entries
      ensures ok == Claimable(old(entries), key, now)
      ensures entries == if ok then old(entries)[key := now + ttl] else old(entries)
    {
      if key in entries && entries[key] != 0 && entries[key] > now {
        return false;
      }
      entries := entries[key := now + ttl];
      return true;
    }

    method Release(key: ReplayKey)
      modifies this`entries
      ensures entries == old(entries) - {key}
    {
      entries := entries - {key};
    }

    /** `adapt`: `now` is read for the window, `claimNow` by the store; a delivery that cannot be read
        after its claim gives the key back. Each error is that of the first check that fails. */
    method Adapt(r: Request, now: int, claimNow: int, reading: Reading) returns (o: Outcome)
      modifies this`entries
      ensures o == Adapted <==>
        && r.eventCodeOk && r.appIdOk && r.timestampOk && r.signatureOk && -skew <= now - r.key.timestamp <= skew
        && !Held(old(entries), r.key, claimNow) && reading == Readable
      ensures o == Duplicate <==>
        && r.eventCodeOk && r.appIdOk && r.timestampOk && r.signatureOk && -skew <= now - r.key.timestamp <= skew
        && Held(old(entries), r.key, claimNow)
      ensures o == Refused(InvalidEventCode) <==> !r.eventCodeOk
      ensures o == Refused(AppIdMismatch) <==> r.eventCodeOk && !r.appIdOk
      ensures o == Refused(InvalidTimestamp) <==> r.eventCodeOk && r.appIdOk && !r.timestampOk
      ensures o == Refused(StaleTimestamp) <==>
        && r.eventCodeOk && r.appIdOk && r.timestampOk
        && (now - r.key.timestamp > skew || r.key.timestamp - now > skew)
      ensures o == Refused(InvalidSignature) <==>
        && r.eventCodeOk && r.appIdOk && r.timestampOk && -skew <= now - r.key.timestamp <= skew && !r.signatureOk
      ensures (o == Refused(DecryptionFailed) || o == Refused(InvalidEventData) || o == Refused(StoreLookupFailed)) <==>
        && r.eventCodeOk && r.appIdOk && r.timestampOk && r.signatureOk && -skew <= now - r.key.timestamp <= skew
        && !Held(old(entries), r.key, claimNow) && reading != Readable
      ensures o == Refused(DecryptionFailed) ==> reading == Undecipherable
      ensures o == Refused(InvalidEventData) ==> reading == NotJson
      ensures o == Refused(StoreLookupFailed) ==> reading == LookupFails
      ensures entries ==
        if o == Adapted then old(entries)[r.key := claimNow + 2 * skew]
        else if o == Refused(DecryptionFailed) || o == Refused(InvalidEventData) || o == Refused(StoreLookupFailed)
        then old(entries) - {r.key}
        else old(entries)
      ensures reading == Readable ==> (entries, o) == Deliver(old(entries), r, now, claimNow, skew)
    {
      o := Check(r, now, skew);
      if o.Refused? {
        return;
      }
      var claimed := Claim(r.key, 2 * skew, claimNow);
      if !claimed {
        return Duplicate;
      }
      if reading != Readable {
        Release(r.key);
        return Refused(match reading
                       case Undecipherable => DecryptionFailed
                       case NotJson => InvalidEventData
                       case _ => StoreLookupFailed);
      }
    }
  }

  /** An unexpired entry holds the key. */
  ghost predicate Held(entries: Entries, key: ReplayKey, now: int) {
    key in entries && entries[key] != 0 && now < entries[key]
  }

  /** Everything about the request itself is in order. */
  ghost predicate Authentic(r: Request, now: int, skew: int) {
    r.eventCodeOk && r.appIdOk && r.timestampOk && r.signatureOk && -skew <= now - r.key.timestamp <= skew
  }

  /** A delivery gets past the store exactly when the request is in order and its key is not held; then
      the key is held for a whole window from the claim on, else nothing changes. */
  lemma DeliveredIff(entries: Entries, r: Request, now: int, claimNow: int, skew: int)
    ensures var (after, o) := Deliver(entries, r, now, claimNow, skew);
      && (o == Adapted <==> Authentic(r, now, skew) && !Held(entries, r.key, claimNow))
      && (o == Duplicate <==> Authentic(r, now, skew) && Held(entries, r.key, claimNow))
      && (o != Adapted ==> after == entries)
      && (o == Adapted ==> after == entries[r.key := claimNow + 2 * skew])
      && (o == Adapted && skew > 0 && claimNow > 0 ==>
            forall t :: claimNow <= t ==> (Held(after, r.key, t) <==> t < claimNow + 2 * skew))
  {
  }

  // ---------------------------------------------------------------- runs

  /** The window check and the claim, between which the adapter does not await. */
  function Deliver(entries: Entries, r: Request, now: int, claimNow: int, skew: int): (Entries, Outcome) {
    var checked := Check(r, now, skew);
    if checked.Refused? then (entries, checked)
    else if !Claimable(entries, r.key, claimNow) then (entries, Duplicate)
    else (entries[r.key := claimNow + 2 * skew], Adapted)
  }

  datatype Action = Arrive(request: Request, now: int, claimNow: int) | Free(key: ReplayKey)

  function Step(entries: Entries, a: Action, skew: int): Entries {
    match a
    case Arrive(r, now, claimNow) => Deliver(entries, r, now, claimNow, skew).0
    case Free(key) => entries - {key}
  }

  /** The entries after the first `n` actions. */
  function After(actions: seq<Action>, n: nat, skew: int): Entries
    requires n <= |actions|
  {
    if n == 0 then map[] else Step(After(actions, n - 1, skew), actions[n - 1], skew)
  }

  /** Action `i` is a delivery of `key` that gets past the replay store. */
  predicate AcceptedAt(actions: seq<Action>, i: nat, key: ReplayKey, skew: int)
    requires i < |actions|
  {
    && actions[i].Arrive? && actions[i].request.key == key
    && Deliver(After(actions, i, skew), actions[i].request, actions[i].now, actions[i].claimNow, skew).1 == Adapted
  }

  /** Clocks are positive and never run backwards. */
  ghost predicate Timed(actions: seq<Action>) {
    && (forall i :: 0 <= i < |actions| && actions[i].Arrive? ==> 0 < actions[i].now <= actions[i].claimNow)
    && (forall i, j :: 0 <= i < j < |actions| && actions[i].Arrive? && actions[j].Arrive? ==>
          actions[i].claimNow <= actions[j].now)
  }

  ghost predicate NotFreed(actions: seq<Action>, i: nat, j: nat, key: ReplayKey) {
    forall m :: i < m < j && m < |actions| ==> actions[m] != Free(key)
  }

  /** A claim that is not given back is held, with an expiry that never moves forward. */
  lemma {:induction false} ClaimHeld(actions: seq<Action>, i: nat, j: nat, key: ReplayKey, skew: int)
    requires i < j <= |actions| && skew > 0 && Timed(actions) && NotFreed(actions, i, j, key)
    requires AcceptedAt(actions, i, key, skew)
    ensures key in After(actions, j, skew) && After(actions, j, skew)[key] >= actions[i].claimNow + 2 * skew
  {
    if j > i + 1 {
      ClaimHeld(actions, i, j - 1, key, skew);
      assert actions[j - 1] != Free(key);
    }
  }

  /** Two accepted deliveries of one request, with the key not freed in between, are claimed at
      least a whole window apart. */
  lemma ClaimsApart(actions: seq<Action>, i: nat, j: nat, key: ReplayKey, skew: int)
    requires i < j < |actions| && skew > 0 && Timed(actions) && NotFreed(actions, i, j, key)
    requires AcceptedAt(actions, i, key, skew) && AcceptedAt(actions, j, key, skew)
    ensures actions[j].claimNow - actions[i].claimNow >= 2 * skew
  {
    ClaimHeld(actions, i, j, key, skew);
  }

  ghost predicate OneReading(actions: seq<Action>) {
    forall i :: 0 <= i < |actions| && actions[i].Arrive? ==> actions[i].now == actions[i].claimNow
  }

  /** With one clock reading per delivery, a request is accepted twice only at the two ends of
      its window. */
  lemma AcceptedTwiceAtTheEnds(actions: seq<Action>, i: nat, j: nat, key: ReplayKey, skew: int)
    requires i < j < |actions| && skew > 0 && Timed(actions) && NotFreed(actions, i, j, key)
    requires OneReading(actions)
    requires AcceptedAt(actions, i, key, skew) && AcceptedAt(actions, j, key, skew)
    ensures actions[i].now == key.timestamp - skew && actions[j].now == key.timestamp + skew
  {
    ClaimsApart(actions, i, j, key, skew);
  }

  /** So it is accepted at most twice, and once if no delivery falls exactly on an end. */
  lemma NeverThrice(actions: seq<Action>, i: nat, j: nat, m: nat, key: ReplayKey, skew: int)
    requires i < j < m < |actions| && skew > 0 && Timed(actions) && OneReading(actions)
    requires NotFreed(actions, i, m, key)
    requires AcceptedAt(actions, i, key, skew) && AcceptedAt(actions, j, key, skew)
    ensures !AcceptedAt(actions, m, key, skew)
  {
    AcceptedTwiceAtTheEnds(actions, i, j, key, skew);
    if AcceptedAt(actions, m, key, skew) {
      AcceptedTwiceAtTheEnds(actions, j, m, key, skew);
    }
  }

  /** The ends are really there: the second end is not protected by the first claim. */
  lemma EndsAreBothAccepted(r: Request, skew: int)
    requires skew > 0 && r.key.timestamp > skew
    requires r.eventCodeOk && r.appIdOk && r.timestampOk && r.signatureOk
    ensures var t := r.key.timestamp;
            var actions := [Arrive(r, t - skew, t - skew), Arrive(r, t + skew, t + skew)];
            AcceptedAt(actions, 0, r.key, skew) && AcceptedAt(actions, 1, r.key, skew)
  {
    var t := r.key.timestamp;
    var actions := [Arrive(r, t - skew, t - skew), Arrive(r, t + skew, t + skew)];
    assert After(actions, 0, skew) == map[];
    assert After(actions, 1, skew) == Step(map[], actions[0], skew);
  }

  /** A key that was given back stays free until a delivery claims it. */
  lemma {:induction false} FreedKeyStaysFree(actions: seq<Action>, f: nat, n: nat, key: ReplayKey, skew: int)
    requires f < n <= |actions| && actions[f] == Free(key)
    requires forall m :: f < m < n ==> !AcceptedAt(actions, m, key, skew)
    ensures key !in After(actions, n, skew)
  {
    if n > f + 1 {
      FreedKeyStaysFree(actions, f, n - 1, key, skew);
      assert !AcceptedAt(actions, n - 1, key, skew);
    }
  }

  /** A delivery that fails after its claim gives the key back later. Until then the request is refused
      as a duplicate for a whole window; from then on, as long as no other delivery of it was accepted,
      the checks alone decide: the failed attempt leaves no trace. */
  lemma FailedDeliveryCanBeRetried(
      actions: seq<Action>, i: nat, f: nat, n: nat, r: Request, now: int, claimNow: int, skew: int)
    requires i < f < n <= |actions| && skew > 0 && Timed(actions)
    requires AcceptedAt(actions, i, r.key, skew) && actions[f] == Free(r.key) && NotFreed(actions, i, f, r.key)
    requires forall m :: f < m < n ==> !AcceptedAt(actions, m, r.key, skew)
    ensures Deliver(After(actions, n, skew), r, now, claimNow, skew).1 == Check(r, now, skew)
    ensures forall m :: i < m < f && actions[m].Arrive? && actions[m].claimNow < actions[i].claimNow + 2 * skew ==>
              !AcceptedAt(actions, m, r.key, skew)
  {
    FreedKeyStaysFree(actions, f, n, r.key, skew);
    forall m | i < m < f && actions[m].Arrive? && actions[m].claimNow < actions[i].claimNow + 2 * skew
      ensures !AcceptedAt(actions, m, r.key, skew)
    {
      if AcceptedAt(actions, m, r.key, skew) { ClaimsApart(actions, i, m, r.key, skew); }
    }
  }
}
