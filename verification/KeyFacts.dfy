/** The life of a zone's keys, and which of them a request is checked against. */
module KeyFacts {
  import opened Basics
  import opened Errors
  import opened Wire
  import opened Signing
  import opened Store
  import opened History
  import opened Transfer

  function Stage(state: KeyState): int {
    match state
    case Active => 0
    case Retiring => 1
    case Revoked => 2
  }

  /** A key keeps its generation, name and secret; its state only moves on; a revoked key never changes. */
  predicate Ages(before: KeyRow, after: KeyRow) {
    && after.gen == before.gen && after.keyName == before.keyName && after.secret == before.secret
    && Stage(before.state) <= Stage(after.state)
    && (before.state == Revoked ==> after == before)
  }

  /** Keys age, none disappears, and every key that is new has a higher generation than all before it. */
  ghost predicate KeysAge(before: map<string, KeyRow>, after: map<string, KeyRow>) {
    && (forall id :: id in before ==> id in after && Ages(before[id], after[id]))
    && (forall id, older :: id in after && id !in before && older in before ==> before[older].gen < after[id].gen)
  }

  lemma {:induction false} KeysAgeTransitive(a: map<string, KeyRow>, b: map<string, KeyRow>, c: map<string, KeyRow>)
    requires KeysAge(a, b) && KeysAge(b, c)
    ensures KeysAge(a, c)
  {
  }

  lemma {:induction false} RotationAges(keys: map<string, KeyRow>, id: string, row: KeyRow, expiresAt: int)
    requires id !in keys && IsNextGen(keys, row.gen)
    ensures KeysAge(keys, Rotated(keys, id, row, expiresAt))
  {
  }

  lemma {:induction false} InstallIsRotation(s: ZoneState, k: NewKey, now: int) returns (row: KeyRow, expiresAt: int)
    requires InstallKeyZone(s, k, now).1.None?
    ensures InstallKeyZone(s, k, now).0.keys == Rotated(s.keys, k.keyId, row, expiresAt)
    ensures k.keyId !in s.keys && IsNextGen(s.keys, row.gen) && row.state == Active
  {
    expiresAt := if k.expiresAt.Some? then k.expiresAt.value else now + 3600 * 1000;
    row := KeyRow(NextGen(s.keys), if k.keyName == "" then k.keyId else k.keyName, k.secret, Active, None);
  }

  /** When the key that is active now will expire. */
  function Announced(k: NewKey, now: int): int {
    if k.expiresAt.Some? then k.expiresAt.value else now + 3_600_000
  }

  /** The name asked for, or the identifier where none was given. */
  function AskedName(k: NewKey): string {
    if k.keyName == "" then k.keyId else k.keyName
  }

  /** Only the keys of the one zone differ between the two stores. */
  ghost predicate OnlyKeysChange(st: Store, st': Store, zone: string) {
    && st'.tasks == st.tasks && zone in st.zones && zone in st'.zones
    && st'.zones == st.zones[zone := st'.zones[zone]]
    && st'.zones[zone] == st.zones[zone].(keys := st'.zones[zone].keys)
  }

  /**
   A rotation, in full. It succeeds exactly for a known zone, an expiry that lies ahead, a name
   no live key has and a new identifier. The new key then has the name and the secret given,
   the next generation, and no expiry; the key that was active retires with the announced
   expiry; and nothing else changes, as nothing does when it fails.
   */
  lemma {:induction false} InstallIsExact(st: Store, zone: string, k: NewKey, now: int)
    ensures var (st', failure) := InstallKey(st, zone, k, now);
            && (failure.None? <==>
                  && zone in st.zones && Announced(k, now) > now && k.keyId !in st.zones[zone].keys
                  && (forall id :: id in st.zones[zone].keys && st.zones[zone].keys[id].keyName == AskedName(k) ==>
                                     st.zones[zone].keys[id].state == Revoked))
            && (failure.Some? ==> st' == st && failure.value == if zone in st.zones then KeyStateInvalid else ZoneNotFound)
            && (failure.None? ==>
                  && OnlyKeysChange(st, st', zone)
                  && var keys, keys' := st.zones[zone].keys, st'.zones[zone].keys;
                  && keys'.Keys == keys.Keys + {k.keyId}
                  && keys'[k.keyId] == KeyRow(keys'[k.keyId].gen, AskedName(k), k.secret, Active, None)
                  && IsNextGen(keys, keys'[k.keyId].gen)
                  && (forall id :: id in keys ==>
                        keys'[id] == if keys[id].state == Active
                                     then KeyRow(keys[id].gen, keys[id].keyName, keys[id].secret, Retiring, Some(Announced(k, now)))
                                     else keys[id]))
  {
    if zone in st.zones {
      assert st.zones[zone := st.zones[zone]] == st.zones;
    }
  }

  /** A rotation ages the keys, and the new one's generation is above all others. */
  lemma {:induction false} InstallAges(s: ZoneState, k: NewKey, now: int)
    ensures KeysAge(s.keys, InstallKeyZone(s, k, now).0.keys)
  {
    if InstallKeyZone(s, k, now).1.None? {
      var row, expiresAt := InstallIsRotation(s, k, now);
      RotationAges(s.keys, k.keyId, row, expiresAt);
    }
  }

  /**
   Rotation without a gap: after it the new key is the one active key, and the key that was
   active before stays usable until its announced expiry, which lies ahead.
   */
  lemma {:induction false} RotationIsSeamless(s: ZoneState, k: NewKey, now: int, id: string, later: int)
    requires InstallKeyZone(s, k, now).1.None?
    ensures var keys := InstallKeyZone(s, k, now).0.keys;
            && k.keyId in keys && keys[k.keyId].state == Active
            && (forall other :: other in keys && keys[other].state == Active ==> other == k.keyId)
            && (id in s.keys && s.keys[id].state == Active ==>
                  && id in keys && keys[id].expiresAt.Some? && keys[id].expiresAt.value > now
                  && (later < keys[id].expiresAt.value ==> IsUsable(keys[id], later)))
  {
    WholeSecondsBefore(later, if k.expiresAt.Some? then k.expiresAt.value else now + 3600 * 1000);
  }

  lemma {:induction false} RevocationAges(keys: map<string, KeyRow>, id: string)
    requires id in keys && keys[id].state != Revoked
    ensures KeysAge(keys, keys[id := keys[id].(state := Revoked, expiresAt := None)])
  {
  }

  lemma {:induction false} RevokeAges(s: ZoneState, keyId: string)
    ensures KeysAge(s.keys, RevokeKeyZone(s, keyId).0.keys)
  {
    if keyId in s.keys && s.keys[keyId].state != Revoked {
      RevocationAges(s.keys, keyId);
    }
  }

  /**
   A revocation, in full. It succeeds exactly for a known key that is not revoked; the key is
   then revoked and without expiry, but has its name, secret and generation still; and nothing
   else changes, as nothing does when it fails.
   */
  lemma {:induction false} RevocationIsExact(st: Store, zone: string, id: string)
    ensures var (st', failure) := RevokeKey(st, zone, id);
            && (failure.None? <==> zone in st.zones && id in st.zones[zone].keys && st.zones[zone].keys[id].state != Revoked)
            && (failure.Some? ==>
                  && st' == st
                  && failure.value == if zone !in st.zones then ZoneNotFound
                                      else if id !in st.zones[zone].keys then KeyNotFound
                                      else KeyStateInvalid)
            && (failure.None? ==>
                  && OnlyKeysChange(st, st', zone)
                  && var keys, keys' := st.zones[zone].keys, st'.zones[zone].keys;
                  && keys'.Keys == keys.Keys
                  && keys'[id] == KeyRow(keys[id].gen, keys[id].keyName, keys[id].secret, Revoked, None)
                  && (forall other :: other in keys && other != id ==> keys'[other] == keys[other]))
  {
    if zone in st.zones {
      assert st.zones[zone := st.zones[zone]] == st.zones;
    }
  }

  // ---------------------------------------------------------------------------
  // Resolution
  // ---------------------------------------------------------------------------

  /** An instant rounded up to the next whole second. */
  function RoundUp(instant: int): int {
    (instant + 999) / 1000 * 1000
  }

  lemma {:induction false} WholeSecondsBefore(now: int, expiry: int)
    ensures WholeSeconds(now) < expiry <==> now < RoundUp(expiry)
    ensures expiry <= RoundUp(expiry) <= expiry + 999
  {
  }

  /** At most one key of a name is not revoked, so the highest generation never has to decide. */
  lemma {:induction false} OneLiveKey(keys: map<string, KeyRow>, name: string, a: string, b: string)
    requires KeysWellFormed(keys) && a in keys && b in keys && IsLive(keys[a], name) && IsLive(keys[b], name)
    ensures a == b
  {
  }

  /**
   Which key is used, exactly: the one live key of that name, if the request's time is within
   its fudge, and if the key is active or its expiry, rounded up to a whole second, is still
   to come. A retiring key is thus never accepted more than 998 ms after its expiry.
   */
  lemma {:induction false} ResolutionIsExact(keys: map<string, KeyRow>, name: string, t: TsigData, now: int, id: string)
    requires KeysWellFormed(keys)
    ensures ResolveKey(keys, name, t, now) == Ok(id)
        <==> && id in keys && IsLive(keys[id], name)
             && VerifyTsigTime(t.time, t.fudge, now / 1000)
             && (keys[id].state == Active || now < RoundUp(keys[id].expiresAt.value))
    ensures ResolveKey(keys, name, t, now) == Ok(id) && keys[id].state == Retiring ==> now - keys[id].expiresAt.value <= 998
  {
    if id in keys && keys[id].expiresAt.Some? {
      WholeSecondsBefore(now, keys[id].expiresAt.value);
    }
    var r := ResolveKey(keys, name, t, now);
    if r.Ok? {
      assert Candidate(keys, name, now, r.value);
      if id in keys && IsLive(keys[id], name) {
        OneLiveKey(keys, name, r.value, id);
      }
    } else if id in keys && IsLive(keys[id], name) && VerifyTsigTime(t.time, t.fudge, now / 1000)
              && (keys[id].state == Active || now < RoundUp(keys[id].expiresAt.value)) {
      assert Candidate(keys, name, now, id);
    }
  }

  /**
   A retiring key is accepted up to the last millisecond of the second in which it expires, and
   not after. That is the full 998 ms late exactly if it expires just after a whole second.
   */
  lemma {:induction false} LastAcceptedInstant(keys: map<string, KeyRow>, name: string, t: TsigData, id: string)
    requires KeysWellFormed(keys) && id in keys && IsLive(keys[id], name) && keys[id].state == Retiring
    requires VerifyTsigTime(t.time, t.fudge, (RoundUp(keys[id].expiresAt.value) - 1) / 1000)
    ensures var last := RoundUp(keys[id].expiresAt.value) - 1;
            && ResolveKey(keys, name, t, last) == Ok(id)
            && (forall now :: now > last ==> ResolveKey(keys, name, t, now) != Ok(id))
            && (last - keys[id].expiresAt.value == 998 <==> keys[id].expiresAt.value % 1000 == 1)
  {
    var last := RoundUp(keys[id].expiresAt.value) - 1;
    ResolutionIsExact(keys, name, t, last, id);
    forall now | now > last ensures ResolveKey(keys, name, t, now) != Ok(id) {
      ResolutionIsExact(keys, name, t, now, id);
    }
  }

  /** Once a key is revoked, no request is checked against it, whatever name and time it gives. */
  lemma {:induction false} RevokedIsNeverResolved(st: Store, zone: string, id: string, name: string, t: TsigData, now: int)
    requires RevokeKey(st, zone, id).1.None?
    ensures var st' := RevokeKey(st, zone, id).0;
            zone in st'.zones && ResolveKey(st'.zones[zone].keys, name, t, now) != Ok(id)
  {
    RevocationIsExact(st, zone, id);
  }
}
