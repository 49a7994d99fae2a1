/** Exactly which requests a transfer is authorized for, and what the others are told. */
module Authorization {
  import opened Basics
  import opened NameCodec
  import opened Wire
  import opened QueryParser
  import opened Signing
  import opened Store
  import opened History
  import opened Transfer
  import opened Plans
  import opened KeyFacts

  // ---------------------------------------------------------------------------
  // Key, time and MAC of a request
  // ---------------------------------------------------------------------------

  /** The request's time is within its fudge of the server's clock, and the fudge within its bounds. */
  predicate InWindow(time: int, fudge: int, now: int) {
    1 <= fudge <= 300 && -fudge <= now / 1000 - time <= fudge
  }

  predicate HasLiveKey(keys: map<string, KeyRow>, name: string) {
    exists id :: id in keys && keys[id].keyName == name && keys[id].state != Revoked
  }

  /** The key has this name, is not revoked, and has not expired by the clock cut to whole seconds. */
  predicate InForce(keys: map<string, KeyRow>, id: string, name: string, now: int) {
    && id in keys && keys[id].keyName == name && keys[id].state != Revoked
    && (keys[id].state == Active || (keys[id].expiresAt.Some? && now < RoundUp(keys[id].expiresAt.value)))
  }

  /** What stands in front of the TSIG record, with the count of additional records put in, and the TSIG variables. */
  function SignedOctets(q: Query, owner: Bytes): Bytes
    requires q.tsig.Some? && TsigFound(q.raw, q.tsig) && IsU16(q.arcount) && |q.tsig.value.data.other| <= 65510
  {
    var t := q.tsig.value;
    (q.raw[..10] + U16(q.arcount) + q.raw[12..t.offset])
    + VariableOctets(owner, t.data.time, t.data.fudge, t.data.error, t.data.other)
  }

  /** The request has something to sign: its key name has a wire form, and its other data is of bearable length. */
  predicate CanBeHashed(q: Query)
    requires q.tsig.Some?
  {
    EncodeName(q.tsig.value.name).Ok? && |q.tsig.value.data.other| <= 65510
  }

  /** The request carries the MAC of its own octets under this secret. */
  predicate Signed(hmac: Hmac, secret: Bytes, q: Query)
    requires q.tsig.Some? && TsigFound(q.raw, q.tsig) && IsU16(q.arcount)
  {
    CanBeHashed(q) && q.tsig.value.data.mac == hmac(secret, SignedOctets(q, EncodeName(q.tsig.value.name).value))
  }

  /** The key `id` is in force, the request is in time, and signed with its secret. */
  predicate Authentic(hmac: Hmac, keys: map<string, KeyRow>, id: string, q: Query, now: int)
    requires q.tsig.Some? && TsigFound(q.raw, q.tsig) && IsU16(q.arcount)
  {
    InForce(keys, id, q.tsig.value.name, now) && InWindow(q.tsig.value.data.time, q.tsig.value.data.fudge, now) && Signed(hmac, keys[id].secret, q)
  }

  lemma {:induction false} ExpectedMacIs(hmac: Hmac, secret: Bytes, q: Query)
    requires q.tsig.Some? && TsigFound(q.raw, q.tsig) && IsU16(q.arcount)
    ensures ExpectedRequestMac(hmac, secret, q).Ok? <==> CanBeHashed(q)
    ensures CanBeHashed(q) ==> ExpectedRequestMac(hmac, secret, q) == Ok(hmac(secret, SignedOctets(q, EncodeName(q.tsig.value.name).value)))
  {
    if CanBeHashed(q) {
      var t := q.tsig.value;
      VariablesAre(EncodeName(t.name).value, t.data.time, t.data.fudge, t.data.error, t.data.other);
      var front := q.raw[..t.offset];
      assert front[..10] == q.raw[..10] && front[12..] == q.raw[12..t.offset];
      assert PatchArcount(Slice(q.raw, 0, t.offset), q.arcount) == q.raw[..10] + U16(q.arcount) + q.raw[12..t.offset];
    }
  }

  // ---------------------------------------------------------------------------
  // The verdict
  // ---------------------------------------------------------------------------

  lemma {:induction false} TimeTest(time: int, fudge: int, now: int)
    ensures VerifyTsigTime(time, fudge, now / 1000) <==> InWindow(time, fudge, now)
  {
  }

  /** The key a request is checked against, or why there is none, in the words of this module. */
  lemma {:induction false} ResolvesTo(keys: map<string, KeyRow>, name: string, t: TsigData, now: int)
    requires KeysWellFormed(keys)
    ensures match ResolveKey(keys, name, t, now)
            case Ok(id) => InWindow(t.time, t.fudge, now) && InForce(keys, id, name, now)
            case Err(denial) =>
              && (denial == BadTime <==> HasLiveKey(keys, name) && !InWindow(t.time, t.fudge, now))
              && (denial == BadKey <==> !HasLiveKey(keys, name) || (InWindow(t.time, t.fudge, now) && forall id :: !InForce(keys, id, name, now)))
              && (denial == BadTime || denial == BadKey)
    ensures ResolveKey(keys, name, t, now).Ok? <==> InWindow(t.time, t.fudge, now) && exists id :: InForce(keys, id, name, now)
  {
    TimeTest(t.time, t.fudge, now);
    forall id ensures ResolveKey(keys, name, t, now) == Ok(id) <==> InForce(keys, id, name, now) && InWindow(t.time, t.fudge, now) {
      ResolutionIsExact(keys, name, t, now, id);
    }
  }

  lemma {:induction false} OneKeyInForce(keys: map<string, KeyRow>, name: string, now: int, a: string, b: string)
    requires KeysWellFormed(keys) && InForce(keys, a, name, now) && InForce(keys, b, name, now)
    ensures a == b
  {
    OneLiveKey(keys, name, a, b);
  }

  /** The outcome once the key is resolved. */
  lemma {:induction false} WithKey(hmac: Hmac, st: Store, q: Query, ref: string, now: int, id: string)
    requires TransferQuery(q) && q.tsig.Some? && q.qname in st.zones
    requires ResolveKey(st.zones[q.qname].keys, q.tsig.value.name, q.tsig.value.data, now) == Ok(id)
    requires Scope(st.zones[q.qname], q).Some?
    ensures var outcome, key := Authorize(hmac, st, q, ref, now).1, st.zones[q.qname].keys[id];
            && (outcome == Denied(BadSig) <==> CanBeHashed(q) && !Signed(hmac, key.secret, q))
            && (outcome.Denied? ==> outcome.denial == BadSig)
            && (outcome.Authorized? <==> Signed(hmac, key.secret, q) && !RefTaken(st.zones, ref))
            && (outcome.Authorized? ==> outcome.plan.secret == key.secret && outcome.plan.keyGen == key.gen)
  {
    ExpectedMacIs(hmac, st.zones[q.qname].keys[id].secret, q);
  }

  lemma {:induction false} WithoutKey(hmac: Hmac, st: Store, q: Query, ref: string, now: int)
    requires TransferQuery(q) && q.tsig.Some? && q.qname in st.zones
    requires ResolveKey(st.zones[q.qname].keys, q.tsig.value.name, q.tsig.value.data, now).Err?
    ensures Authorize(hmac, st, q, ref, now).1
         == Denied(ResolveKey(st.zones[q.qname].keys, q.tsig.value.name, q.tsig.value.data, now).error)
  {
  }

  lemma {:induction false} ScopeIsFound(st: Store, q: Query)
    requires Inv(st) && TransferQuery(q) && q.qname in st.zones
    ensures Scope(st.zones[q.qname], q).Some? && KeysWellFormed(st.zones[q.qname].keys)
  {
    InvAt(st, q.qname);
    ScopeExists(st.zones[q.qname].row.currentVersion, st.zones[q.qname], q);
  }

  /** Some key makes the request authentic in its zone. */
  ghost predicate IsGenuine(hmac: Hmac, st: Store, q: Query, now: int)
    requires TransferQuery(q)
  {
    q.tsig.Some? && q.qname in st.zones && exists id :: Authentic(hmac, st.zones[q.qname].keys, id, q, now)
  }

  /**
   A transfer is authorized exactly if the request is signed, for the octets it has, with the
   secret of a key of that name that is in force in the zone, and is in time. The plan is then
   that key's; whatever else happens, a request that is not authorized leaves the store alone.
   (A reference that is in use makes even a genuine request fail.)
   */
  lemma {:induction false} AuthorizedIff(hmac: Hmac, st: Store, q: Query, ref: string, now: int)
    requires Inv(st) && TransferQuery(q)
    ensures var (st', outcome) := Authorize(hmac, st, q, ref, now);
            && (outcome.Authorized? <==> IsGenuine(hmac, st, q, now) && !RefTaken(st.zones, ref))
            && (!outcome.Authorized? ==> st' == st)
    ensures var outcome := Authorize(hmac, st, q, ref, now).1;
            outcome.Authorized? ==>
              forall id :: Authentic(hmac, st.zones[q.qname].keys, id, q, now) ==>
                             outcome.plan.secret == st.zones[q.qname].keys[id].secret && outcome.plan.keyGen == st.zones[q.qname].keys[id].gen
  {
    if q.tsig.Some? && q.qname in st.zones {
      var keys, t := st.zones[q.qname].keys, q.tsig.value;
      ScopeIsFound(st, q);
      ResolvesTo(keys, t.name, t.data, now);
      var r := ResolveKey(keys, t.name, t.data, now);
      if r.Ok? {
        WithKey(hmac, st, q, ref, now, r.value);
        forall id | Authentic(hmac, keys, id, q, now) ensures id == r.value {
          OneKeyInForce(keys, t.name, now, id, r.value);
        }
        assert Signed(hmac, keys[r.value].secret, q) ==> Authentic(hmac, keys, r.value, q, now);
      } else {
        WithoutKey(hmac, st, q, ref, now);
      }
    }
  }

  /**
   What a refused request is told: no TSIG record; no zone, no live key of that name, or none in
   force; a time out of its window; or a MAC that is not that of its octets under the key in force.
   */
  lemma {:induction false} DenialIsExact(hmac: Hmac, st: Store, q: Query, ref: string, now: int)
    requires Inv(st) && TransferQuery(q)
    ensures Authorize(hmac, st, q, ref, now).1 == Denied(NoTsig) <==> q.tsig.None?
    ensures q.tsig.Some? && q.qname !in st.zones ==> Authorize(hmac, st, q, ref, now).1 == Denied(BadKey)
    ensures q.tsig.Some? && q.qname in st.zones ==>
              var outcome, keys, t := Authorize(hmac, st, q, ref, now).1, st.zones[q.qname].keys, q.tsig.value;
              && (outcome == Denied(BadTime) <==> HasLiveKey(keys, t.name) && !InWindow(t.data.time, t.data.fudge, now))
              && (outcome == Denied(BadKey) <==>
                    !HasLiveKey(keys, t.name) || (InWindow(t.data.time, t.data.fudge, now) && forall id :: !InForce(keys, id, t.name, now)))
              && (outcome == Denied(BadSig) <==>
                    && InWindow(t.data.time, t.data.fudge, now) && CanBeHashed(q)
                    && exists id :: InForce(keys, id, t.name, now) && !Signed(hmac, keys[id].secret, q))
  {
    if q.tsig.Some? && q.qname in st.zones {
      var keys, t := st.zones[q.qname].keys, q.tsig.value;
      ScopeIsFound(st, q);
      ResolvesTo(keys, t.name, t.data, now);
      var r := ResolveKey(keys, t.name, t.data, now);
      if r.Ok? {
        WithKey(hmac, st, q, ref, now, r.value);
        forall id | InForce(keys, id, t.name, now) ensures id == r.value {
          OneKeyInForce(keys, t.name, now, id, r.value);
        }
      } else {
        WithoutKey(hmac, st, q, ref, now);
      }
    }
  }
}
