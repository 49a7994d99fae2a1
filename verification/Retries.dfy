/**
 Retries of a publish, told apart by what they say. A fingerprint stands for the canonical
 payload of its request, and the store compares fingerprints only; so a retry may be answered
 with the outcome of a request that says the same in another order.
 */
module Retries {
  import opened Basics
  import opened Errors
  import opened Ordering
  import opened Records
  import opened Changeset
  import opened Fingerprint
  import opened Store
  import opened History
  import opened PublishFacts
  import opened Requests

  // ---------------------------------------------------------------------------
  // Fingerprints
  // ---------------------------------------------------------------------------

  type Hash = Payload -> string

  /** What is asked of SHA-256: no two payloads share a hash. */
  ghost predicate IsInjective(sha: Hash) {
    forall p, q {:trigger sha(p), sha(q)} :: sha(p) == sha(q) ==> p == q
  }

  /** What a request says, or the failure with which the API layer ends it. */
  function Content(zone: string, req: Request): Result<Payload, ErrorCode> {
    if req.changes.None? then Err(ChangesetInvalid)
    else PayloadOf(zone, req.baseSerial, req.nextSerial, req.changes.value)
  }

  /** The request carries the hash of what it says, as every request does that reaches the store. */
  predicate Stamped(sha: Hash, zone: string, req: Request) {
    Content(zone, req).Ok? && req.fingerprint == sha(Content(zone, req).value)
  }

  lemma {:induction false} FingerprintsTell(sha: Hash, zone: string, a: Request, b: Request)
    requires IsInjective(sha) && Stamped(sha, zone, a) && Stamped(sha, zone, b)
    ensures a.fingerprint == b.fingerprint <==> Content(zone, a) == Content(zone, b)
  {
  }

  // ---------------------------------------------------------------------------
  // What a retry would have done itself
  // ---------------------------------------------------------------------------

  /** A stored RRset is written back and then deleted by the one list exactly if by the other. */
  ghost predicate SameTurns(a: seq<Op>, b: seq<Op>, loaded: RRsets) {
    forall k :: k in loaded ==> (RestoresThenDeletes(OpsFor(a, k), loaded[k]) <==> RestoresThenDeletes(OpsFor(b, k), loaded[k]))
  }

  /** The operations of a request whose operations all pass their checks. */
  function OpsOf(zone: string, req: Request): seq<Op>
    requires req.changes.Some? && AllChecked(zone, req.changes.value)
  {
    Checked(zone, req.changes.value)
  }

  lemma {:induction false} AttemptedOps(zone: string, s: ZoneState, req: Request)
    requires Attempt(zone, s, req).Ok?
    ensures req.changes.Some? && AllChecked(zone, req.changes.value)
    ensures Attempt(zone, s, req).value == ApplyAll(OpsOf(zone, req), Working(Loaded(s), {}))
  {
    ApplyRawIsApplyAll(zone, req.changes.value, Working(Loaded(s), {}));
  }

  /** Of two requests that say the same, the one passes the checks of its operations with the other. */
  lemma {:induction false} SaysTheSame(zone: string, read: Reader, a: Request, b: Request)
    requires a.changes.Some? && b.changes.Some? && AllRead(read, a.changes.value) && AllRead(read, b.changes.value)
    requires AllChecked(zone, a.changes.value) && Content(zone, a) == Content(zone, b)
    ensures AllChecked(zone, b.changes.value) && SameSorted(OpsOf(zone, a), OpsOf(zone, b))
    ensures a.baseSerial == b.baseSerial && a.nextSerial == b.nextSerial
  {
    SamePayloadChecked(zone, read, a.baseSerial, a.nextSerial, a.changes.value, b.baseSerial, b.nextSerial, b.changes.value);
    SamePayloadSameSorted(zone, read, a.baseSerial, a.nextSerial, a.changes.value, b.baseSerial, b.nextSerial, b.changes.value);
  }

  lemma {:induction false} NotEmptied(a: Request, b: Request, zone: string)
    requires a.changes.Some? && b.changes.Some? && AllChecked(zone, a.changes.value) && AllChecked(zone, b.changes.value)
    requires a.changes.value != [] && SameSorted(OpsOf(zone, a), OpsOf(zone, b))
    ensures b.changes.value != []
  {
    StableSortSorts(OpsOf(zone, a), OpOrder);
    StableSortSorts(OpsOf(zone, b), OpOrder);
    assert OpsOf(zone, a)[0] in multiset(OpsOf(zone, a));
  }

  /** Requests with the same serials and the same effect on the map are attempted alike. */
  lemma {:induction false} SameAttempt(zone: string, s: ZoneState, a: Request, b: Request)
    requires Attempt(zone, s, a).Ok? && a.baseSerial == b.baseSerial && a.nextSerial == b.nextSerial
    requires b.changes.Some? && b.changes.value != [] && AllChecked(zone, b.changes.value)
    requires ApplyAll(OpsOf(zone, b), Working(Loaded(s), {})) == Attempt(zone, s, a).value
    ensures Attempt(zone, s, b) == Attempt(zone, s, a)
  {
    ApplyRawIsApplyAll(zone, b.changes.value, Working(Loaded(s), {}));
    assert ApplyChanges(zone, b.changes, Working(Loaded(s), {})) == Ok(Attempt(zone, s, a).value);
  }

  lemma {:induction false} SameCommit(zone: string, s: ZoneState, a: Request, b: Request, w: Working)
    requires a.id == b.id && a.nextSerial == b.nextSerial && a.fingerprint == b.fingerprint
    ensures CommitPublish(zone, s, a, w) == CommitPublish(zone, s, b, w)
  {
  }

  /** Only identifier, serial, fingerprint and outcome of the checks go into the tables. */
  lemma {:induction false} SamePublish(zone: string, s: ZoneState, a: Request, b: Request, w: Working)
    requires a.id == b.id && a.nextSerial == b.nextSerial && a.fingerprint == b.fingerprint && a.id !in s.ledger
    requires Attempt(zone, s, a) == Ok(w) == Attempt(zone, s, b)
    ensures PublishZone(zone, s, a) == PublishZone(zone, s, b)
  {
    SameCommit(zone, s, a, b, w);
    GoodAttemptConcludes(zone, s, a, w, CommitPublish(zone, s, a, w));
    GoodAttemptConcludes(zone, s, b, w, CommitPublish(zone, s, b, w));
  }

  lemma {:induction false} DifferentKeys(a: RRsets, b: RRsets)
    requires RRsetsOk(a) && RRsetsOk(b) && a.Keys != b.Keys
    ensures Flatten(a) != Flatten(b)
  {
    FlattenOk(a);
    FlattenOk(b);
  }

  lemma {:induction false} DifferentTurns(a: seq<Op>, b: seq<Op>, loaded: RRsets)
    requires RRsetsOk(loaded) && SameSorted(a, b) && !SameTurns(a, b, loaded)
    ensures ApplyAll(a, Working(loaded, {})).rrsets.Keys != ApplyAll(b, Working(loaded, {})).rrsets.Keys
  {
    var k :| k in loaded && RestoresThenDeletes(OpsFor(a, k), loaded[k]) != RestoresThenDeletes(OpsFor(b, k), loaded[k]);
    if RestoresThenDeletes(OpsFor(a, k), loaded[k]) {
      DeletedOrRestored(a, b, loaded, k);
    } else {
      DeletedOrRestored(b, a, loaded, k);
    }
  }

  lemma {:induction false} AttemptIsProper(zone: string, s: ZoneState, req: Request, w: Working)
    requires ZoneInv(zone, s) && Attempt(zone, s, req) == Ok(w)
    ensures RRsetsOk(w.rrsets)
  {
    AttemptOutcome(zone, s, req, RecordsOf(s, s.row.currentVersion), w);
  }

  lemma {:induction false} CommittedRecords(zone: string, s: ZoneState, req: Request, w: Working)
    ensures RecordsOf(CommitPublish(zone, s, req, w), s.row.currentVersion + 1) == Flatten(w.rrsets)
  {
  }

  lemma {:induction false} OtherRecords(zone: string, s: ZoneState, a: Request, v: Working, b: Request, w: Working)
    requires RRsetsOk(v.rrsets) && RRsetsOk(w.rrsets) && v.rrsets.Keys != w.rrsets.Keys
    ensures CommitPublish(zone, s, a, v) != CommitPublish(zone, s, b, w)
  {
    CommittedRecords(zone, s, a, v);
    CommittedRecords(zone, s, b, w);
    DifferentKeys(v.rrsets, w.rrsets);
  }

  lemma {:induction false} SameTurnsSamePublish(zone: string, s: ZoneState, a: Request, b: Request)
    requires RRsetsOk(Loaded(s)) && Attempt(zone, s, a).Ok? && a.id !in s.ledger
    requires a.id == b.id && a.fingerprint == b.fingerprint && a.baseSerial == b.baseSerial && a.nextSerial == b.nextSerial
    requires a.changes.Some? && AllChecked(zone, a.changes.value) && b.changes.Some? && AllChecked(zone, b.changes.value)
    requires SameSorted(OpsOf(zone, a), OpsOf(zone, b)) && SameTurns(OpsOf(zone, a), OpsOf(zone, b), Loaded(s))
    ensures PublishZone(zone, s, a) == PublishZone(zone, s, b)
  {
    AttemptedOps(zone, s, a);
    SameSortedAgreeIff(OpsOf(zone, a), OpsOf(zone, b), Loaded(s));
    NotEmptied(a, b, zone);
    SameAttempt(zone, s, a, b);
    SamePublish(zone, s, a, b, Attempt(zone, s, a).value);
  }

  lemma {:induction false} OtherTurnsOtherPublish(zone: string, s: ZoneState, a: Request, b: Request)
    requires ZoneInv(zone, s) && IsFresh(PublishZone(zone, s, a).1) && IsFresh(PublishZone(zone, s, b).1)
    requires a.changes.Some? && AllChecked(zone, a.changes.value) && b.changes.Some? && AllChecked(zone, b.changes.value)
    requires SameSorted(OpsOf(zone, a), OpsOf(zone, b)) && !SameTurns(OpsOf(zone, a), OpsOf(zone, b), Loaded(s))
    ensures PublishZone(zone, s, a).0 != PublishZone(zone, s, b).0
  {
    FreshZone(zone, s, a);
    FreshZone(zone, s, b);
    var v, w := Attempt(zone, s, a).value, Attempt(zone, s, b).value;
    AttemptedOps(zone, s, a);
    AttemptedOps(zone, s, b);
    LoadedIsProper(zone, s);
    DifferentTurns(OpsOf(zone, a), OpsOf(zone, b), Loaded(s));
    AttemptIsProper(zone, s, a, v);
    AttemptIsProper(zone, s, b, w);
    OtherRecords(zone, s, a, v, b, w);
  }

  /**
   A retry says the same as a request that commits in `s`. The replay it gets is what it would
   have done itself, exactly if it writes back and then deletes the same stored RRsets; else
   it would have failed or left other records.
   */
  lemma {:induction false} ReplayIsOwnOutcomeIff(zone: string, s: ZoneState, read: Reader, first: Request, again: Request)
    requires ZoneInv(zone, s) && IsFresh(PublishZone(zone, s, first).1)
    requires first.changes.Some? && again.changes.Some? && AllRead(read, first.changes.value) && AllRead(read, again.changes.value)
    requires first.id == again.id && first.fingerprint == again.fingerprint && Content(zone, first) == Content(zone, again)
    ensures AllChecked(zone, first.changes.value) && AllChecked(zone, again.changes.value)
    ensures PublishZone(zone, s, again) == PublishZone(zone, s, first)
       <==> SameTurns(OpsOf(zone, first), OpsOf(zone, again), Loaded(s))
  {
    FreshZone(zone, s, first);
    AttemptedOps(zone, s, first);
    SaysTheSame(zone, read, first, again);
    LoadedIsProper(zone, s);
    ZoneOutcomes(zone, s, first);
    if SameTurns(OpsOf(zone, first), OpsOf(zone, again), Loaded(s)) {
      SameTurnsSamePublish(zone, s, first, again);
    } else if PublishZone(zone, s, again) == PublishZone(zone, s, first) {
      OtherTurnsOtherPublish(zone, s, first, again);
    }
  }

  /** No retry can be misled about a request that deletes no stored RRset which it otherwise only restores. */
  lemma {:induction false} HarmlessOrder(zone: string, s: ZoneState, a: seq<Op>, b: seq<Op>)
    requires SameSorted(a, b) && forall k :: k in Loaded(s) ==> !OnlyRestored(OpsFor(a, k), Loaded(s)[k])
    ensures SameTurns(a, b, Loaded(s))
  {
    forall k | k in Loaded(s)
      ensures !RestoresThenDeletes(OpsFor(a, k), Loaded(s)[k]) && !RestoresThenDeletes(OpsFor(b, k), Loaded(s)[k])
    {
      NeverMisled(a, b, k, Loaded(s)[k]);
    }
  }
}
