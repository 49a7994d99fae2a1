/** What holds over whole runs: the ledger, the keys, and the safety of pinned transfers. */
module RunFacts {
  import opened Basics
  import opened Errors
  import opened QueryParser
  import opened Signing
  import opened Changeset
  import opened Fingerprint
  import opened Store
  import opened History
  import opened Transfer
  import opened Plans
  import opened CleanupFacts
  import opened PublishFacts
  import opened Requests
  import opened Retries
  import opened KeyFacts
  import opened Moves
  import opened Runs

  lemma {:induction false} RunStep(hmac: Hmac, states: seq<Store>, steps: seq<Step>, i: nat, zone: string)
    requires IsRun(hmac, states, steps) && i < |steps| && zone in states[i].zones
    ensures Enabled(states[i], steps[i]) && zone in states[i + 1].zones
    ensures states[i + 1].zones[zone] == Moved(zone, states[i].zones[zone], MoveOf(hmac, states[i], zone, steps[i]))
  {
    assert StepOf(hmac, states[i], steps[i], states[i + 1]);
    StepIsMove(hmac, states[i], zone, steps[i]);
  }

  /** What one step carries on, a stretch of a run carries on. */
  lemma {:induction false} Onwards(holds: nat -> bool, i: nat, j: nat)
    requires i <= j && holds(i)
    requires forall k :: i <= k < j && holds(k) ==> holds(k + 1)
    ensures holds(j)
    decreases j
  {
    if i < j {
      Onwards(holds, i, j - 1);
    }
  }

  // ---------------------------------------------------------------------------
  // The ledger
  // ---------------------------------------------------------------------------

  /** The ledger of a zone has this row for the request. */
  predicate Recorded(st: Store, zone: string, id: string, row: LedgerRow) {
    zone in st.zones && id in st.zones[zone].ledger && st.zones[zone].ledger[id] == row
  }

  lemma {:induction false} StepKeepsRow(hmac: Hmac, states: seq<Store>, steps: seq<Step>, i: nat, zone: string, id: string, row: LedgerRow)
    requires IsRun(hmac, states, steps) && i < |steps| && Recorded(states[i], zone, id, row)
    ensures Recorded(states[i + 1], zone, id, row)
  {
    RunStep(hmac, states, steps, i, zone);
    MoveKeepsLedger(zone, states[i].zones[zone], MoveOf(hmac, states[i], zone, steps[i]), id);
  }

  /** Once a request is in the ledger, its row stays, whatever happens. */
  lemma {:induction false} LedgerIsForever(hmac: Hmac, states: seq<Store>, steps: seq<Step>, i: nat, j: nat, zone: string, id: string, row: LedgerRow)
    requires IsRun(hmac, states, steps) && i <= j < |states| && Recorded(states[i], zone, id, row)
    ensures Recorded(states[j], zone, id, row)
  {
    var holds := (k: nat) => k < |states| && Recorded(states[k], zone, id, row);
    forall k: nat | i <= k < j && holds(k) ensures holds(k + 1) {
      StepKeepsRow(hmac, states, steps, k, zone, id, row);
    }
    Onwards(holds, i, j);
  }

  /** A later submission under a recorded identifier, by its fingerprint. */
  lemma {:induction false} SecondSubmission(hmac: Hmac, states: seq<Store>, steps: seq<Step>, i: nat, j: nat, zone: string, first: Request, again: Request)
    requires IsRun(hmac, states, steps) && i < j < |steps|
    requires steps[i] == Submit(zone, first) && steps[j] == Submit(zone, again) && first.id == again.id
    requires zone in states[i].zones && first.id !in states[i].zones[zone].ledger
    requires var result := Publish(states[i], zone, first).1; IsFresh(result) || IsRecorded(result)
    ensures states[j + 1] == states[j]
    ensures Publish(states[j], zone, again).1
         == if again.fingerprint == first.fingerprint then AsReplay(Publish(states[i], zone, first).1)
            else Refused(IdempotencyConflict, false)
  {
    var s := states[i].zones[zone];
    FirstOutcomeIsRecorded(zone, s, first);
    RunStep(hmac, states, steps, i, zone);
    assert states[i + 1].zones[zone] == PublishZone(zone, s, first).0;
    FingerprintRecorded(zone, s, first);
    LedgerIsForever(hmac, states, steps, i + 1, j, zone, first.id, states[i + 1].zones[zone].ledger[first.id]);
    RetryIsReplay(states[j], zone, again);
    assert StepOf(hmac, states[j], steps[j], states[j + 1]);
  }

  /**
   Exactly once: after a request has been committed, or refused for a ledgerable reason, any
   later submission under its identifier leaves the whole store as it is. It gets the first
   outcome again, marked as a replay, if it says the same, and a conflict if not, whatever
   happened in between, cleanups of the version it made included. To say the same is to have
   the same canonical payload; the fingerprint is any hash that is injective on payloads.
   */
  lemma {:induction false} ExactlyOnce(hmac: Hmac, sha: Hash, states: seq<Store>, steps: seq<Step>, i: nat, j: nat,
                                       zone: string, first: Request, again: Request)
    requires IsRun(hmac, states, steps) && i < j < |steps|
    requires steps[i] == Submit(zone, first) && steps[j] == Submit(zone, again) && first.id == again.id
    requires IsInjective(sha) && Stamped(sha, zone, first) && Stamped(sha, zone, again)
    requires zone in states[i].zones && first.id !in states[i].zones[zone].ledger
    requires var result := Publish(states[i], zone, first).1; IsFresh(result) || IsRecorded(result)
    ensures states[j + 1] == states[j]
    ensures Publish(states[j], zone, again).1
         == if Content(zone, again) == Content(zone, first) then AsReplay(Publish(states[i], zone, first).1)
            else Refused(IdempotencyConflict, false)
  {
    SecondSubmission(hmac, states, steps, i, j, zone, first, again);
    FingerprintsTell(sha, zone, first, again);
  }

  /**
   What a replay is worth: a retry that says the same as a committed request is answered as if
   it were that request. It would itself have done what it is told, in the store in which the
   first one committed, exactly if it writes back and then deletes the same stored RRsets.
   */
  lemma {:induction false} ReplayIsTrueIff(hmac: Hmac, sha: Hash, read: Reader, states: seq<Store>, steps: seq<Step>, i: nat, j: nat,
                                           zone: string, first: Request, again: Request)
    requires IsRun(hmac, states, steps) && Inv(states[0]) && i < j < |steps|
    requires steps[i] == Submit(zone, first) && steps[j] == Submit(zone, again) && first.id == again.id
    requires IsInjective(sha) && Stamped(sha, zone, first) && Stamped(sha, zone, again) && Content(zone, again) == Content(zone, first)
    requires AllRead(read, first.changes.value) && AllRead(read, again.changes.value)
    requires zone in states[i].zones && IsFresh(PublishZone(zone, states[i].zones[zone], first).1)
    ensures states[j + 1] == states[j]
    ensures Publish(states[j], zone, again).1 == AsReplay(Publish(states[i], zone, first).1)
    ensures AllChecked(zone, first.changes.value) && AllChecked(zone, again.changes.value)
    ensures PublishZone(zone, states[i].zones[zone], again) == PublishZone(zone, states[i].zones[zone], first)
       <==> SameTurns(OpsOf(zone, first), OpsOf(zone, again), Loaded(states[i].zones[zone]))
  {
    var s := states[i].zones[zone];
    RunKeepsInv(hmac, states, steps, i);
    InvAt(states[i], zone);
    ZoneOutcomes(zone, s, first);
    FingerprintsTell(sha, zone, first, again);
    ExactlyOnce(hmac, sha, states, steps, i, j, zone, first, again);
    ReplayIsOwnOutcomeIff(zone, s, read, first, again);
  }

  lemma {:induction false} FingerprintRecorded(zone: string, s: ZoneState, req: Request)
    requires req.id !in s.ledger && req.id in PublishZone(zone, s, req).0.ledger
    ensures PublishZone(zone, s, req).0.ledger[req.id].fingerprint == req.fingerprint
  {
    ZoneOutcomes(zone, s, req);
    if IsFresh(PublishZone(zone, s, req).1) {
      SuccessIsWhole(zone, s, req);
    }
  }

  // ---------------------------------------------------------------------------
  // The keys
  // ---------------------------------------------------------------------------

  /** The zone's keys have aged from what they were. */
  ghost predicate AgedSince(keys: map<string, KeyRow>, st: Store, zone: string) {
    zone in st.zones && KeysAge(keys, st.zones[zone].keys)
  }

  lemma {:induction false} StepAgesKeys(hmac: Hmac, states: seq<Store>, steps: seq<Step>, i: nat, zone: string, keys: map<string, KeyRow>)
    requires IsRun(hmac, states, steps) && i < |steps| && AgedSince(keys, states[i], zone)
    ensures AgedSince(keys, states[i + 1], zone)
  {
    RunStep(hmac, states, steps, i, zone);
    MoveAgesKeys(zone, states[i].zones[zone], MoveOf(hmac, states[i], zone, steps[i]));
    KeysAgeTransitive(keys, states[i].zones[zone].keys, states[i + 1].zones[zone].keys);
  }

  /** Over any stretch of any run keys only age, revoked ones for good, and new ones come with higher generations. */
  lemma {:induction false} KeysOnlyAge(hmac: Hmac, states: seq<Store>, steps: seq<Step>, i: nat, j: nat, zone: string)
    requires IsRun(hmac, states, steps) && i <= j < |states| && zone in states[i].zones
    ensures zone in states[j].zones && KeysAge(states[i].zones[zone].keys, states[j].zones[zone].keys)
  {
    var keys := states[i].zones[zone].keys;
    var holds := (k: nat) => k < |states| && AgedSince(keys, states[k], zone);
    forall k: nat | i <= k < j && holds(k) ensures holds(k + 1) {
      StepAgesKeys(hmac, states, steps, k, zone, keys);
    }
    Onwards(holds, i, j);
  }

  lemma {:induction false} RevokedStays(hmac: Hmac, states: seq<Store>, steps: seq<Step>, i: nat, j: nat, zone: string, id: string)
    requires IsRun(hmac, states, steps) && i <= j < |states| && zone in states[i].zones
    requires id in states[i].zones[zone].keys && states[i].zones[zone].keys[id].state == Revoked
    ensures zone in states[j].zones && id in states[j].zones[zone].keys && states[j].zones[zone].keys[id].state == Revoked
  {
    KeysOnlyAge(hmac, states, steps, i, j, zone);
    assert Ages(states[i].zones[zone].keys[id], states[j].zones[zone].keys[id]);
  }

  /**
   A revocation is for good: after the step that revokes a key, the key is revoked in every
   state of the run, and no request of whatever name and time is checked against it at any clock.
   */
  lemma {:induction false} RevokedForGood(hmac: Hmac, states: seq<Store>, steps: seq<Step>, i: nat, j: nat, zone: string, id: string)
    requires IsRun(hmac, states, steps) && i < j < |states|
    requires steps[i] == Revoke(zone, id) && zone in states[i].zones && id in states[i].zones[zone].keys
    ensures zone in states[j].zones && id in states[j].zones[zone].keys && states[j].zones[zone].keys[id].state == Revoked
    ensures forall name, t, now :: ResolveKey(states[j].zones[zone].keys, name, t, now) != Ok(id)
  {
    assert StepOf(hmac, states[i], steps[i], states[i + 1]);
    RevocationIsExact(states[i], zone, id);
    RevokedStays(hmac, states, steps, i + 1, j, zone, id);
    forall name, t, now ensures ResolveKey(states[j].zones[zone].keys, name, t, now) != Ok(id) {
      NeverResolvesRevoked(states[j].zones[zone].keys, name, t, now, id);
    }
  }

  lemma {:induction false} NeverResolvesRevoked(keys: map<string, KeyRow>, name: string, t: Wire.TsigData, now: int, id: string)
    requires id in keys && keys[id].state == Revoked
    ensures ResolveKey(keys, name, t, now) != Ok(id)
  {
  }

  // ---------------------------------------------------------------------------
  // Pinned transfers
  // ---------------------------------------------------------------------------

  /** The pin of a transfer is there, and names the versions it was opened for. */
  predicate PinIs(pins: map<string, Pin>, ref: string, target: nat, minVersion: nat) {
    ref in pins && pins[ref].versionId == target && pins[ref].minVersion == minVersion
  }

  /** If the step is a cleanup of the zone, the pin is open and was seen within the last 300 seconds. */
  ghost predicate Guarded(st: Store, step: Step, zone: string, ref: string) {
    step.Clean? && step.id < |st.tasks| && st.tasks[step.id].zone == zone && zone in st.zones && ref in st.zones[zone].pins ==>
      LivePin(st.zones[zone].pins[ref], AliveAfter(step.now))
  }

  lemma {:induction false} StepKeepsPin(hmac: Hmac, st: Store, step: Step, zone: string, ref: string, target: nat, minVersion: nat)
    requires zone in st.zones && Enabled(st, step) && Guarded(st, step, zone, ref)
    requires PinIs(st.zones[zone].pins, ref, target, minVersion)
    ensures zone in Next(hmac, st, step).zones && PinIs(Next(hmac, st, step).zones[zone].pins, ref, target, minVersion)
  {
    StepIsMove(hmac, st, zone, step);
    match step
    case Submit(z, req) => PublishKeepsKeys(zone, st.zones[zone], req);
    case Install(z, k, now) => InstallKeepsTables(st.zones[zone], k, now);
    case Open(q, r, now) => AuthorizeMovesPins(hmac, st, zone, q, r, now);
    case _ =>
  }

  /** What a transfer's pin guards: itself, and the window of versions the transfer reads. */
  ghost predicate Kept(a: ZoneState, s: ZoneState, ref: string, target: nat, minVersion: nat) {
    PinIs(s.pins, ref, target, minVersion) && SameWindow(a, s, minVersion, target)
  }

  lemma {:induction false} StepKeepsTransfer(hmac: Hmac, st: Store, step: Step, zone: string, a: ZoneState, ref: string, target: nat, minVersion: nat)
    requires Inv(st) && zone in st.zones && Enabled(st, step) && Guarded(st, step, zone, ref) && minVersion <= target
    requires Kept(a, st.zones[zone], ref, target, minVersion)
    ensures zone in Next(hmac, st, step).zones && Kept(a, Next(hmac, st, step).zones[zone], ref, target, minVersion)
  {
    var s, move := st.zones[zone], MoveOf(hmac, st, zone, step);
    InvAt(st, zone);
    StepKeepsPin(hmac, st, step, zone, ref, target, minVersion);
    StepIsMove(hmac, st, zone, step);
    if move.Cleaning? {
      forall v | minVersion <= v <= target ensures Pinned(s, v, AliveAfter(move.now)) {
        assert LivePin(s.pins[ref], AliveAfter(move.now)) && PinFloor(s.pins[ref]) <= v;
      }
    }
    MoveKeepsWindow(zone, a, s, move, minVersion, target);
  }

  /** The zone is there, and the transfer's pin and window are kept in it. */
  ghost predicate KeptIn(st: Store, zone: string, a: ZoneState, ref: string, target: nat, minVersion: nat) {
    zone in st.zones && Kept(a, st.zones[zone], ref, target, minVersion)
  }

  lemma {:induction false} RunStepKeepsTransfer(hmac: Hmac, states: seq<Store>, steps: seq<Step>, i: nat, zone: string,
                                                a: ZoneState, ref: string, target: nat, minVersion: nat)
    requires IsRun(hmac, states, steps) && Inv(states[0]) && i < |steps| && minVersion <= target
    requires KeptIn(states[i], zone, a, ref, target, minVersion) && Guarded(states[i], steps[i], zone, ref)
    ensures KeptIn(states[i + 1], zone, a, ref, target, minVersion)
  {
    RunKeepsInv(hmac, states, steps, i);
    assert StepOf(hmac, states[i], steps[i], states[i + 1]);
    StepKeepsTransfer(hmac, states[i], steps[i], zone, a, ref, target, minVersion);
  }

  lemma {:induction false} RunKeepsTransfer(hmac: Hmac, states: seq<Store>, steps: seq<Step>, i: nat, j: nat, zone: string,
                                            a: ZoneState, ref: string, target: nat, minVersion: nat)
    requires IsRun(hmac, states, steps) && Inv(states[0]) && i <= j < |states| && minVersion <= target
    requires KeptIn(states[i], zone, a, ref, target, minVersion)
    requires forall k :: i <= k < j ==> Guarded(states[k], steps[k], zone, ref)
    ensures KeptIn(states[j], zone, a, ref, target, minVersion)
  {
    var holds := (k: nat) => k < |states| && KeptIn(states[k], zone, a, ref, target, minVersion);
    forall k: nat | i <= k < j && holds(k) ensures holds(k + 1) {
      RunStepKeepsTransfer(hmac, states, steps, k, zone, a, ref, target, minVersion);
    }
    Onwards(holds, i, j);
  }

  /** Right after its authorization a transfer is guarded by its pin. */
  lemma {:induction false} OpenedIsKept(hmac: Hmac, st: Store, q: Query, ref: string, now: int)
    requires Inv(st) && TransferQuery(q) && Authorize(hmac, st, q, ref, now).1.Authorized?
    ensures var (st', outcome) := Authorize(hmac, st, q, ref, now);
            && q.qname in st.zones && q.qname in st'.zones
            && outcome.plan.minVersion <= outcome.plan.targetVersion
            && Kept(st.zones[q.qname], st'.zones[q.qname], ref, outcome.plan.targetVersion, outcome.plan.minVersion)
  {
    AuthorizedPlan(hmac, st, q, ref, now);
    var (st', outcome) := Authorize(hmac, st, q, ref, now);
    InvAt(st, q.qname);
    var s, t, plan := st.zones[q.qname], st'.zones[q.qname], outcome.plan;
    forall v: nat | plan.minVersion <= v <= plan.targetVersion ensures SameVersion(s, t, v) {
      assert v in s.versions;
    }
  }

  /**
   Safety of pinned transfers, over whole runs. If at every cleanup of the zone between the
   authorization and the first read the pin was open and last seen strictly less than 300
   seconds before, then the transfer streams the records it would have streamed at once,
   whatever publishes, rotations, revocations, retention changes and cleanups came between.
   */
  lemma {:induction false} PinnedTransferIsSafe(hmac: Hmac, states: seq<Store>, steps: seq<Step>, i: nat, j: nat, q: Query, ref: string, now: int)
    requires IsRun(hmac, states, steps) && Inv(states[0]) && i < j < |states|
    requires steps[i] == Open(q, ref, now) && TransferQuery(q) && Authorize(hmac, states[i], q, ref, now).1.Authorized?
    requires forall k :: i < k < j ==> Guarded(states[k], steps[k], q.qname, ref)
    ensures var plan := Authorize(hmac, states[i], q, ref, now).1.plan;
            && q.qname in states[i].zones && q.qname in states[j].zones
            && Stream(states[j].zones[q.qname], plan, q.clientSerial) == Stream(states[i].zones[q.qname], plan, q.clientSerial)
  {
    var plan, zone := Authorize(hmac, states[i], q, ref, now).1.plan, q.qname;
    RunKeepsInv(hmac, states, steps, i);
    RunKeepsInv(hmac, states, steps, j);
    AuthorizedPlan(hmac, states[i], q, ref, now);
    OpenedIsKept(hmac, states[i], q, ref, now);
    assert StepOf(hmac, states[i], steps[i], states[i + 1]);
    RunKeepsTransfer(hmac, states, steps, i + 1, j, zone, states[i].zones[zone], ref, plan.targetVersion, plan.minVersion);
    InvAt(states[i], zone);
    InvAt(states[j], zone);
    StreamsAgree(states[i].zones[zone], states[j].zones[zone], plan, q.clientSerial);
  }
}
