/**
 Runs of the whole service: any interleaving of zone creation, publishes, retention changes,
 key operations, transfer authorizations, heartbeats and releases, and of cleaners that claim
 tasks and work on them, at any clock readings.
 */
module Runs {
  import opened QueryParser
  import opened Signing
  import opened Store
  import opened History
  import opened StoreInvariant
  import opened Transfer
  import opened Plans
  import opened Moves

  /** One atomic step. Clock readings are in milliseconds, a claim's in seconds. */
  datatype Step =
    | Create(zone: string, z: NewZone)
    | Submit(zone: string, req: Request)
    | Retain(zone: string, retain: int)
    | Install(zone: string, k: NewKey, now: int)
    | Revoke(zone: string, keyId: string)
    | Open(q: Query, ref: string, now: int)
    | Beat(zone: string, ref: string, now: int)
    | Close(zone: string, ref: string, now: int)
    | Claim(id: nat, token: string, now: int)
    | Clean(id: nat, now: int)

  /**
   What the API layer and the parsers guarantee of a step's inputs. A cleaner may run any task,
   so also one whose lease has expired and that another worker holds by now.
   */
  ghost predicate Enabled(st: Store, step: Step) {
    match step
    case Create(zone, z) => NewZoneOk(zone, z)
    case Submit(_, req) => RequestOk(req)
    case Open(q, _, _) => TransferQuery(q)
    case Claim(id, _, now) => id < |st.tasks| && Claimable(st.tasks, id, now)
    case Clean(id, _) => id < |st.tasks|
    case _ => true
  }

  ghost function Next(hmac: Hmac, st: Store, step: Step): Store
    requires Enabled(st, step)
  {
    match step
    case Create(zone, z) => CreateZone(st, zone, z).0
    case Submit(zone, req) => Publish(st, zone, req).0
    case Retain(zone, retain) => SetRetention(st, zone, retain).0
    case Install(zone, k, now) => InstallKey(st, zone, k, now).0
    case Revoke(zone, keyId) => RevokeKey(st, zone, keyId).0
    case Open(q, ref, now) => Authorize(hmac, st, q, ref, now).0
    case Beat(zone, ref, now) => Heartbeat(st, zone, ref, now)
    case Close(zone, ref, now) => Release(st, zone, ref, now)
    case Claim(id, token, now) => ClaimTask(st, id, token, now)
    case Clean(id, now) => RunCleanup(st, id, now)
  }

  ghost predicate StepOf(hmac: Hmac, st: Store, step: Step, st': Store) {
    Enabled(st, step) && st' == Next(hmac, st, step)
  }

  /** `states` are the stores before, between and after the steps. */
  ghost predicate IsRun(hmac: Hmac, states: seq<Store>, steps: seq<Step>) {
    && |states| == |steps| + 1
    && forall i :: 0 <= i < |steps| ==> StepOf(hmac, states[i], steps[i], states[i + 1])
  }

  lemma {:induction false} StepKeepsInv(hmac: Hmac, st: Store, step: Step)
    requires Inv(st) && Enabled(st, step)
    ensures Inv(Next(hmac, st, step))
  {
    match step
    case Create(zone, z) => CreateKeepsInv(st, zone, z);
    case Submit(zone, req) => StorePublishKeepsInv(st, zone, req);
    case Retain(zone, retain) => RetentionKeepsInv(st, zone, retain);
    case Install(zone, k, now) => StoreInstallKeepsInv(st, zone, k, now);
    case Revoke(zone, keyId) => StoreRevokeKeepsInv(st, zone, keyId);
    case Open(q, ref, now) => AuthorizeKeepsInv(hmac, st, q, ref, now);
    case Beat(zone, ref, now) => PinsKeepInv(st, zone, ref, now);
    case Close(zone, ref, now) => PinsKeepInv(st, zone, ref, now);
    case Claim(id, token, now) =>
    case Clean(id, now) => StoreCleanKeepsInv(st, id, now);
  }

  /** The invariant holds in every state of every run that starts where it holds. */
  lemma {:induction false} RunKeepsInv(hmac: Hmac, states: seq<Store>, steps: seq<Step>, i: nat)
    requires IsRun(hmac, states, steps) && Inv(states[0]) && i < |states|
    ensures Inv(states[i])
  {
    if i > 0 {
      RunKeepsInv(hmac, states, steps, i - 1);
      assert StepOf(hmac, states[i - 1], steps[i - 1], states[i]);
      StepKeepsInv(hmac, states[i - 1], steps[i - 1]);
    }
  }

  /**
   Every reachable store satisfies the invariant: histories without gaps, serials distinct
   and stepping forward, snapshots servable under their version's serial, deltas linking
   them, true counters, a ledger in one-to-one correspondence with the versions, proper keys.
   */
  lemma {:induction false} ReachableInv(hmac: Hmac, states: seq<Store>, steps: seq<Step>, i: nat)
    requires IsRun(hmac, states, steps) && states[0] == Store(map[], []) && i < |states|
    ensures Inv(states[i])
  {
    EmptyStoreInv();
    RunKeepsInv(hmac, states, steps, i);
  }

  // ---------------------------------------------------------------------------
  // What a step does to one zone
  // ---------------------------------------------------------------------------

  /** The pins of a zone after a step. */
  ghost function PinsAfter(hmac: Hmac, st: Store, zone: string, step: Step): map<string, Pin>
    requires zone in st.zones && Enabled(st, step)
  {
    var next := Next(hmac, st, step);
    if zone in next.zones then next.zones[zone].pins else map[]
  }

  /** The move that a step makes in a zone that exists. */
  ghost function MoveOf(hmac: Hmac, st: Store, zone: string, step: Step): Move
    requires zone in st.zones && Enabled(st, step)
  {
    match step
    case Submit(z, req) => if z == zone then Publishing(req) else Stay
    case Retain(z, retain) => if z == zone then Retaining(retain) else Stay
    case Install(z, k, now) => if z == zone then Installing(k, now) else Stay
    case Revoke(z, keyId) => if z == zone then Revoking(keyId) else Stay
    case Open(_, _, _) => Repinning(PinsAfter(hmac, st, zone, step))
    case Beat(_, _, _) => Repinning(PinsAfter(hmac, st, zone, step))
    case Close(_, _, _) => Repinning(PinsAfter(hmac, st, zone, step))
    case Clean(id, now) => if st.tasks[id].zone == zone then Cleaning(now) else Stay
    case _ => Stay
  }

  /** Zones never go away, and each step moves each of them in one of the ways above. */
  lemma {:induction false} StepIsMove(hmac: Hmac, st: Store, zone: string, step: Step)
    requires zone in st.zones && Enabled(st, step)
    ensures zone in Next(hmac, st, step).zones
    ensures Next(hmac, st, step).zones[zone] == Moved(zone, st.zones[zone], MoveOf(hmac, st, zone, step))
  {
    match step
    case Open(q, ref, now) => AuthorizeMovesPins(hmac, st, zone, q, ref, now);
    case _ =>
  }

  lemma {:induction false} AuthorizeMovesPins(hmac: Hmac, st: Store, zone: string, q: Query, ref: string, now: int)
    requires zone in st.zones && TransferQuery(q)
    ensures zone in Authorize(hmac, st, q, ref, now).0.zones
    ensures var pins := Authorize(hmac, st, q, ref, now).0.zones[zone].pins;
            && Authorize(hmac, st, q, ref, now).0.zones[zone] == st.zones[zone].(pins := pins)
            && (forall r :: r in st.zones[zone].pins ==> r in pins && pins[r] == st.zones[zone].pins[r])
  {
  }
}
