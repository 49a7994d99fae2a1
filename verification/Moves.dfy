/** The ways in which one zone can change in one step, and what none of them disturbs. */
module Moves {
  import opened Basics
  import opened Store
  import opened History
  import opened Transfer
  import opened TransferFacts
  import opened CleanupFacts
  import opened PublishFacts
  import opened KeyFacts

  datatype Move =
    | Stay
    | Publishing(req: Request)
    | Retaining(retain: int)
    | Installing(k: NewKey, now: int)
    | Revoking(keyId: string)
    | Repinning(pins: map<string, Pin>)
    | Cleaning(now: int)

  ghost function Moved(zone: string, s: ZoneState, move: Move): ZoneState {
    match move
    case Stay => s
    case Publishing(req) => PublishZone(zone, s, req).0
    case Retaining(retain) => s.(row := s.row.(retain := retain))
    case Installing(k, now) => InstallKeyZone(s, k, now).0
    case Revoking(keyId) => RevokeKeyZone(s, keyId).0
    case Repinning(pins) => s.(pins := pins)
    case Cleaning(now) => CleanZone(s, now)
  }

  /** A recorded request keeps its ledger row in every step. */
  lemma {:induction false} MoveKeepsLedger(zone: string, s: ZoneState, move: Move, id: string)
    requires id in s.ledger
    ensures id in Moved(zone, s, move).ledger && Moved(zone, s, move).ledger[id] == s.ledger[id]
  {
    match move
    case Publishing(req) => LedgerRowStays(zone, s, req, id);
    case _ =>
  }

  lemma {:induction false} MoveAgesKeys(zone: string, s: ZoneState, move: Move)
    ensures KeysAge(s.keys, Moved(zone, s, move).keys)
  {
    match move
    case Publishing(req) => PublishKeepsKeys(zone, s, req);
    case Installing(k, now) => InstallAges(s, k, now);
    case Revoking(keyId) => RevokeAges(s, keyId);
    case _ =>
  }

  lemma {:induction false} PublishKeepsKeys(zone: string, s: ZoneState, req: Request)
    ensures PublishZone(zone, s, req).0.keys == s.keys && PublishZone(zone, s, req).0.pins == s.pins
  {
    ZoneOutcomes(zone, s, req);
    if IsFresh(PublishZone(zone, s, req).1) {
      SuccessIsWhole(zone, s, req);
    }
  }

  // ---------------------------------------------------------------------------
  // Versions that stay as they were
  // ---------------------------------------------------------------------------

  /** Version `v` is retained in both, with the same rows in all tables. */
  ghost predicate SameVersion(a: ZoneState, b: ZoneState, v: nat) {
    && v in a.versions && v in b.versions && a.versions[v] == b.versions[v]
    && v in a.records && v in b.records && a.records[v] == b.records[v]
    && ChangesOf(a, v) == ChangesOf(b, v)
  }

  ghost predicate SameWindow(a: ZoneState, b: ZoneState, lo: nat, hi: nat) {
    && hi <= b.row.currentVersion
    && forall v: nat {:trigger SameVersion(a, b, v)} :: lo <= v <= hi ==> SameVersion(a, b, v)
  }

  lemma {:induction false} SameVersionTransitive(a: ZoneState, b: ZoneState, c: ZoneState, v: nat)
    requires SameVersion(a, b, v) && SameVersion(b, c, v)
    ensures SameVersion(a, c, v)
  {
  }

  lemma {:induction false} PublishKeepsVersion(zone: string, s: ZoneState, req: Request, v: nat)
    requires v in s.versions && v in s.records && v <= s.row.currentVersion
    ensures SameVersion(s, PublishZone(zone, s, req).0, v)
    ensures s.row.currentVersion <= PublishZone(zone, s, req).0.row.currentVersion
  {
    ZoneOutcomes(zone, s, req);
    if IsFresh(PublishZone(zone, s, req).1) {
      SuccessIsWhole(zone, s, req);
      OldVersionStays(s, req, PublishZone(zone, s, req).0, v);
    }
  }

  lemma {:induction false} OldVersionStays(s: ZoneState, req: Request, t: ZoneState, v: nat)
    requires OneVersionMore(s, req, t) && v in s.versions && v in s.records && v <= s.row.currentVersion
    ensures SameVersion(s, t, v)
  {
  }

  lemma {:induction false} CleanupKeepsVersion(s: ZoneState, now: int, v: nat)
    requires HistoryShape(s.row.currentVersion, s.versions.Keys, s.records.Keys, s.changes)
    requires v in s.versions && Pinned(s, v, AliveAfter(now))
    ensures SameVersion(s, CleanZone(s, now), v)
  {
  }

  lemma {:induction false} InstallKeepsTables(s: ZoneState, k: NewKey, now: int)
    ensures var t := InstallKeyZone(s, k, now).0; t == s.(keys := t.keys)
  {
  }

  /** No step disturbs a version that a live pin covers, if it is a cleanup, or any retained one, if not. */
  lemma {:induction false} MoveKeepsVersion(zone: string, s: ZoneState, move: Move, v: nat)
    requires HistoryShape(s.row.currentVersion, s.versions.Keys, s.records.Keys, s.changes)
    requires v in s.versions
    requires move.Cleaning? ==> Pinned(s, v, AliveAfter(move.now))
    ensures SameVersion(s, Moved(zone, s, move), v)
  {
    match move
    case Publishing(req) => PublishKeepsVersion(zone, s, req, v);
    case Installing(k, now) => InstallKeepsTables(s, k, now);
    case Cleaning(now) => CleanupKeepsVersion(s, now, v);
    case _ =>
  }

  lemma {:induction false} MoveAdvances(zone: string, s: ZoneState, move: Move)
    ensures s.row.currentVersion <= Moved(zone, s, move).row.currentVersion
  {
    match move
    case Publishing(req) =>
      ZoneOutcomes(zone, s, req);
      if IsFresh(PublishZone(zone, s, req).1) {
        SuccessIsWhole(zone, s, req);
      }
    case _ =>
  }

  lemma {:induction false} MoveKeepsWindow(zone: string, a: ZoneState, s: ZoneState, move: Move, lo: nat, hi: nat)
    requires HistoryShape(s.row.currentVersion, s.versions.Keys, s.records.Keys, s.changes)
    requires SameWindow(a, s, lo, hi)
    requires move.Cleaning? ==> forall v :: lo <= v <= hi ==> Pinned(s, v, AliveAfter(move.now))
    ensures SameWindow(a, Moved(zone, s, move), lo, hi)
  {
    var t := Moved(zone, s, move);
    MoveAdvances(zone, s, move);
    forall v: nat | lo <= v <= hi ensures SameVersion(a, t, v) {
      assert SameVersion(a, s, v);
      MoveKeepsVersion(zone, s, move, v);
      SameVersionTransitive(a, s, t, v);
    }
  }

  // ---------------------------------------------------------------------------
  // A stream depends on its window only
  // ---------------------------------------------------------------------------

  lemma {:induction false} ChangesAgree(a: ZoneState, b: ZoneState, lo: nat, hi: nat, v: nat)
    requires SameWindow(a, b, lo, hi) && v <= hi
    ensures ChangesUpTo(a, lo, v) == ChangesUpTo(b, lo, v)
    decreases v
  {
    if v > lo {
      ChangesAgree(a, b, lo, hi, v - 1);
      assert SameVersion(a, b, v);
    }
  }

  /** The client's serial leads to the plan's oldest version, where the history has it only once. */
  lemma {:induction false} StartIsFound(s: ZoneState, v: nat, serial: int)
    requires SerialsOk(s.row.currentVersion, s.row.currentSerial, s.versions) && HasSerial(s.versions, v, serial)
    ensures VersionBySerial(s.versions, serial) == Some(v)
  {
    var found := VersionBySerial(s.versions, serial);
    SerialsUnique(s.row.currentVersion, s.row.currentSerial, s.versions, found.value, v, serial);
  }

  /** Tables that agree on a plan's versions make it stream the same records. */
  lemma {:induction false} StreamsAgree(a: ZoneState, b: ZoneState, plan: Plan, client: Option<int>)
    requires plan.minVersion <= plan.targetVersion && SameWindow(a, b, plan.minVersion, plan.targetVersion)
    requires SerialsOk(a.row.currentVersion, a.row.currentSerial, a.versions) && SerialsOk(b.row.currentVersion, b.row.currentSerial, b.versions)
    requires plan.mode == Ixfr ==> client.Some? && HasSerial(a.versions, plan.minVersion, client.value)
    ensures Stream(a, plan, client) == Stream(b, plan, client)
  {
    assert SameVersion(a, b, plan.targetVersion) && SameVersion(a, b, plan.minVersion);
    if plan.mode == Ixfr {
      StartIsFound(a, plan.minVersion, client.value);
      StartIsFound(b, plan.minVersion, client.value);
      ChangesAgree(a, b, plan.minVersion, plan.targetVersion, plan.targetVersion);
    }
  }
}
