/**
 The serials a zone goes through in a run, since some version of it; and what follows for two
 writers that start from one serial.
 */
module Lineage {
  import opened Errors
  import opened Serial
  import opened Signing
  import opened Store
  import opened History
  import opened Transfer
  import opened TransferFacts
  import opened PublishFacts
  import opened Moves
  import opened Runs
  import opened RunFacts
  import opened Verdicts

  // ---------------------------------------------------------------------------
  // The serials since a version
  // ---------------------------------------------------------------------------

  /** `serials` are those of versions `v` to `cur`, as far as they are retained those in the table. */
  ghost predicate Tracks(serials: seq<int>, v: nat, cur: nat, currentSerial: int, versions: map<nat, VersionRow>) {
    && v <= cur && |serials| == cur - v + 1 && IsForwardChain(serials) && serials[cur - v] == currentSerial
    && forall w: nat {:trigger Has(versions, w)} :: Has(versions, w) && v <= w <= cur ==> versions[w].serial == serials[w - v]
  }

  lemma {:induction false} TracksOnward(serials: seq<int>, v: nat, cur: nat, currentSerial: int, versions: map<nat, VersionRow>, next: VersionRow)
    requires Tracks(serials, v, cur, currentSerial, versions)
    requires IsU32(next.serial) && Compare(currentSerial, next.serial) == Greater
    ensures Tracks(serials + [next.serial], v, cur + 1, next.serial, versions[cur + 1 := next])
  {
    var versions' := versions[cur + 1 := next];
    assert forall w: nat :: Has(versions', w) && w <= cur ==> Has(versions, w);
  }

  lemma {:induction false} TracksFewer(serials: seq<int>, v: nat, cur: nat, currentSerial: int,
                                       versions: map<nat, VersionRow>, versions': map<nat, VersionRow>)
    requires Tracks(serials, v, cur, currentSerial, versions)
    requires forall w :: w in versions' ==> w in versions && versions'[w] == versions[w]
    ensures Tracks(serials, v, cur, currentSerial, versions')
  {
    assert forall w: nat :: Has(versions', w) ==> Has(versions, w);
  }

  lemma {:induction false} TravelledGrows(serials: seq<int>, n: nat)
    requires IsForwardChain(serials) && 0 < n <= |serials|
    ensures IsForwardChain(serials[..n]) && Travelled(serials[..n]) <= Travelled(serials)
    decreases |serials|
  {
    if n == |serials| {
      assert serials[..n] == serials;
    } else {
      var front := serials[..|serials| - 1];
      TravelledGrows(front, n);
      assert front[..n] == serials[..n];
    }
  }

  /** While less than the whole serial space has been travelled, a serial does not come back. */
  lemma {:induction false} SerialsStayApart(serials: seq<int>, n: nat)
    requires IsForwardChain(serials) && 0 <= n < |serials| && Travelled(serials) < MOD && serials[n] == serials[0]
    ensures n == 0
  {
    var part := serials[..n + 1];
    TravelledGrows(serials, n + 1);
    TravelledIsDistance(part);
    assert part[0] == part[|part| - 1];
    SmallRemainder(Travelled(part));
  }

  lemma {:induction false} ComesBackOnly(serials: seq<int>, v: nat, cur: nat, currentSerial: int, versions: map<nat, VersionRow>,
                                         records: set<nat>, changes: map<nat, seq<Delta.ChangeRow>>, m: nat)
    requires Tracks(serials, v, cur, currentSerial, versions) && Travelled(serials) < MOD
    requires HistoryShape(cur, versions.Keys, records, changes) && SerialsOk(cur, currentSerial, versions)
    requires HasSerial(versions, m, serials[0])
    ensures m == v
  {
    assert Has(versions, m);
    if m < v {
      assert v in versions;
      assert Has(versions, v);
      SerialsUnique(cur, currentSerial, versions, m, v, serials[0]);
    } else {
      SerialsStayApart(serials, m - v);
    }
  }

  // ---------------------------------------------------------------------------
  // Over a run
  // ---------------------------------------------------------------------------

  function RowOf(st: Store, zone: string): ZoneRow {
    if zone in st.zones then st.zones[zone].row else ZoneRow(0, 0, 0, 0, 0)
  }

  /** The serials the zone had from state `h` to state `j`. */
  function SerialsSince(states: seq<Store>, zone: string, h: nat, j: nat): seq<int>
    requires j < |states|
    decreases j
  {
    if j <= h then [RowOf(states[j], zone).currentSerial]
    else
      var before := SerialsSince(states, zone, h, j - 1);
      if RowOf(states[j], zone).currentVersion == RowOf(states[j - 1], zone).currentVersion then before
      else before + [RowOf(states[j], zone).currentSerial]
  }

  /** What is left of version `v`, which `a` has: nothing, or all of it; and the serials since then. */
  ghost predicate Follows(a: ZoneState, v: nat, serials: seq<int>, s: ZoneState) {
    && Tracks(serials, v, s.row.currentVersion, s.row.currentSerial, s.versions)
    && (v in s.versions ==> SameVersion(a, s, v))
  }

  lemma {:induction false} FreshAdvances(zone: string, s: ZoneState, req: Request)
    requires ZoneInv(zone, s) && IsFresh(PublishZone(zone, s, req).1)
    ensures OneVersionMore(s, req, PublishZone(zone, s, req).0)
    ensures Compare(s.row.currentSerial, req.nextSerial) == Greater
  {
    FreshZone(zone, s, req);
    SuccessIsWhole(zone, s, req);
    AttemptOutcome(zone, s, req, RecordsOf(s, s.row.currentVersion), Attempt(zone, s, req).value);
  }

  lemma {:induction false} OneMoreFollows(a: ZoneState, v: nat, serials: seq<int>, s: ZoneState, req: Request, t: ZoneState)
    requires Follows(a, v, serials, s) && OneVersionMore(s, req, t)
    requires IsU32(req.nextSerial) && Compare(s.row.currentSerial, req.nextSerial) == Greater
    ensures Follows(a, v, serials + [t.row.currentSerial], t)
  {
    TracksOnward(serials, v, s.row.currentVersion, s.row.currentSerial, s.versions, VersionRow(req.nextSerial, req.id));
    if v in s.versions {
      OldVersionStays(s, req, t, v);
      SameVersionTransitive(a, s, t, v);
    }
  }

  /** The serials since version `v` once the zone has moved on to `row`. */
  function Onward(serials: seq<int>, before: ZoneRow, after: ZoneRow): seq<int> {
    if after.currentVersion == before.currentVersion then serials else serials + [after.currentSerial]
  }

  lemma {:induction false} PublishFollows(zone: string, a: ZoneState, v: nat, serials: seq<int>, s: ZoneState, req: Request)
    requires ZoneInv(zone, s) && RequestOk(req) && Follows(a, v, serials, s)
    ensures Follows(a, v, Onward(serials, s.row, PublishZone(zone, s, req).0.row), PublishZone(zone, s, req).0)
  {
    ZoneOutcomes(zone, s, req);
    if IsFresh(PublishZone(zone, s, req).1) {
      FreshAdvances(zone, s, req);
      OneMoreFollows(a, v, serials, s, req, PublishZone(zone, s, req).0);
    }
  }

  lemma {:induction false} CleanFollows(a: ZoneState, v: nat, serials: seq<int>, s: ZoneState, now: int)
    requires Follows(a, v, serials, s)
    ensures Follows(a, v, serials, CleanZone(s, now))
  {
    TracksFewer(serials, v, s.row.currentVersion, s.row.currentSerial, s.versions, CleanZone(s, now).versions);
  }

  /** The history tables and the serial are the same. */
  ghost predicate SameHistory(s: ZoneState, t: ZoneState) {
    && t.row.currentVersion == s.row.currentVersion && t.row.currentSerial == s.row.currentSerial
    && t.versions == s.versions && t.records == s.records && t.changes == s.changes
  }

  lemma {:induction false} MoveIsQuiet(zone: string, s: ZoneState, move: Move)
    requires !move.Publishing? && !move.Cleaning?
    ensures SameHistory(s, Moved(zone, s, move))
  {
    match move
    case Installing(k, now) => InstallKeepsTables(s, k, now);
    case _ =>
  }

  lemma {:induction false} QuietFollows(a: ZoneState, v: nat, serials: seq<int>, s: ZoneState, t: ZoneState)
    requires Follows(a, v, serials, s) && SameHistory(s, t)
    ensures Follows(a, v, Onward(serials, s.row, t.row), t)
  {
  }

  lemma {:induction false} MoveFollows(zone: string, a: ZoneState, v: nat, serials: seq<int>, s: ZoneState, move: Move)
    requires ZoneInv(zone, s) && (move.Publishing? ==> RequestOk(move.req)) && Follows(a, v, serials, s)
    ensures Follows(a, v, Onward(serials, s.row, Moved(zone, s, move).row), Moved(zone, s, move))
  {
    if move.Publishing? {
      PublishFollows(zone, a, v, serials, s, move.req);
    } else if move.Cleaning? {
      CleanFollows(a, v, serials, s, move.now);
    } else {
      MoveIsQuiet(zone, s, move);
      QuietFollows(a, v, serials, s, Moved(zone, s, move));
    }
  }

  /** State `j` of the run follows on version `v` of `a`, which state `h` has. */
  ghost predicate RunFollows(states: seq<Store>, zone: string, a: ZoneState, v: nat, h: nat, j: nat) {
    j < |states| && zone in states[j].zones && Follows(a, v, SerialsSince(states, zone, h, j), states[j].zones[zone])
  }

  lemma {:induction false} StepFollows(hmac: Hmac, states: seq<Store>, steps: seq<Step>, zone: string, a: ZoneState, v: nat, h: nat, j: nat)
    requires IsRun(hmac, states, steps) && Inv(states[0]) && h <= j < |steps| && RunFollows(states, zone, a, v, h, j)
    ensures RunFollows(states, zone, a, v, h, j + 1)
  {
    RunKeepsInv(hmac, states, steps, j);
    InvAt(states[j], zone);
    RunStep(hmac, states, steps, j, zone);
    MoveFollows(zone, a, v, SerialsSince(states, zone, h, j), states[j].zones[zone], MoveOf(hmac, states[j], zone, steps[j]));
  }

  lemma {:induction false} StartFollows(states: seq<Store>, zone: string, h: nat)
    requires h < |states| && zone in states[h].zones && ZoneInv(zone, states[h].zones[zone])
    ensures RunFollows(states, zone, states[h].zones[zone], states[h].zones[zone].row.currentVersion, h, h)
  {
    var s := states[h].zones[zone];
    assert Has(s.versions, s.row.currentVersion);
    assert SerialsSince(states, zone, h, h) == [s.row.currentSerial];
  }

  lemma {:induction false} StartOfRun(hmac: Hmac, states: seq<Store>, steps: seq<Step>, zone: string, h: nat)
    requires IsRun(hmac, states, steps) && Inv(states[0]) && h < |states| && zone in states[h].zones
    ensures RunFollows(states, zone, states[h].zones[zone], states[h].zones[zone].row.currentVersion, h, h)
  {
    RunKeepsInv(hmac, states, steps, h);
    InvAt(states[h], zone);
    StartFollows(states, zone, h);
  }

  lemma {:induction false} RunKeepsFollowing(hmac: Hmac, states: seq<Store>, steps: seq<Step>, zone: string, h: nat, j: nat)
    requires IsRun(hmac, states, steps) && Inv(states[0]) && h <= j < |states| && zone in states[h].zones
    ensures RunFollows(states, zone, states[h].zones[zone], states[h].zones[zone].row.currentVersion, h, j)
    ensures SerialsSince(states, zone, h, j)[0] == states[h].zones[zone].row.currentSerial
  {
    var a := states[h].zones[zone];
    var holds := (k: nat) => RunFollows(states, zone, a, a.row.currentVersion, h, k);
    StartOfRun(hmac, states, steps, zone, h);
    forall k: nat | h <= k < j && holds(k) ensures holds(k + 1) {
      StepFollows(hmac, states, steps, zone, a, a.row.currentVersion, h, k);
    }
    Onwards(holds, h, j);
    FirstSerial(states, zone, h, j);
  }

  lemma {:induction false} FirstSerial(states: seq<Store>, zone: string, h: nat, j: nat)
    requires h <= j < |states|
    ensures SerialsSince(states, zone, h, j) != [] && SerialsSince(states, zone, h, j)[0] == RowOf(states[h], zone).currentSerial
    decreases j
  {
    if j > h {
      FirstSerial(states, zone, h, j - 1);
    }
  }

  // ---------------------------------------------------------------------------
  // Two writers
  // ---------------------------------------------------------------------------

  lemma {:induction false} CommitMovesOn(hmac: Hmac, states: seq<Store>, steps: seq<Step>, zone: string, i: nat, j: nat, req: Request)
    requires IsRun(hmac, states, steps) && Inv(states[0]) && i < j < |states| && steps[i] == Submit(zone, req)
    requires zone in states[i].zones && IsFresh(PublishZone(zone, states[i].zones[zone], req).1)
    ensures zone in states[j].zones && states[j].zones[zone].row.currentVersion > states[i].zones[zone].row.currentVersion
  {
    RunStep(hmac, states, steps, i, zone);
    SuccessIsWhole(zone, states[i].zones[zone], req);
    RunKeepsFollowing(hmac, states, steps, zone, i + 1, j);
  }

  lemma {:induction false} SerialHasMovedOn(hmac: Hmac, states: seq<Store>, steps: seq<Step>, zone: string, i: nat, j: nat)
    requires IsRun(hmac, states, steps) && Inv(states[0]) && i <= j < |states| && zone in states[i].zones && zone in states[j].zones
    requires states[j].zones[zone].row.currentVersion > states[i].zones[zone].row.currentVersion
    requires Travelled(SerialsSince(states, zone, i, j)) < MOD
    ensures states[j].zones[zone].row.currentSerial != states[i].zones[zone].row.currentSerial
  {
    RunKeepsFollowing(hmac, states, steps, zone, i, j);
    var serials, n := SerialsSince(states, zone, i, j), states[j].zones[zone].row.currentVersion - states[i].zones[zone].row.currentVersion;
    if serials[n] == serials[0] {
      SerialsStayApart(serials, n);
    }
  }

  /**
   Of two writers that start from one serial, one wins. Once the first has committed, in step
   `i`, the other does not commit in step `j`, whatever its identifier, unless the zone has gone
   through the whole serial space in between; if its request is new and steps forward, it is
   told of the conflict, and that is recorded.
   */
  lemma {:induction false} OneWriterWins(hmac: Hmac, states: seq<Store>, steps: seq<Step>, i: nat, j: nat, zone: string, first: Request, second: Request)
    requires IsRun(hmac, states, steps) && Inv(states[0]) && i < j < |steps|
    requires steps[i] == Submit(zone, first) && steps[j] == Submit(zone, second) && first.baseSerial == second.baseSerial
    requires zone in states[i].zones && IsFresh(PublishZone(zone, states[i].zones[zone], first).1)
    requires Travelled(SerialsSince(states, zone, i, j)) < MOD
    ensures zone in states[j].zones && !IsFresh(PublishZone(zone, states[j].zones[zone], second).1)
    ensures second.id !in states[j].zones[zone].ledger && StepsForward(second.baseSerial, second.nextSerial) ==>
              PublishZone(zone, states[j].zones[zone], second) == WithFailure(states[j].zones[zone], second, VersionConflict)
  {
    RunKeepsInv(hmac, states, steps, i);
    InvAt(states[i], zone);
    assert StepOf(hmac, states[i], steps[i], states[i + 1]);
    StartsFromCurrent(zone, states[i].zones[zone], first);
    CommitMovesOn(hmac, states, steps, zone, i, j, first);
    SerialHasMovedOn(hmac, states, steps, zone, i, j);
    RunKeepsInv(hmac, states, steps, j);
    InvAt(states[j], zone);
    assert StepOf(hmac, states[j], steps[j], states[j + 1]);
    OtherBaseConflicts(zone, states[j].zones[zone], second);
  }

  lemma {:induction false} StartsFromCurrent(zone: string, s: ZoneState, req: Request)
    requires ZoneInv(zone, s) && RequestOk(req)
    ensures IsFresh(PublishZone(zone, s, req).1) ==> req.baseSerial == s.row.currentSerial
  {
    ZoneOutcomes(zone, s, req);
    if req.id !in s.ledger {
      CommitsIff(zone, s, req);
    }
  }

  lemma {:induction false} OtherBaseConflicts(zone: string, s: ZoneState, req: Request)
    requires ZoneInv(zone, s) && RequestOk(req) && req.baseSerial != s.row.currentSerial
    ensures !IsFresh(PublishZone(zone, s, req).1)
    ensures req.id !in s.ledger && StepsForward(req.baseSerial, req.nextSerial) ==>
              PublishZone(zone, s, req) == WithFailure(s, req, VersionConflict)
  {
    CurrentIsU32(zone, s);
    StartsFromCurrent(zone, s, req);
    if req.id !in s.ledger && StepsForward(req.baseSerial, req.nextSerial) {
      StaleBaseIsRefused(zone, s, req);
    }
  }
}
