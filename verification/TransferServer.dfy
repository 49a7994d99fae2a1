/**
 The transfer side of the name server (app/dns_server.py, `DNSLogic`), statement by statement,
 proved to have the effect and the results that `Transfer` specifies.
 */
module TransferServer {
  import opened Basics
  import opened Ordering
  import opened Records
  import opened Changeset
  import opened Serial
  import opened Wire
  import opened QueryParser
  import opened Signing
  import opened Store
  import opened History
  import opened Transfer
  import opened TransferFacts
  import opened Plans
  import D = DatabaseModel

  // ---------------------------------------------------------------------------
  // Lookups
  // ---------------------------------------------------------------------------

  lemma {:induction false} ChosenUnique(keys: map<string, KeyRow>, name: string, now: int, a: string, b: string)
    requires GensDistinct(keys) && IsChosen(keys, name, now, a) && IsChosen(keys, name, now, b)
    ensures a == b
  {
  }

  /** The live rows of the key name, the time check, the usable ones among them, the newest of those. */
  method ResolveInTx(keys: map<string, KeyRow>, name: string, t: TsigData, now: int) returns (r: Result<string, Denial>)
    requires GensDistinct(keys)
    ensures r == ResolveKey(keys, name, t, now)
  {
    var live := set id | id in keys && IsLive(keys[id], name);
    assert forall id :: id in keys && IsLive(keys[id], name) <==> id in live;
    if live == {} {
      return Err(BadKey);
    }
    if !VerifyTsigTime(t.time, t.fudge, now / 1000) {
      return Err(BadTime);
    }
    var usable := set id | id in live && IsUsable(keys[id], now);
    assert forall id :: id in usable <==> Candidate(keys, name, now, id);
    if usable == {} {
      return Err(BadKey);
    }
    var best := NewestOf(keys, usable);
    assert IsChosen(keys, name, now, best);
    r := Ok(best);
    assert Candidate(keys, name, now, best);
    ChosenUnique(keys, name, now, best, ResolveKey(keys, name, t, now).value);
  }

  method NewestOf(keys: map<string, KeyRow>, ids: set<string>) returns (best: string)
    requires ids != {} && ids <= keys.Keys
    ensures best in ids && forall id :: id in ids ==> keys[id].gen <= keys[best].gen
  {
    best :| best in ids;
    var rest := ids - {best};
    while rest != {}
      invariant best in ids && rest <= ids
      invariant forall id :: id in ids && id !in rest ==> keys[id].gen <= keys[best].gen
      decreases |rest|
    {
      var id :| id in rest;
      if keys[id].gen > keys[best].gen {
        best := id;
      }
      rest := rest - {id};
    }
  }

  /** The row of a serial, which UNIQUE makes the only one. */
  method FindVersion(cur: nat, currentSerial: int, versions: map<nat, VersionRow>, serial: int) returns (r: Option<nat>)
    requires SerialsOk(cur, currentSerial, versions)
    ensures r == VersionBySerial(versions, serial)
  {
    if v: nat :| v in versions && versions[v].serial == serial {
      r := Some(v);
      assert HasSerial(versions, v, serial);
      SerialsUnique(cur, currentSerial, versions, v, VersionBySerial(versions, serial).value, serial);
    } else {
      r := None;
    }
  }

  method Decide(cur: nat, currentSerial: int, versions: map<nat, VersionRow>, target: nat, targetSerial: int, client: Option<int>)
    returns (mode: Mode)
    requires SerialsOk(cur, currentSerial, versions)
    ensures mode == DecideIxfr(versions, target, targetSerial, client)
  {
    if client.None? {
      return Axfr;
    }
    var rel := Compare(client.value, targetSerial);
    if rel == Equal {
      return Ixfr;
    }
    if rel != Greater {
      return Axfr;
    }
    var start := FindVersion(cur, currentSerial, versions, client.value);
    if start.None? {
      return Axfr;
    }
    if start.value >= target {
      return Axfr;
    }
    var count := |Between(versions, start.value, target)|;
    if count != target - start.value {
      return Axfr;
    }
    mode := Ixfr;
  }

  // ---------------------------------------------------------------------------
  // Streams
  // ---------------------------------------------------------------------------

  lemma {:induction false} SoaUnique(zone: string, rows: Snapshot, serial: int, soa: Row)
    requires ZoneSnapshot(zone, rows, serial) && soa in RowsAt(rows, Key(zone, SOA))
    ensures FetchSoa(zone, rows) == Some(soa)
  {
  }

  method FetchApexSoa(zone: string, rows: Snapshot, ghost serial: int) returns (soa: Row)
    requires ZoneSnapshot(zone, rows, serial)
    ensures FetchSoa(zone, rows) == Some(soa)
  {
    ghost var only := ApexSoa(zone, rows, serial);
    assert only in RowsAt(rows, Key(zone, SOA));
    soa :| soa in rows && soa.key == Key(zone, SOA);
    SoaUnique(zone, rows, serial, soa);
  }

  lemma {:induction false} WithoutAppend(rows: seq<Row>, last: Row, skipped: Row -> bool)
    ensures Without(rows + [last], skipped) == Without(rows, skipped) + if skipped(last) then [] else [last]
  {
    if rows == [] {
      assert [] + [last] == [last];
      assert [last][1..] == [];
    } else {
      assert (rows + [last])[1..] == rows[1..] + [last];
      WithoutAppend(rows[1..], last, skipped);
    }
  }

  /** The cursor over the snapshot, between two copies of the SOA. */
  method AxfrRrStream(zone: string, rows: Snapshot, ghost serial: int) returns (out: seq<Row>)
    requires ZoneSnapshot(zone, rows, serial)
    ensures AxfrRows(zone, rows) == Some(out)
  {
    var soa := FetchApexSoa(zone, rows, serial);
    var cursor := Select(rows, RowKey);
    var others := OtherRows(zone, cursor);
    out := [soa] + others + [soa];
  }

  method OtherRows(zone: string, cursor: seq<Row>) returns (out: seq<Row>)
    ensures out == Without(cursor, IsApex(zone))
  {
    out := [];
    for i := 0 to |cursor|
      invariant out == Without(cursor[..i], IsApex(zone))
    {
      assert cursor[..i + 1] == cursor[..i] + [cursor[i]];
      WithoutAppend(cursor[..i], cursor[i], IsApex(zone));
      if !(cursor[i].key.name == zone && cursor[i].key.rtype == SOA) {
        out := out + [cursor[i]];
      }
    }
    assert cursor[..|cursor|] == cursor;
  }

  /** The target's SOA, then for a client that lags behind the rows of every delta since. */
  method IxfrRrStream(s: ZoneState, plan: Plan, client: Option<int>, ghost serial: int) returns (out: Option<seq<Row>>)
    requires SerialsOk(s.row.currentVersion, s.row.currentSerial, s.versions)
    requires plan.targetVersion in s.records && ZoneSnapshot(plan.zone, RecordsOf(s, plan.targetVersion), serial)
    ensures out == IxfrRows(s, plan, client)
  {
    var soa := FetchApexSoa(plan.zone, s.records[plan.targetVersion], serial);
    if client.None? || Compare(client.value, plan.targetSerial) != Greater {
      return Some([soa]);
    }
    var start := FindVersion(s.row.currentVersion, s.row.currentSerial, s.versions, client.value);
    if start.None? {
      return None;
    }
    var rows := DeltaRows(s, start.value, plan.targetVersion);
    out := Some([soa] + rows);
  }

  /** The loop over the versions, and inside it the one over a version's change rows. */
  method DeltaRows(s: ZoneState, v0: nat, target: nat) returns (rows: seq<Row>)
    ensures rows == RowsOf(ChangesUpTo(s, v0, target))
  {
    rows := [];
    var vid := v0 + 1;
    while vid <= target
      invariant v0 + 1 <= vid && (vid <= target + 1 || vid == v0 + 1)
      invariant rows == RowsOf(ChangesUpTo(s, v0, vid - 1))
    {
      var cursor := ChangesOf(s, vid);
      ghost var earlier := ChangesUpTo(s, v0, vid - 1);
      assert earlier + cursor[..0] == earlier;
      for i := 0 to |cursor|
        invariant rows == RowsOf(earlier + cursor[..i])
      {
        assert earlier + cursor[..i + 1] == (earlier + cursor[..i]) + [cursor[i]];
        rows := rows + [cursor[i].row];
      }
      assert earlier + cursor[..|cursor|] == ChangesUpTo(s, v0, vid);
      vid := vid + 1;
    }
  }

  // ---------------------------------------------------------------------------
  // Authorization
  // ---------------------------------------------------------------------------

  class DnsLogic {
    const db: D.Database

    constructor (db: D.Database)
      ensures this.db == db
    {
      this.db := db;
    }

    /** One transaction: key, MAC, decision and pin; every denial and failure rolls it back. */
    method AuthorizeTransfer(hmac: Hmac, q: Query, ref: string, now: int) returns (outcome: Outcome)
      requires db.Valid() && TransferQuery(q)
      modifies db
      ensures (db.store, outcome) == Authorize(hmac, old(db.store), q, ref, now)
      ensures db.Valid()
    {
      AuthorizeKeepsInv(hmac, db.store, q, ref, now);
      if q.tsig.None? {
        return Denied(NoTsig);
      }
      var zones := db.store.zones;
      if q.qname !in zones {
        return Denied(BadKey);
      }
      var s := zones[q.qname];
      InvAt(db.store, q.qname);
      var planned := PlanTransfer(hmac, s, q, ref, now);
      if !planned.Authorized? {
        return planned;
      }
      if exists z :: z in zones && ref in zones[z].pins {
        return Aborted;
      }
      var plan := planned.plan;
      var tx := s.(pins := s.pins[ref := Pin(plan.targetVersion, plan.minVersion, plan.keyGen, now, true)]);
      db.store := db.store.(zones := zones[q.qname := tx]);
      outcome := planned;
    }
  }

  /** The plan that a transaction arrives at if its reference is new. */
  ghost function PlannedOutcome(hmac: Hmac, s: ZoneState, q: Query, ref: string, now: int): Outcome
    requires TransferQuery(q) && q.tsig.Some?
  {
    var t := q.tsig.value;
    match ResolveKey(s.keys, t.name, t.data, now)
    case Err(denial) => Denied(denial)
    case Ok(id) =>
      match ExpectedRequestMac(hmac, s.keys[id].secret, q)
      case Err(_) => Aborted
      case Ok(mac) =>
        if mac != t.data.mac then Denied(BadSig)
        else
          match Scope(s, q)
          case None => Aborted
          case Some((mode, minVersion)) => Authorized(PlanFor(s, q, s.keys[id], mode, minVersion, ref))
  }

  method PlanTransfer(hmac: Hmac, s: ZoneState, q: Query, ref: string, now: int) returns (outcome: Outcome)
    requires TransferQuery(q) && q.tsig.Some?
    requires GensDistinct(s.keys) && SerialsOk(s.row.currentVersion, s.row.currentSerial, s.versions)
    ensures outcome == PlannedOutcome(hmac, s, q, ref, now)
  {
    var t := q.tsig.value;
    var resolved := ResolveInTx(s.keys, t.name, t.data, now);
    if resolved.Err? {
      return Denied(resolved.error);
    }
    var key := s.keys[resolved.value];
    var expected := ExpectedRequestMac(hmac, key.secret, q);
    if expected.Err? {
      return Aborted;
    }
    if expected.value != t.data.mac {
      return Denied(BadSig);
    }
    var target := s.row.currentVersion;
    var mode, minVersion := Axfr, target;
    if q.qtype == TYPE_IXFR {
      mode := Decide(target, s.row.currentSerial, s.versions, target, s.row.currentSerial, q.clientSerial);
      if mode == Ixfr {
        var start := FindVersion(target, s.row.currentSerial, s.versions, q.clientSerial.value);
        if start.None? {
          return Aborted;
        }
        minVersion := start.value;
      }
    }
    outcome := Authorized(Plan(mode, q.qname, target, s.row.currentSerial, minVersion, ref, t.name, key.gen, key.secret, q.id));
  }
}
