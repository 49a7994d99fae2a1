/**
 Zone transfers over the store (app/dns_server.py): which key a request is checked against,
 whether it is answered incrementally, what is pinned, and the records that are streamed.
 */
module Transfer {
  import opened Basics
  import opened Ordering
  import opened Records
  import opened Delta
  import opened Serial
  import opened Store
  import opened Wire
  import opened QueryParser
  import opened Signing

  // ---------------------------------------------------------------------------
  // Keys
  // ---------------------------------------------------------------------------

  datatype Denial = NoTsig | BadKey | BadTime | BadSig

  predicate IsLive(row: KeyRow, name: string) {
    row.keyName == name && row.state != Revoked
  }

  /** The server's clock in whole seconds, back in milliseconds: up to 999 ms behind `now`. */
  function WholeSeconds(now: int): int {
    now / 1000 * 1000
  }

  predicate IsUsable(row: KeyRow, now: int) {
    row.state == Active || row.expiresAt.None? || WholeSeconds(now) < row.expiresAt.value
  }

  predicate Candidate(keys: map<string, KeyRow>, name: string, now: int, id: string) {
    id in keys && IsLive(keys[id], name) && IsUsable(keys[id], now)
  }

  /** The usable key of highest generation. */
  ghost predicate IsChosen(keys: map<string, KeyRow>, name: string, now: int, id: string) {
    && Candidate(keys, name, now, id)
    && forall other :: Candidate(keys, name, now, other) ==> keys[other].gen <= keys[id].gen
  }

  lemma {:induction false} ChosenExists(keys: map<string, KeyRow>, name: string, now: int)
    requires exists id :: Candidate(keys, name, now, id)
    ensures exists id :: IsChosen(keys, name, now, id)
    decreases |keys|
  {
    var id :| Candidate(keys, name, now, id);
    var rest := keys - {id};
    if exists other :: Candidate(rest, name, now, other) {
      ChosenExists(rest, name, now);
      var best :| IsChosen(rest, name, now, best);
      var chosen := if keys[best].gen >= keys[id].gen then best else id;
      assert forall other :: Candidate(keys, name, now, other) ==> other == id || Candidate(rest, name, now, other);
      assert IsChosen(keys, name, now, chosen);
    } else {
      assert forall other :: Candidate(keys, name, now, other) ==> other == id || Candidate(rest, name, now, other);
      assert IsChosen(keys, name, now, id);
    }
  }

  /** Identifier of the key to check a request against. `now` is in milliseconds. */
  ghost function ResolveKey(keys: map<string, KeyRow>, name: string, t: TsigData, now: int): (r: Result<string, Denial>)
    ensures r.Ok? ==> IsChosen(keys, name, now, r.value)
  {
    if !exists id :: id in keys && IsLive(keys[id], name) then Err(BadKey)
    else if !VerifyTsigTime(t.time, t.fudge, now / 1000) then Err(BadTime)
    else if !exists id :: Candidate(keys, name, now, id) then Err(BadKey)
    else
      ChosenExists(keys, name, now);
      var id :| IsChosen(keys, name, now, id);
      Ok(id)
  }

  // ---------------------------------------------------------------------------
  // Incremental or full
  // ---------------------------------------------------------------------------

  datatype Mode = Axfr | Ixfr

  /** `v` is the retained version with this serial. */
  predicate HasSerial(versions: map<nat, VersionRow>, v: nat, serial: int) {
    v in versions && versions[v].serial == serial
  }

  ghost function VersionBySerial(versions: map<nat, VersionRow>, serial: int): (r: Option<nat>)
    ensures r.Some? ==> HasSerial(versions, r.value, serial)
    ensures r.None? ==> forall v :: !HasSerial(versions, v, serial)
  {
    if exists v :: HasSerial(versions, v, serial) then
      var v :| HasSerial(versions, v, serial);
      Some(v)
    else None
  }

  function Between(versions: map<nat, VersionRow>, v0: nat, target: nat): set<nat> {
    set v | v in versions && v0 < v <= target
  }

  ghost function DecideIxfr(versions: map<nat, VersionRow>, target: nat, targetSerial: int, client: Option<int>): Mode {
    if client.None? then Axfr
    else
      var rel := Compare(client.value, targetSerial);
      if rel == Equal then Ixfr
      else if rel != Greater then Axfr
      else
        match VersionBySerial(versions, client.value)
        case None => Axfr
        case Some(v0) =>
          if v0 >= target then Axfr
          else if |Between(versions, v0, target)| != target - v0 then Axfr
          else Ixfr
  }

  // ---------------------------------------------------------------------------
  // Authorization
  // ---------------------------------------------------------------------------

  datatype Plan = Plan(mode: Mode, zone: string, targetVersion: nat, targetSerial: int, minVersion: nat,
                       ref: string, keyName: string, keyGen: nat, secret: Bytes, qid: int)

  /** Aborted: an exception that is no denial; the transaction is rolled back. */
  datatype Outcome = Authorized(plan: Plan) | Denied(denial: Denial) | Aborted

  /** What the parser guarantees of a query, and the two types that lead here. */
  predicate TransferQuery(q: Query) {
    && (q.qtype == TYPE_AXFR || q.qtype == TYPE_IXFR)
    && TsigFound(q.raw, q.tsig) && IsU16(q.arcount) && IsU16(q.id)
    && (q.clientSerial.Some? ==> IsU32(q.clientSerial.value))
  }

  /** The reference is in use for some zone. */
  ghost predicate RefTaken(zones: map<string, ZoneState>, ref: string) {
    exists z :: z in zones && ref in zones[z].pins
  }

  /** Mode and oldest version needed; None when the row of that version is missing. */
  ghost function Scope(s: ZoneState, q: Query): Option<(Mode, nat)> {
    var target := s.row.currentVersion;
    if q.qtype != TYPE_IXFR || DecideIxfr(s.versions, target, s.row.currentSerial, q.clientSerial) == Axfr then Some((Axfr, target))
    else
      match VersionBySerial(s.versions, q.clientSerial.value)
      case None => None
      case Some(v0) => Some((Ixfr, v0))
  }

  ghost function PlanFor(s: ZoneState, q: Query, key: KeyRow, mode: Mode, minVersion: nat, ref: string): Plan
    requires q.tsig.Some?
  {
    Plan(mode, q.qname, s.row.currentVersion, s.row.currentSerial, minVersion, ref, q.tsig.value.name, key.gen, key.secret, q.id)
  }

  ghost function Authorize(hmac: Hmac, st: Store, q: Query, ref: string, now: int): (Store, Outcome)
    requires TransferQuery(q)
  {
    if q.tsig.None? then (st, Denied(NoTsig))
    else if q.qname !in st.zones then (st, Denied(BadKey))
    else
      var s, t := st.zones[q.qname], q.tsig.value;
      match ResolveKey(s.keys, t.name, t.data, now)
      case Err(denial) => (st, Denied(denial))
      case Ok(id) =>
        match ExpectedRequestMac(hmac, s.keys[id].secret, q)
        case Err(_) => (st, Aborted)
        case Ok(mac) =>
          if mac != t.data.mac then (st, Denied(BadSig))
          else
            match Scope(s, q)
            case None => (st, Aborted)
            case Some((mode, minVersion)) =>
              if RefTaken(st.zones, ref) then (st, Aborted)
              else
                var plan := PlanFor(s, q, s.keys[id], mode, minVersion, ref);
                (st.(zones := st.zones[q.qname := PinTransfer(s, ref, plan.targetVersion, minVersion, plan.keyGen, now)]),
                 Authorized(plan))
  }

  // ---------------------------------------------------------------------------
  // The record streams
  // ---------------------------------------------------------------------------

  function IsApex(zone: string): Row -> bool {
    (r: Row) => r.key == Key(zone, SOA)
  }

  function Without(rows: seq<Row>, skipped: Row -> bool): seq<Row> {
    if rows == [] then []
    else if skipped(rows[0]) then Without(rows[1..], skipped)
    else [rows[0]] + Without(rows[1..], skipped)
  }

  /** An apex SOA row of a snapshot; None when there is none. */
  ghost function FetchSoa(zone: string, rows: Snapshot): (r: Option<Row>)
    ensures r.Some? ==> r.value in rows && r.value.key == Key(zone, SOA)
  {
    if exists soa :: soa in RowsAt(rows, Key(zone, SOA)) then
      var soa :| soa in RowsAt(rows, Key(zone, SOA));
      Some(soa)
    else None
  }

  /** The SOA, all other records in table order, the SOA again. */
  ghost function AxfrRows(zone: string, rows: Snapshot): Option<seq<Row>> {
    match FetchSoa(zone, rows)
    case None => None
    case Some(soa) => Some([soa] + Without(Enumerate(rows, RowKey), IsApex(zone)) + [soa])
  }

  function ChangesOf(s: ZoneState, v: nat): seq<ChangeRow> {
    if v in s.changes then s.changes[v] else []
  }

  /** The deltas of versions `v0` + 1 to `v`, one behind the other. */
  function ChangesUpTo(s: ZoneState, v0: nat, v: nat): seq<ChangeRow>
    decreases v
  {
    if v <= v0 then [] else ChangesUpTo(s, v0, v - 1) + ChangesOf(s, v)
  }

  function RowsOf(changes: seq<ChangeRow>): seq<Row> {
    seq(|changes|, i requires 0 <= i < |changes| => changes[i].row)
  }

  /** The target SOA, then the deltas from the client's version to the target, if it lags behind. */
  ghost function IxfrRows(s: ZoneState, plan: Plan, client: Option<int>): Option<seq<Row>> {
    match FetchSoa(plan.zone, RecordsOf(s, plan.targetVersion))
    case None => None
    case Some(soa) =>
      if client.None? || Compare(client.value, plan.targetSerial) != Greater then Some([soa])
      else
        match VersionBySerial(s.versions, client.value)
        case None => None
        case Some(v0) => Some([soa] + RowsOf(ChangesUpTo(s, v0, plan.targetVersion)))
  }

  /** The records a transfer streams when it reads the tables `s`; None when it fails on a missing row. */
  ghost function Stream(s: ZoneState, plan: Plan, client: Option<int>): Option<seq<Row>> {
    if plan.mode == Axfr then AxfrRows(plan.zone, RecordsOf(s, plan.targetVersion)) else IxfrRows(s, plan, client)
  }
}
