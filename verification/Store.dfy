/**
 The tables (migrations/0001_init.sql) and the effect of every write transaction on them
 (app/storage.py). Each function here is one BEGIN IMMEDIATE block: it maps the committed
 tables to the committed tables. All but the task queue is grouped by zone, since every
 statement of the source selects by zone.
 */
module Store {
  import opened Basics
  import opened Errors
  import opened Records
  import opened Changeset
  import opened Delta
  import opened Serial

  const MAX_RECORDS_PER_ZONE := 10000
  const REF_STALE_SECONDS := 300
  const CLEANUP_LEASE_SECONDS := 30
  /** What the cleaner takes for "no pin". */
  const NO_PIN := 999999999

  datatype ZoneRow = ZoneRow(currentSerial: int, currentVersion: nat, retain: int, recordCount: nat, rrsetCount: nat)

  datatype VersionRow = VersionRow(serial: int, requestId: string)

  datatype LedgerRow =
    | Committed(fingerprint: string, versionId: nat, serial: int)
    | Failed(fingerprint: string, code: ErrorCode)

  datatype KeyState = Active | Retiring | Revoked

  /** `expiresAt` is in milliseconds. */
  datatype KeyRow = KeyRow(gen: nat, keyName: string, secret: Bytes, state: KeyState, expiresAt: Option<int>)

  /** A row of transfer_refs; `lastSeen` is in milliseconds. */
  datatype Pin = Pin(versionId: nat, minVersion: nat, keyGen: nat, lastSeen: int, open: bool)

  datatype ZoneState = ZoneState(
    row: ZoneRow,
    versions: map<nat, VersionRow>,
    records: map<nat, Snapshot>,
    changes: map<nat, seq<ChangeRow>>,
    ledger: map<string, LedgerRow>,
    keys: map<string, KeyRow>,
    pins: map<string, Pin>)

  datatype TaskState = Pending | Running | Done

  datatype Task = Task(zone: string, state: TaskState, token: string, leaseExpires: int, attempts: nat)

  /** Tasks are never deleted and numbered in order of insertion. */
  datatype Store = Store(zones: map<string, ZoneState>, tasks: seq<Task>)

  function Enqueue(tasks: seq<Task>, zone: string): seq<Task> {
    tasks + [Task(zone, Pending, "", 0, 0)]
  }

  function RecordsOf(s: ZoneState, v: nat): Snapshot {
    if v in s.records then s.records[v] else {}
  }

  // ---------------------------------------------------------------------------
  // Zones
  // ---------------------------------------------------------------------------

  datatype NewZone = NewZone(serial: int, soa: Rdata, soaTtl: int, ns: seq<Rdata>, retain: int)

  function Dedup(ns: seq<Rdata>, seen: set<string>): seq<Rdata> {
    if ns == [] then []
    else if ns[0].text in seen then Dedup(ns[1..], seen)
    else [ns[0]] + Dedup(ns[1..], seen + {ns[0].text})
  }

  function InitialRows(zone: string, z: NewZone): Snapshot {
    {Row(Key(zone, SOA), z.soaTtl, z.soa)} + RRsetRows(Key(zone, NS), RRset(3600, Dedup(z.ns, {})))
  }

  function InitialZone(zone: string, z: NewZone): ZoneState {
    ZoneState(
      ZoneRow(z.serial, 0, z.retain, 1 + |Dedup(z.ns, {})|, 2),
      map[0 := VersionRow(z.serial, "__create__")],
      map[0 := InitialRows(zone, z)],
      map[], map[], map[], map[])
  }

  function CreateZone(st: Store, zone: string, z: NewZone): (Store, Option<ErrorCode>) {
    if zone in st.zones then (st, Some(ZoneAlreadyExists))
    else (st.(zones := st.zones[zone := InitialZone(zone, z)]), None)
  }

  function SetRetention(st: Store, zone: string, retain: int): (Store, Option<ErrorCode>) {
    if zone !in st.zones then (st, Some(ZoneNotFound))
    else
      var s := st.zones[zone];
      (Store(st.zones[zone := s.(row := s.row.(retain := retain))], Enqueue(st.tasks, zone)), None)
  }

  // ---------------------------------------------------------------------------
  // Publishing
  // ---------------------------------------------------------------------------

  /** `changes` is None when the request's list of changes is not a list. */
  datatype Request = Request(id: string, baseSerial: int, nextSerial: int, changes: Option<seq<RawOp>>, fingerprint: string)

  datatype PublishResult =
    | Published(versionId: nat, serial: int, replayed: bool)
    | Refused(code: ErrorCode, replayed: bool)
    | IntegrityFailure

  /** Every check the code makes before it writes a derived row, in its order. */
  ghost function Attempt(zone: string, s: ZoneState, req: Request): Result<Working, ErrorCode> {
    var step := Compare(req.baseSerial, req.nextSerial);
    if step == Undecidable then Err(SerialUndecidable)
    else if step != Greater then Err(SerialInvalid)
    else if Compare(s.row.currentSerial, req.baseSerial) != Equal then Err(VersionConflict)
    else
      var loaded := Load(RecordsOf(s, s.row.currentVersion));
      match ApplyChanges(zone, req.changes, Working(loaded, {}))
      case Err(code) => Err(code)
      case Ok(w) =>
        match Validate(zone, w.rrsets, req.nextSerial)
        case Some(code) => Err(code)
        case None =>
          if |Flatten(w.rrsets)| > MAX_RECORDS_PER_ZONE then Err(LimitExceeded) else Ok(w)
  }

  /** UNIQUE (zone, serial) of the versions table. */
  predicate SerialTaken(s: ZoneState, serial: int) {
    exists v :: v in s.versions && s.versions[v].serial == serial
  }

  /** The tables with one more version, made by `req`, holding `after` in `rrsetCount` RRsets. */
  function AppendVersion(s: ZoneState, req: Request, after: Snapshot, rrsetCount: nat, delta: seq<ChangeRow>): ZoneState {
    var v := s.row.currentVersion + 1;
    ZoneState(
      ZoneRow(req.nextSerial, v, s.row.retain, |after|, rrsetCount),
      s.versions[v := VersionRow(req.nextSerial, req.id)],
      s.records[v := after],
      s.changes[v := delta],
      s.ledger[req.id := Committed(req.fingerprint, v, req.nextSerial)],
      s.keys,
      s.pins)
  }

  ghost function CommitPublish(zone: string, s: ZoneState, req: Request, w: Working): ZoneState {
    var before, after := RecordsOf(s, s.row.currentVersion), Flatten(w.rrsets);
    AppendVersion(s, req, after, |w.rrsets|, DeltaOf(zone, before, after, w.changed))
  }

  /** What a request that the ledger already knows gets back. */
  function Replayed(row: LedgerRow, fingerprint: string): PublishResult {
    if row.fingerprint != fingerprint then Refused(IdempotencyConflict, false)
    else
      match row
      case Committed(_, v, serial) => Published(v, serial, true)
      case Failed(_, code) => Refused(code, true)
  }

  /** The except clause: a ledgerable error of a new request is recorded and committed. */
  function AfterError(tx: ZoneState, req: Request, code: ErrorCode): ZoneState {
    if Ledgerable(code) && req.id !in tx.ledger then tx.(ledger := tx.ledger[req.id := Failed(req.fingerprint, code)])
    else tx
  }

  /** How a new request ends, given the outcome of its checks and what it would commit. */
  function Conclude(s: ZoneState, req: Request, attempt: Result<Working, ErrorCode>, committed: ZoneState): (ZoneState, PublishResult) {
    match attempt
    case Err(code) => (AfterError(s, req, code), Refused(code, false))
    case Ok(w) =>
      if SerialTaken(s, req.nextSerial) then (s, IntegrityFailure)
      else (committed, Published(s.row.currentVersion + 1, req.nextSerial, false))
  }

  ghost function PublishZone(zone: string, s: ZoneState, req: Request): (ZoneState, PublishResult) {
    if req.id in s.ledger then (s, Replayed(s.ledger[req.id], req.fingerprint))
    else
      var attempt := Attempt(zone, s, req);
      Conclude(s, req, attempt, if attempt.Ok? then CommitPublish(zone, s, req, attempt.value) else s)
  }

  /** The store after a publish for `zone` ended with `outcome`; a new version queues a cleanup. */
  function Settle(st: Store, zone: string, outcome: (ZoneState, PublishResult)): (Store, PublishResult) {
    (Store(st.zones[zone := outcome.0],
           if outcome.1.Published? && !outcome.1.replayed then Enqueue(st.tasks, zone) else st.tasks),
     outcome.1)
  }

  ghost function Publish(st: Store, zone: string, req: Request): (Store, PublishResult) {
    if zone !in st.zones then (st, Refused(ZoneNotFound, false))
    else Settle(st, zone, PublishZone(zone, st.zones[zone], req))
  }

  // ---------------------------------------------------------------------------
  // Keys
  // ---------------------------------------------------------------------------

  ghost predicate IsNextGen(keys: map<string, KeyRow>, gen: nat) {
    && (forall k :: k in keys ==> keys[k].gen < gen)
    && (gen == 0 || exists k :: k in keys && keys[k].gen == gen - 1)
  }

  lemma {:induction false} NextGenExists(keys: map<string, KeyRow>)
    ensures exists gen :: IsNextGen(keys, gen)
    decreases |keys|
  {
    if keys == map[] {
      assert IsNextGen(keys, 0);
    } else {
      var k :| k in keys;
      var rest := keys - {k};
      NextGenExists(rest);
      var g: nat :| IsNextGen(rest, g);
      var best := if keys[k].gen < g then g else keys[k].gen + 1;
      assert forall x :: x in keys ==> x == k || x in rest;
      if best == g && g > 0 {
        var w :| w in rest && rest[w].gen == g - 1;
        assert w in keys && keys[w].gen == best - 1;
      }
      assert IsNextGen(keys, best);
    }
  }

  /** COALESCE(MAX(gen), -1) + 1. */
  ghost function NextGen(keys: map<string, KeyRow>): (gen: nat)
    ensures IsNextGen(keys, gen)
  {
    NextGenExists(keys);
    var gen :| IsNextGen(keys, gen);
    gen
  }

  datatype NewKey = NewKey(keyId: string, keyName: string, secret: Bytes, expiresAt: Option<int>)

  function Retire(row: KeyRow, expiresAt: int): KeyRow {
    if row.state == Active then row.(state := Retiring, expiresAt := Some(expiresAt)) else row
  }

  ghost function InstallKeyZone(s: ZoneState, k: NewKey, now: int): (ZoneState, Option<ErrorCode>) {
    var name := if k.keyName == "" then k.keyId else k.keyName;
    var expiresAt := if k.expiresAt.Some? then k.expiresAt.value else now + 3600 * 1000;
    if expiresAt <= now then (s, Some(KeyStateInvalid))
    else if exists id :: id in s.keys && s.keys[id].keyName == name && s.keys[id].state != Revoked
    then (s, Some(KeyStateInvalid))
    else if k.keyId in s.keys then (s, Some(KeyStateInvalid))
    else
      var rotated := map id | id in s.keys :: Retire(s.keys[id], expiresAt);
      (s.(keys := rotated[k.keyId := KeyRow(NextGen(s.keys), name, k.secret, Active, None)]), None)
  }

  function RevokeKeyZone(s: ZoneState, keyId: string): (ZoneState, Option<ErrorCode>) {
    if keyId !in s.keys then (s, Some(KeyNotFound))
    else if s.keys[keyId].state == Revoked then (s, Some(KeyStateInvalid))
    else (s.(keys := s.keys[keyId := s.keys[keyId].(state := Revoked, expiresAt := None)]), None)
  }

  ghost function InstallKey(st: Store, zone: string, k: NewKey, now: int): (Store, Option<ErrorCode>) {
    if zone !in st.zones then (st, Some(ZoneNotFound))
    else
      var (s, failure) := InstallKeyZone(st.zones[zone], k, now);
      (st.(zones := st.zones[zone := s]), failure)
  }

  function RevokeKey(st: Store, zone: string, keyId: string): (Store, Option<ErrorCode>) {
    if zone !in st.zones then (st, Some(ZoneNotFound))
    else
      var (s, failure) := RevokeKeyZone(st.zones[zone], keyId);
      (st.(zones := st.zones[zone := s]), failure)
  }

  // ---------------------------------------------------------------------------
  // Pins
  // ---------------------------------------------------------------------------

  /** The tables with one more pin. */
  function PinTransfer(s: ZoneState, ref: string, target: nat, minVersion: nat, keyGen: nat, now: int): ZoneState {
    s.(pins := s.pins[ref := Pin(target, minVersion, keyGen, now, true)])
  }

  function Heartbeat(st: Store, zone: string, ref: string, now: int): Store {
    if zone in st.zones && ref in st.zones[zone].pins then
      var s := st.zones[zone];
      st.(zones := st.zones[zone := s.(pins := s.pins[ref := s.pins[ref].(lastSeen := now)])])
    else st
  }

  function Release(st: Store, zone: string, ref: string, now: int): Store {
    if zone in st.zones && ref in st.zones[zone].pins then
      var s := st.zones[zone];
      st.(zones := st.zones[zone := s.(pins := s.pins[ref := s.pins[ref].(open := false, lastSeen := now)])])
    else st
  }

  // ---------------------------------------------------------------------------
  // Cleanup
  // ---------------------------------------------------------------------------

  predicate LowestTask(tasks: seq<Task>, id: nat, wanted: Task -> bool) {
    id < |tasks| && wanted(tasks[id]) && forall j :: 0 <= j < id ==> !wanted(tasks[j])
  }

  function IsPending(): Task -> bool {
    (t: Task) => t.state == Pending
  }

  function IsExpired(now: int): Task -> bool {
    (t: Task) => t.state == Running && t.leaseExpires < now
  }

  /** The task a worker gets: the first pending one, else the first whose lease ran out. */
  ghost predicate Claimable(tasks: seq<Task>, id: nat, now: int) {
    || LowestTask(tasks, id, IsPending())
    || ((forall j :: 0 <= j < |tasks| ==> tasks[j].state != Pending) && LowestTask(tasks, id, IsExpired(now)))
  }

  function Claimed(task: Task, token: string, now: int): Task {
    task.(state := Running, token := token, leaseExpires := now + CLEANUP_LEASE_SECONDS, attempts := task.attempts + 1)
  }

  function ClaimTask(st: Store, id: nat, token: string, now: int): Store
    requires id < |st.tasks|
  {
    st.(tasks := st.tasks[id := Claimed(st.tasks[id], token, now)])
  }

  function Min(a: int, b: int): int {
    if a <= b then a else b
  }

  function Max(a: int, b: int): int {
    if a >= b then a else b
  }

  /** The oldest version the transfer behind a pin may still read. */
  function PinFloor(p: Pin): int {
    Min(p.versionId, p.minVersion)
  }

  predicate LivePin(p: Pin, aliveAfter: int) {
    p.open && p.lastSeen > aliveAfter
  }

  predicate DeadPin(p: Pin, aliveAfter: int) {
    !p.open || p.lastSeen < aliveAfter
  }

  ghost predicate IsPinHorizon(pins: map<string, Pin>, aliveAfter: int, h: int) {
    && (forall r :: r in pins && LivePin(pins[r], aliveAfter) ==> h <= PinFloor(pins[r]))
    && (|| (exists r :: r in pins && LivePin(pins[r], aliveAfter) && PinFloor(pins[r]) == h)
        || ((forall r :: r in pins ==> !LivePin(pins[r], aliveAfter)) && h == NO_PIN))
  }

  lemma {:induction false} PinHorizonExists(pins: map<string, Pin>, aliveAfter: int)
    ensures exists h :: IsPinHorizon(pins, aliveAfter, h)
    decreases |pins|
  {
    if pins == map[] {
      assert IsPinHorizon(pins, aliveAfter, NO_PIN);
    } else {
      var k :| k in pins;
      var rest := pins - {k};
      PinHorizonExists(rest, aliveAfter);
      var h :| IsPinHorizon(rest, aliveAfter, h);
      assert forall x :: x in pins ==> x == k || x in rest;
      if !LivePin(pins[k], aliveAfter) {
        assert IsPinHorizon(pins, aliveAfter, h);
      } else if exists r :: r in rest && LivePin(rest[r], aliveAfter) && PinFloor(rest[r]) == h {
        var r :| r in rest && LivePin(rest[r], aliveAfter) && PinFloor(rest[r]) == h;
        assert r in pins && pins[r] == rest[r];
        assert IsPinHorizon(pins, aliveAfter, Min(h, PinFloor(pins[k])));
      } else {
        assert IsPinHorizon(pins, aliveAfter, PinFloor(pins[k]));
      }
    }
  }

  /** COALESCE(MIN(MIN(version_id, min_version)), 999999999) over the live pins. */
  ghost function PinHorizon(pins: map<string, Pin>, aliveAfter: int): (h: int)
    ensures IsPinHorizon(pins, aliveAfter, h)
  {
    PinHorizonExists(pins, aliveAfter);
    var h :| IsPinHorizon(pins, aliveAfter, h);
    h
  }

  function AliveAfter(now: int): int {
    now - REF_STALE_SECONDS * 1000
  }

  ghost function DeleteBefore(s: ZoneState, now: int): int {
    Min(s.row.currentVersion - Max(1, s.row.retain) + 1, PinHorizon(s.pins, AliveAfter(now)))
  }

  /** The versions that a cleanup with this bound deletes. */
  function Candidates(s: ZoneState, bound: int): set<nat> {
    set v | v in s.versions && v < bound
  }

  /** The history without the versions before `bound`. */
  function Prune(s: ZoneState, bound: int): ZoneState {
    var gone := Candidates(s, bound);
    s.(versions := s.versions - gone, records := s.records - gone, changes := s.changes - gone)
  }

  function Reap(pins: map<string, Pin>, aliveAfter: int): map<string, Pin> {
    map r | r in pins && !DeadPin(pins[r], aliveAfter) :: pins[r]
  }

  ghost function CleanZone(s: ZoneState, now: int): ZoneState {
    var bound := DeleteBefore(s, now);
    Prune(s, bound).(pins := Reap(s.pins, AliveAfter(now)))
  }

  /** One run of the cleaner for the zone of task `id`, whoever holds the task's lease. */
  ghost function RunCleanup(st: Store, id: nat, now: int): Store
    requires id < |st.tasks|
  {
    var zone := st.tasks[id].zone;
    var tasks := st.tasks[id := st.tasks[id].(state := Done)];
    if zone !in st.zones then st.(tasks := tasks)
    else Store(st.zones[zone := CleanZone(st.zones[zone], now)], tasks)
  }
}
