/**
 The storage class (app/storage.py, `Database`). Each method is one transaction: it works on
 a copy of the tables and stores the copy on commit; leaving the method without that is a
 rollback. Every method is proved to have exactly the effect of its function in `Store`, and
 to keep the invariant.
 */
module DatabaseModel {
  import opened Basics
  import opened Errors
  import opened Ordering
  import opened Records
  import opened Changeset
  import opened Delta
  import opened Serial
  import opened History
  import opened Names
  import PublishFacts
  import opened StoreInvariant
  import S = Store
  import opened Store

  /** How the body of a publish ends: a result, an API error, or a database error. */
  datatype Ending = Returned(result: PublishResult) | Raised(code: ErrorCode, replayed: bool) | DatabaseError

  function TextOrder(r: Row): SortKey {
    SortKey(0, r.rdata.text, r.key.rtype.Rank(), r.key.name, "")
  }

  /** SELECT ... ORDER BY rdata. */
  method SelectByText(rows: Snapshot) returns (list: seq<Row>)
    requires SnapshotOk(rows)
    ensures TextAscending(list) && (set r | r in list) == rows
  {
    forall a, b | a in rows && b in rows && TextOrder(a) == TextOrder(b) ensures a == b {
      RankInjective(a.key.rtype, b.key.rtype);
      assert RowKey(a) == RowKey(b);
    }
    list := Select(rows, TextOrder);
    EnumerateSorted(rows, TextOrder);
    forall i, j | 0 <= i < j < |list| ensures list[i] != list[j] && !StrLess(list[j].rdata.text, list[i].rdata.text) {
      assert Ordering.Less(TextOrder(list[i]), TextOrder(list[j]));
      Trichotomy(TextOrder(list[i]), TextOrder(list[j]));
      StrTrichotomy(list[i].rdata.text, list[j].rdata.text);
    }
  }

  // ---------------------------------------------------------------------------
  // Publishing
  // ---------------------------------------------------------------------------

  /** The part of a publish before its first write: load, apply, validate, count. */
  method Prepare(zone: string, s: ZoneState, req: Request) returns (r: Result<Working, ErrorCode>, total: nat)
    requires IsCanonical(zone) && s.row.currentVersion in s.records
    requires Servable(zone, RecordsOf(s, s.row.currentVersion), s.row.currentSerial)
    ensures r == Attempt(zone, s, req)
    ensures r.Ok? ==> total == |Flatten(r.value.rrsets)| && RRsetsOk(r.value.rrsets)
    ensures r.Ok? ==> AsLoaded(RecordsOf(s, s.row.currentVersion), r.value.rrsets, r.value.changed)
  {
    total := 0;
    var step := Compare(req.baseSerial, req.nextSerial);
    if step == Undecidable {
      return Err(SerialUndecidable), 0;
    }
    if step != Greater {
      return Err(SerialInvalid), 0;
    }
    if Compare(s.row.currentSerial, req.baseSerial) != Equal {
      return Err(VersionConflict), 0;
    }
    var before := s.records[s.row.currentVersion];
    var listing := SelectByText(before);
    var loaded := LoadRRsets(listing);
    r := ApplyOps(zone, req.changes, loaded);
    if r.Err? {
      return;
    }
    ChangesetIsGood(zone, before, req.changes);
    var failure := Validate(zone, r.value.rrsets, req.nextSerial);
    if failure.Some? {
      return Err(failure.value), 0;
    }
    total := CountRecords(r.value.rrsets);
    if total > MAX_RECORDS_PER_ZONE {
      return Err(LimitExceeded), 0;
    }
  }

  /** A request the ledger knows: its first outcome again, or a conflict. */
  method ReplayLedger(row: LedgerRow, fingerprint: string) returns (ending: Ending)
    ensures !ending.DatabaseError?
    ensures ending.Returned? ==> ending.result == Replayed(row, fingerprint)
    ensures ending.Raised? ==> Refused(ending.code, ending.replayed) == Replayed(row, fingerprint)
  {
    if row.fingerprint != fingerprint {
      return Raised(IdempotencyConflict, false);
    }
    match row {
      case Committed(_, v, serial) => ending := Returned(Published(v, serial, true));
      case Failed(_, code) => ending := Raised(code, true);
    }
  }

  /**
   The try block of a publish. `tx` is what the transaction has written when the block ends.
   An API error always ends it before the first write, so that committing the transaction
   together with the ledger row of a failure commits nothing else.
   */
  method PublishBody(zone: string, s: ZoneState, req: Request) returns (tx: ZoneState, ending: Ending)
    requires IsCanonical(zone) && s.row.currentVersion in s.records
    requires Servable(zone, RecordsOf(s, s.row.currentVersion), s.row.currentSerial)
    ensures ending.Raised? ==> tx == s
    ensures Concludes(s, req, tx, ending, PublishZone(zone, s, req))
  {
    tx := s;
    if req.id in s.ledger {
      ending := ReplayLedger(s.ledger[req.id], req.fingerprint);
      return;
    }
    var r, total := Prepare(zone, s, req);
    if r.Err? {
      FailedAttemptConcludes(zone, s, req, r.error);
      return tx, Raised(r.error, false);
    }
    PublishFacts.GoodAttemptConcludes(zone, s, req, r.value, CommitPublish(zone, s, req, r.value));
    var written: bool;
    tx, written := WriteVersion(zone, s, req, r.value, total);
    if !written {
      return tx, DatabaseError;
    }
    ending := Returned(Published(s.row.currentVersion + 1, req.nextSerial, false));
  }

  lemma {:induction false} FailedAttemptConcludes(zone: string, s: ZoneState, req: Request, code: ErrorCode)
    requires req.id !in s.ledger && Attempt(zone, s, req) == Err(code)
    ensures PublishZone(zone, s, req) == (AfterError(s, req, code), Refused(code, false))
  {
  }

  lemma {:induction false} WritesAppendVersion(s: ZoneState, req: Request, rows: Snapshot, rrsetCount: nat, delta: seq<ChangeRow>, v: nat)
    requires v == s.row.currentVersion + 1
    ensures s.(records := s.records[v := rows], changes := s.changes[v := delta])
             .(versions := s.versions[v := VersionRow(req.nextSerial, req.id)])
             .(row := ZoneRow(req.nextSerial, v, s.row.retain, |rows|, rrsetCount))
             .(ledger := s.ledger[req.id := Committed(req.fingerprint, v, req.nextSerial)])
         == AppendVersion(s, req, rows, rrsetCount, delta)
  {
  }

  lemma {:induction false} SettleEnding(st: Store, zone: string, s: ZoneState, req: Request, tx: ZoneState, ending: Ending,
                                        outcome: (ZoneState, PublishResult))
    requires zone in st.zones && st.zones[zone] == s && Concludes(s, req, tx, ending, outcome)
    ensures var settled := Settle(st, zone, outcome);
            match ending
            case Returned(r) =>
              settled == (Store(st.zones[zone := tx],
                                if r.Published? && !r.replayed then Enqueue(st.tasks, zone) else st.tasks), r)
            case Raised(code, replayed) =>
              settled == (st.(zones := st.zones[zone := AfterError(tx, req, code)]), Refused(code, replayed))
            case DatabaseError => settled == (st, IntegrityFailure)
  {
    assert st.zones[zone := s] == st.zones;
  }

  /** The writes of a publish, statement by statement; a repeated serial breaks them off half-way. */
  method WriteVersion(zone: string, s: ZoneState, req: Request, w: Working, total: nat) returns (tx: ZoneState, written: bool)
    requires s.row.currentVersion in s.records && SnapshotOk(RecordsOf(s, s.row.currentVersion))
    requires RRsetsOk(w.rrsets) && AsLoaded(RecordsOf(s, s.row.currentVersion), w.rrsets, w.changed)
    requires total == |Flatten(w.rrsets)|
    ensures written <==> !SerialTaken(s, req.nextSerial)
    ensures written ==> tx == CommitPublish(zone, s, req, w)
  {
    var v := s.row.currentVersion + 1;
    var rows, delta := Materialize(zone, s.records[s.row.currentVersion], w.rrsets, w.changed);
    WritesAppendVersion(s, req, rows, |w.rrsets|, delta, v);
    tx := s.(records := s.records[v := rows], changes := s.changes[v := delta]);
    if exists u :: u in s.versions && s.versions[u].serial == req.nextSerial {
      return tx, false;
    }
    tx := tx.(versions := tx.versions[v := VersionRow(req.nextSerial, req.id)]);
    tx := tx.(row := ZoneRow(req.nextSerial, v, s.row.retain, total, |w.rrsets|));
    tx := tx.(ledger := tx.ledger[req.id := Committed(req.fingerprint, v, req.nextSerial)]);
    written := true;
  }

  /** `outcome` is what the end of the try block leads to, once the except clauses are through. */
  ghost predicate Concludes(s: ZoneState, req: Request, tx: ZoneState, ending: Ending, outcome: (ZoneState, PublishResult)) {
    match ending
    case Returned(r) => outcome == (tx, r)
    case Raised(code, replayed) => outcome == (AfterError(tx, req, code), Refused(code, replayed))
    case DatabaseError => outcome == (s, IntegrityFailure)
  }

  // ---------------------------------------------------------------------------
  // Bodies of the other transactions
  // ---------------------------------------------------------------------------

  /** The loop that drops repeated name servers after canonicalization. */
  method DistinctServers(servers: seq<Rdata>) returns (ns: seq<Rdata>)
    ensures ns == Dedup(servers, {})
  {
    ns := [];
    var seen: set<string> := {};
    var i := 0;
    assert servers[0..] == servers;
    while i < |servers|
      invariant 0 <= i <= |servers|
      invariant Dedup(servers, {}) == ns + Dedup(servers[i..], seen)
    {
      assert servers[i..][1..] == servers[i + 1..];
      if servers[i].text !in seen {
        seen := seen + {servers[i].text};
        ns := ns + [servers[i]];
      }
      i := i + 1;
    }
  }

  method Rotate(s: ZoneState, k: NewKey, now: int) returns (tx: ZoneState, failure: Option<ErrorCode>)
    ensures (tx, failure) == InstallKeyZone(s, k, now)
  {
    var name := if k.keyName == "" then k.keyId else k.keyName;
    var expiresAt := if k.expiresAt.Some? then k.expiresAt.value else now + 3600 * 1000;
    if expiresAt <= now {
      return s, Some(KeyStateInvalid);
    }
    var gen := MaxGen(s.keys);
    if exists id :: id in s.keys && s.keys[id].keyName == name && s.keys[id].state != Revoked {
      return s, Some(KeyStateInvalid);
    }
    if k.keyId in s.keys {
      return s, Some(KeyStateInvalid);
    }
    tx := s.(keys := map id | id in s.keys :: Retire(s.keys[id], expiresAt));
    tx := tx.(keys := tx.keys[k.keyId := KeyRow(gen, name, k.secret, Active, None)]);
    failure := None;
  }

  /** Index of the task to claim, or the number of tasks when there is none. */
  method FindTask(tasks: seq<Task>, now: int) returns (i: nat)
    ensures i <= |tasks|
    ensures i < |tasks| ==> Claimable(tasks, i, now)
    ensures i == |tasks| ==> forall j :: 0 <= j < |tasks| ==> tasks[j].state != Pending && !IsExpired(now)(tasks[j])
  {
    i := 0;
    while i < |tasks| && tasks[i].state != Pending
      invariant 0 <= i <= |tasks|
      invariant forall j :: 0 <= j < i ==> tasks[j].state != Pending
    {
      i := i + 1;
    }
    if i < |tasks| {
      assert LowestTask(tasks, i, IsPending());
      return;
    }
    i := 0;
    while i < |tasks| && !(tasks[i].state == Running && tasks[i].leaseExpires < now)
      invariant 0 <= i <= |tasks|
      invariant forall j :: 0 <= j < i ==> !IsExpired(now)(tasks[j])
    {
      i := i + 1;
    }
    if i < |tasks| {
      assert LowestTask(tasks, i, IsExpired(now));
    }
  }

  method Clean(s: ZoneState, now: int) returns (tx: ZoneState)
    ensures tx == CleanZone(s, now)
  {
    var keep := Max(1, s.row.retain);
    var deleteBefore := s.row.currentVersion - keep + 1;
    var aliveAfter := AliveAfter(now);
    tx := s.(pins := map r | r in s.pins && !DeadPin(s.pins[r], aliveAfter) :: s.pins[r]);
    var horizon := OldestPin(tx.pins, aliveAfter);
    HorizonIgnoresDead(s.pins, aliveAfter, horizon);
    deleteBefore := Min(deleteBefore, horizon);
    tx := DeleteVersions(tx, deleteBefore);
  }

  // ---------------------------------------------------------------------------
  // The class
  // ---------------------------------------------------------------------------

  class Database {
    var store: Store

    ghost predicate Valid()
      reads this
    {
      Inv(store)
    }

    constructor ()
      ensures Valid() && store == Store(map[], [])
    {
      store := Store(map[], []);
    }

    method CreateZone(zone: string, z: NewZone) returns (failure: Option<ErrorCode>)
      requires Valid() && NewZoneOk(zone, z)
      modifies this
      ensures (store, failure) == S.CreateZone(old(store), zone, z)
      ensures Valid()
    {
      CreateKeepsInv(store, zone, z);
      if zone in store.zones {
        return Some(ZoneAlreadyExists);
      }
      var ns := DistinctServers(z.ns);
      var rows := {Row(Key(zone, SOA), z.soaTtl, z.soa)} + RRsetRows(Key(zone, NS), RRset(3600, ns));
      var s := ZoneState(ZoneRow(z.serial, 0, z.retain, 1 + |ns|, 2), map[0 := VersionRow(z.serial, "__create__")],
                         map[0 := rows], map[], map[], map[], map[]);
      store := store.(zones := store.zones[zone := s]);
      failure := None;
    }

    method SetRetention(zone: string, retain: int) returns (failure: Option<ErrorCode>)
      requires Valid()
      modifies this
      ensures (store, failure) == S.SetRetention(old(store), zone, retain)
      ensures Valid()
    {
      RetentionKeepsInv(store, zone, retain);
      if zone !in store.zones {
        return Some(ZoneNotFound);
      }
      var s := store.zones[zone];
      store := Store(store.zones[zone := s.(row := s.row.(retain := retain))], Enqueue(store.tasks, zone));
      failure := None;
    }

    method Publish(zone: string, req: Request) returns (result: PublishResult)
      requires Valid() && RequestOk(req)
      modifies this
      ensures (store, result) == S.Publish(old(store), zone, req)
      ensures Valid()
    {
      StorePublishKeepsInv(store, zone, req);
      if zone !in store.zones {
        return Refused(ZoneNotFound, false);
      }
      var s := store.zones[zone];
      assert IsCanonical(zone) && s.row.currentVersion in s.records
             && Servable(zone, RecordsOf(s, s.row.currentVersion), s.row.currentSerial) by {
        InvAt(store, zone);
        CurrentSnapshot(zone, s);
      }
      var tx, ending := PublishBody(zone, s, req);
      SettleEnding(store, zone, s, req, tx, ending, PublishZone(zone, s, req));
      match ending {
        case Returned(r) =>
          store := Store(store.zones[zone := tx], if r.Published? && !r.replayed then Enqueue(store.tasks, zone) else store.tasks);
          result := r;
        case Raised(code, replayed) =>
          store := store.(zones := store.zones[zone := AfterError(tx, req, code)]);
          result := Refused(code, replayed);
        case DatabaseError =>
          result := IntegrityFailure;
      }
    }

    method InstallKey(zone: string, k: NewKey, now: int) returns (failure: Option<ErrorCode>)
      requires Valid()
      modifies this
      ensures (store, failure) == S.InstallKey(old(store), zone, k, now)
      ensures Valid()
    {
      StoreInstallKeepsInv(store, zone, k, now);
      if zone !in store.zones {
        return Some(ZoneNotFound);
      }
      var tx, failed := Rotate(store.zones[zone], k, now);
      store := store.(zones := store.zones[zone := tx]);
      failure := failed;
    }

    method RevokeKey(zone: string, keyId: string) returns (failure: Option<ErrorCode>)
      requires Valid()
      modifies this
      ensures (store, failure) == S.RevokeKey(old(store), zone, keyId)
      ensures Valid()
    {
      StoreRevokeKeepsInv(store, zone, keyId);
      if zone !in store.zones {
        return Some(ZoneNotFound);
      }
      var s := store.zones[zone];
      assert store.zones[zone := s] == store.zones;
      if keyId !in s.keys {
        return Some(KeyNotFound);
      }
      if s.keys[keyId].state == Revoked {
        return Some(KeyStateInvalid);
      }
      var row := s.keys[keyId].(state := Revoked, expiresAt := None);
      store := store.(zones := store.zones[zone := s.(keys := s.keys[keyId := row])]);
      failure := None;
    }

    method HeartbeatTransfer(zone: string, ref: string, now: int)
      requires Valid()
      modifies this
      ensures store == S.Heartbeat(old(store), zone, ref, now)
      ensures Valid()
    {
      PinsKeepInv(store, zone, ref, now);
      if zone in store.zones && ref in store.zones[zone].pins {
        var s := store.zones[zone];
        store := store.(zones := store.zones[zone := s.(pins := s.pins[ref := s.pins[ref].(lastSeen := now)])]);
      }
    }

    method ReleaseTransfer(zone: string, ref: string, now: int)
      requires Valid()
      modifies this
      ensures store == S.Release(old(store), zone, ref, now)
      ensures Valid()
    {
      PinsKeepInv(store, zone, ref, now);
      if zone in store.zones && ref in store.zones[zone].pins {
        var s := store.zones[zone];
        store := store.(zones := store.zones[zone := s.(pins := s.pins[ref := s.pins[ref].(open := false, lastSeen := now)])]);
      }
    }

    /** `now` is in seconds here, as the lease is. */
    method ClaimCleanupTask(token: string, now: int) returns (id: Option<nat>)
      requires Valid()
      modifies this
      ensures Valid()
      ensures id.Some? ==> Claimable(old(store).tasks, id.value, now)
      ensures id.Some? ==> store == ClaimTask(old(store), id.value, token, now)
      ensures id.None? ==> store == old(store) && forall j: nat :: !Claimable(old(store).tasks, j, now)
    {
      var i := FindTask(store.tasks, now);
      if i == |store.tasks| {
        return None;
      }
      store := store.(tasks := store.tasks[i := Claimed(store.tasks[i], token, now)]);
      id := Some(i);
    }

    /** One run of the cleaner; the caller need not hold the task's lease any more. */
    method RunCleanup(id: nat, now: int)
      requires Valid() && id < |store.tasks|
      modifies this
      ensures store == S.RunCleanup(old(store), id, now)
      ensures Valid()
    {
      StoreCleanKeepsInv(store, id, now);
      var zone := store.tasks[id].zone;
      var tasks := store.tasks[id := store.tasks[id].(state := Done)];
      if zone !in store.zones {
        store := store.(tasks := tasks);
        return;
      }
      var tx := Clean(store.zones[zone], now);
      store := Store(store.zones[zone := tx], tasks);
    }
  }

  method MaxGen(keys: map<string, KeyRow>) returns (gen: nat)
    ensures gen == NextGen(keys)
  {
    gen := 0;
    var todo := keys.Keys;
    while todo != {}
      invariant todo <= keys.Keys
      invariant forall k :: k in keys && k !in todo ==> keys[k].gen < gen
      invariant gen == 0 || exists k :: k in keys && keys[k].gen == gen - 1
      decreases |todo|
    {
      var k :| k in todo;
      if keys[k].gen >= gen {
        gen := keys[k].gen + 1;
      }
      todo := todo - {k};
    }
    NextGenUnique(keys, gen, NextGen(keys));
  }

  lemma {:induction false} NextGenUnique(keys: map<string, KeyRow>, a: nat, b: nat)
    requires IsNextGen(keys, a) && IsNextGen(keys, b)
    ensures a == b
  {
  }

  lemma {:induction false} PinHorizonUnique(pins: map<string, Pin>, aliveAfter: int, a: int, b: int)
    requires IsPinHorizon(pins, aliveAfter, a) && IsPinHorizon(pins, aliveAfter, b)
    ensures a == b
  {
  }

  /** The aggregate query over the pins that survived the reaping. */
  method OldestPin(pins: map<string, Pin>, aliveAfter: int) returns (h: int)
    ensures IsPinHorizon(pins, aliveAfter, h)
  {
    var found := false;
    h := NO_PIN;
    var todo := pins.Keys;
    while todo != {}
      invariant todo <= pins.Keys
      invariant !found ==> h == NO_PIN && forall r :: r in pins && r !in todo ==> !LivePin(pins[r], aliveAfter)
      invariant found ==> exists r :: r in pins && LivePin(pins[r], aliveAfter) && PinFloor(pins[r]) == h
      invariant found ==> forall r :: r in pins && r !in todo && LivePin(pins[r], aliveAfter) ==> h <= PinFloor(pins[r])
      decreases |todo|
    {
      var r :| r in todo;
      if LivePin(pins[r], aliveAfter) {
        if !found || PinFloor(pins[r]) < h {
          h := PinFloor(pins[r]);
        }
        found := true;
      }
      todo := todo - {r};
    }
  }

  /** Dead pins protect nothing: reaping them first does not move the horizon. */
  lemma {:induction false} HorizonIgnoresDead(pins: map<string, Pin>, aliveAfter: int, h: int)
    requires IsPinHorizon(Reap(pins, aliveAfter), aliveAfter, h)
    ensures h == PinHorizon(pins, aliveAfter)
  {
    var live := Reap(pins, aliveAfter);
    assert forall r :: r in pins && LivePin(pins[r], aliveAfter) ==> r in live && live[r] == pins[r];
    assert IsPinHorizon(pins, aliveAfter, h);
    PinHorizonUnique(pins, aliveAfter, h, PinHorizon(pins, aliveAfter));
  }

  /** The tables after the rows of the versions in `gone` were deleted. */
  function Deleted(s: ZoneState, gone: set<nat>): ZoneState {
    s.(versions := s.versions - gone, records := s.records - gone, changes := s.changes - gone)
  }

  lemma {:induction false} DeleteOneMore(s: ZoneState, gone: set<nat>, v: nat)
    ensures var tx := Deleted(s, gone);
            Deleted(s, gone + {v}) == tx.(records := tx.records - {v}, changes := tx.changes - {v}, versions := tx.versions - {v})
  {
    assert s.versions - (gone + {v}) == (s.versions - gone) - {v};
    assert s.records - (gone + {v}) == (s.records - gone) - {v};
    assert s.changes - (gone + {v}) == (s.changes - gone) - {v};
  }

  lemma {:induction false} DeleteNone(s: ZoneState)
    ensures Deleted(s, {}) == s
  {
    assert s.versions - {} == s.versions && s.records - {} == s.records && s.changes - {} == s.changes;
  }

  /** The deletion loop over the candidate versions, oldest first. */
  method DeleteVersions(s: ZoneState, bound: int) returns (tx: ZoneState)
    ensures tx == Prune(s, bound)
  {
    tx := s;
    var todo := Candidates(s, bound);
    ghost var gone: set<nat> := {};
    DeleteNone(s);
    while todo != {}
      invariant gone !! todo && gone + todo == Candidates(s, bound)
      invariant tx == Deleted(s, gone)
      decreases |todo|
    {
      var least := LeastOf(todo);
      DeleteOneMore(s, gone, least);
      tx := tx.(records := tx.records - {least}, changes := tx.changes - {least}, versions := tx.versions - {least});
      todo := todo - {least};
      gone := gone + {least};
    }
    assert gone == Candidates(s, bound);
    assert Deleted(s, gone) == Prune(s, bound);
  }

  method LeastOf(s: set<nat>) returns (least: nat)
    requires s != {}
    ensures least in s && forall v :: v in s ==> least <= v
  {
    least :| least in s;
    var rest := s - {least};
    while rest != {}
      invariant least in s && rest <= s
      invariant forall v :: v in s && v !in rest ==> least <= v
      decreases |rest|
    {
      var v :| v in rest;
      if v < least {
        least := v;
      }
      rest := rest - {v};
    }
  }
}
