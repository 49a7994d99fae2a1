/** A publish happens as a whole or not at all, and its first outcome is its only one. */
module PublishFacts {
  import opened Basics
  import opened Errors
  import opened Records
  import opened Changeset
  import opened Delta
  import opened Store

  predicate IsFresh(result: PublishResult) {
    result.Published? && !result.replayed
  }

  /** A refusal the ledger keeps. */
  predicate IsRecorded(result: PublishResult) {
    result.Refused? && Ledgerable(result.code)
  }

  lemma {:induction false} ZoneOutcomes(zone: string, s: ZoneState, req: Request)
    ensures var (t, result) := PublishZone(zone, s, req);
            && (req.id in s.ledger ==> t == s && result == Replayed(s.ledger[req.id], req.fingerprint))
            && (!IsFresh(result) ==>
                  t == if req.id !in s.ledger && IsRecorded(result) then s.(ledger := s.ledger[req.id := Failed(req.fingerprint, result.code)])
                       else s)
            && (IsFresh(result) ==> req.id !in s.ledger && !SerialTaken(s, req.nextSerial)
                                    && result == Published(s.row.currentVersion + 1, req.nextSerial, false))
  {
    if req.id !in s.ledger {
      var attempt := Attempt(zone, s, req);
      match attempt
      case Err(code) =>
        assert PublishZone(zone, s, req) == (AfterError(s, req, code), Refused(code, false));
      case Ok(w) =>
        ConcludesGood(s, req, w, CommitPublish(zone, s, req, w));
    }
  }

  lemma {:induction false} ConcludesGood(s: ZoneState, req: Request, w: Working, committed: ZoneState)
    ensures Conclude(s, req, Ok(w), committed)
         == if SerialTaken(s, req.nextSerial) then (s, IntegrityFailure)
            else (committed, Published(s.row.currentVersion + 1, req.nextSerial, false))
  {
  }

  lemma {:induction false} GoodAttemptConcludes(zone: string, s: ZoneState, req: Request, w: Working, committed: ZoneState)
    requires req.id !in s.ledger && Attempt(zone, s, req) == Ok(w) && committed == CommitPublish(zone, s, req, w)
    ensures PublishZone(zone, s, req)
         == if SerialTaken(s, req.nextSerial) then (s, IntegrityFailure)
            else (committed, Published(s.row.currentVersion + 1, req.nextSerial, false))
  {
    ConcludesGood(s, req, w, committed);
    assert PublishZone(zone, s, req) == Conclude(s, req, Ok(w), committed);
  }

  /**
   A publish that does not commit a new version leaves every zone, version, record, delta,
   key, pin and task as it was; it may only add the one FAILED ledger row of a new request,
   and does so exactly for the ledgerable errors. A clash of serials rolls back all of it.
   */
  lemma {:induction false} FailureChangesNothing(st: Store, zone: string, req: Request)
    requires !IsFresh(Publish(st, zone, req).1)
    ensures var (st', result) := Publish(st, zone, req);
            && st'.tasks == st.tasks
            && (zone !in st.zones ==> st' == st)
            && (zone in st.zones ==>
                  var s := st.zones[zone];
                  st'.zones == if req.id !in s.ledger && IsRecorded(result)
                               then st.zones[zone := s.(ledger := s.ledger[req.id := Failed(req.fingerprint, result.code)])]
                               else st.zones)
            && (result.IntegrityFailure? ==> st' == st)
  {
    if zone in st.zones {
      ZoneOutcomes(zone, st.zones[zone], req);
      assert st.zones[zone := st.zones[zone]] == st.zones;
    }
  }

  lemma {:induction false} FreshZone(zone: string, s: ZoneState, req: Request)
    requires IsFresh(PublishZone(zone, s, req).1)
    ensures Attempt(zone, s, req).Ok? && PublishZone(zone, s, req).0 == CommitPublish(zone, s, req, Attempt(zone, s, req).value)
  {
    match Attempt(zone, s, req)
    case Err(_) =>
    case Ok(w) => ConcludesGood(s, req, w, CommitPublish(zone, s, req, w));
  }

  /** `t` is `s` with one more version, its snapshot, its delta and its ledger row, and nothing else changed. */
  ghost predicate OneVersionMore(s: ZoneState, req: Request, t: ZoneState) {
    var v := s.row.currentVersion + 1;
    && t.row.currentVersion == v && t.row.currentSerial == req.nextSerial && t.row.retain == s.row.retain
    && t.versions == s.versions[v := VersionRow(req.nextSerial, req.id)]
    && v in t.records && t.records == s.records[v := t.records[v]]
    && v in t.changes && t.changes == s.changes[v := t.changes[v]]
    && t.ledger == s.ledger[req.id := Committed(req.fingerprint, v, req.nextSerial)]
    && t.keys == s.keys && t.pins == s.pins
  }

  lemma {:induction false} AppendedRows(s: ZoneState, req: Request, after: Snapshot, rrsetCount: nat, delta: seq<ChangeRow>)
    ensures OneVersionMore(s, req, AppendVersion(s, req, after, rrsetCount, delta))
  {
  }

  /**
   A publish that commits adds one version, its snapshot, its delta and its ledger row, and
   moves the zone on to it; rows of other versions and of other requests stay.
   */
  lemma {:induction false} SuccessIsWhole(zone: string, s: ZoneState, req: Request)
    requires IsFresh(PublishZone(zone, s, req).1)
    ensures OneVersionMore(s, req, PublishZone(zone, s, req).0)
  {
    FreshZone(zone, s, req);
    var w := Attempt(zone, s, req).value;
    AppendedRows(s, req, Flatten(w.rrsets), |w.rrsets|,
                 DeltaOf(zone, RecordsOf(s, s.row.currentVersion), Flatten(w.rrsets), w.changed));
  }

  /** In the store a publish that commits touches its zone alone, and queues one cleanup of it, behind all others. */
  lemma {:induction false} SuccessQueuesCleanup(st: Store, zone: string, req: Request)
    requires IsFresh(Publish(st, zone, req).1)
    ensures var st' := Publish(st, zone, req).0;
            && zone in st.zones && zone in st'.zones && st'.zones == st.zones[zone := st'.zones[zone]]
            && OneVersionMore(st.zones[zone], req, st'.zones[zone])
            && |st'.tasks| == |st.tasks| + 1 && st'.tasks[..|st.tasks|] == st.tasks
            && st'.tasks[|st.tasks|].zone == zone && st'.tasks[|st.tasks|].state == Pending
            && Publish(st, zone, req).1 == Published(st.zones[zone].row.currentVersion + 1, req.nextSerial, false)
  {
    var s := st.zones[zone];
    SuccessIsWhole(zone, s, req);
    assert PublishZone(zone, s, req).1 == Publish(st, zone, req).1;
  }

  /** The same outcome, marked as a replay. */
  function AsReplay(result: PublishResult): PublishResult {
    match result
    case Published(v, serial, _) => Published(v, serial, true)
    case Refused(code, _) => Refused(code, true)
    case IntegrityFailure => IntegrityFailure
  }

  /** The ledger has a row of a new request after it exactly when it committed or failed ledgerably, and that row repeats the outcome. */
  lemma {:induction false} FirstOutcomeIsRecorded(zone: string, s: ZoneState, req: Request)
    requires req.id !in s.ledger
    ensures var (t, result) := PublishZone(zone, s, req);
            && (req.id in t.ledger <==> IsFresh(result) || IsRecorded(result))
            && (req.id in t.ledger ==> Replayed(t.ledger[req.id], req.fingerprint) == AsReplay(result))
  {
    ZoneOutcomes(zone, s, req);
    if IsFresh(PublishZone(zone, s, req).1) {
      SuccessIsWhole(zone, s, req);
    }
  }

  /** A retry changes nothing and gets the recorded outcome if its content is the same, else a conflict. */
  lemma {:induction false} RetryIsReplay(st: Store, zone: string, req: Request)
    requires zone in st.zones && req.id in st.zones[zone].ledger
    ensures Publish(st, zone, req).0 == st
    ensures Publish(st, zone, req).1 == Replayed(st.zones[zone].ledger[req.id], req.fingerprint)
    ensures st.zones[zone].ledger[req.id].fingerprint != req.fingerprint ==> Publish(st, zone, req).1 == Refused(IdempotencyConflict, false)
  {
  }

  /** No step of a publish touches the row of a request that the ledger has. */
  lemma {:induction false} LedgerRowStays(zone: string, s: ZoneState, req: Request, id: string)
    requires id in s.ledger
    ensures id in PublishZone(zone, s, req).0.ledger && PublishZone(zone, s, req).0.ledger[id] == s.ledger[id]
  {
    ZoneOutcomes(zone, s, req);
    if IsFresh(PublishZone(zone, s, req).1) {
      SuccessIsWhole(zone, s, req);
    }
  }
}
