/** Which requests a publish accepts, what it answers to the others, and what it leaves at each key. */
module Verdicts {
  import opened Basics
  import opened Errors
  import opened Names
  import opened NameCodec
  import opened Records
  import opened Serial
  import opened Changeset
  import opened Delta
  import opened Fingerprint
  import opened Store
  import opened History
  import opened Transfer
  import opened Framing
  import opened PublishFacts
  import opened Requests

  // ---------------------------------------------------------------------------
  // Serials
  // ---------------------------------------------------------------------------

  /** The second serial is ahead of the first, by less than half the serial space. */
  predicate StepsForward(base: int, next: int) {
    0 < (next - base) % 0x1_0000_0000 < 0x8000_0000
  }

  lemma {:induction false} SerialTests(current: int, base: int, next: int)
    requires IsU32(current) && IsU32(base) && IsU32(next)
    ensures Compare(base, next) == Greater <==> StepsForward(base, next)
    ensures Compare(base, next) == Undecidable <==> (next - base) % 0x1_0000_0000 == 0x8000_0000
    ensures Compare(current, base) == Equal <==> current == base
  {
  }

  /** What a failure that the ledger keeps leaves behind. */
  function WithFailure(s: ZoneState, req: Request, code: ErrorCode): (ZoneState, PublishResult) {
    (s.(ledger := s.ledger[req.id := Failed(req.fingerprint, code)]), Refused(code, false))
  }

  /** A new request whose serials do not step forward is refused, for one of two reasons. */
  lemma {:induction false} BadStepIsRefused(zone: string, s: ZoneState, req: Request)
    requires RequestOk(req) && req.id !in s.ledger && !StepsForward(req.baseSerial, req.nextSerial)
    ensures PublishZone(zone, s, req)
         == WithFailure(s, req, if (req.nextSerial - req.baseSerial) % 0x1_0000_0000 == 0x8000_0000 then SerialUndecidable else SerialInvalid)
  {
    SerialTests(req.baseSerial, req.baseSerial, req.nextSerial);
  }

  /** A new request that steps forward, but from another serial than the current one, is a version conflict. */
  lemma {:induction false} StaleBaseIsRefused(zone: string, s: ZoneState, req: Request)
    requires RequestOk(req) && req.id !in s.ledger && StepsForward(req.baseSerial, req.nextSerial)
    requires IsU32(s.row.currentSerial) && req.baseSerial != s.row.currentSerial
    ensures PublishZone(zone, s, req) == WithFailure(s, req, VersionConflict)
  {
    SerialTests(s.row.currentSerial, req.baseSerial, req.nextSerial);
    assert Attempt(zone, s, req) == Err(VersionConflict);
  }

  // ---------------------------------------------------------------------------
  // The verdict on the contents
  // ---------------------------------------------------------------------------

  /** The request steps forward from the current serial. */
  predicate InStep(s: ZoneState, req: Request) {
    req.baseSerial == s.row.currentSerial && StepsForward(req.baseSerial, req.nextSerial)
  }

  /** Every operation of the request passes its checks, and there is one. */
  predicate WellFormed(zone: string, req: Request) {
    req.changes.Some? && req.changes.value != [] && AllChecked(zone, req.changes.value)
  }

  /** What the operations of the request make of the zone. */
  ghost function Outcome(zone: string, s: ZoneState, req: Request): Working
    requires WellFormed(zone, req)
  {
    ApplyAll(Checked(zone, req.changes.value), Working(Loaded(s), {}))
  }

  lemma {:induction false} AttemptInStep(zone: string, s: ZoneState, req: Request)
    requires RequestOk(req) && InStep(s, req)
    ensures Attempt(zone, s, req) ==
            match ApplyChanges(zone, req.changes, Working(Loaded(s), {}))
            case Err(code) => Err(code)
            case Ok(w) =>
              match Validate(zone, w.rrsets, req.nextSerial)
              case Some(code) => Err(code)
              case None => if |Flatten(w.rrsets)| > 10_000 then Err(LimitExceeded) else Ok(w)
  {
    SerialTests(s.row.currentSerial, req.baseSerial, req.nextSerial);
  }

  lemma {:induction false} AttemptWellFormed(zone: string, s: ZoneState, req: Request)
    requires RequestOk(req) && InStep(s, req) && WellFormed(zone, req)
    ensures Attempt(zone, s, req) ==
            match Validate(zone, Outcome(zone, s, req).rrsets, req.nextSerial)
            case Some(code) => Err(code)
            case None => if |Flatten(Outcome(zone, s, req).rrsets)| > 10_000 then Err(LimitExceeded) else Ok(Outcome(zone, s, req))
  {
    AttemptInStep(zone, s, req);
    ApplyRawIsApplyAll(zone, req.changes.value, Working(Loaded(s), {}));
  }

  lemma {:induction false} OutcomeIsProper(zone: string, s: ZoneState, req: Request)
    requires ZoneInv(zone, s) && WellFormed(zone, req)
    ensures RRsetsOk(Outcome(zone, s, req).rrsets)
  {
    CurrentSnapshot(zone, s);
    ApplyRawIsApplyAll(zone, req.changes.value, Working(Loaded(s), {}));
    ChangesetIsGood(zone, RecordsOf(s, s.row.currentVersion), req.changes);
  }

  /** The request steps forward, its operations pass, and the rows they lead to are a proper zone of bearable size. */
  ghost predicate Promising(zone: string, s: ZoneState, req: Request) {
    && InStep(s, req) && WellFormed(zone, req)
    && ZoneSnapshot(zone, Flatten(Outcome(zone, s, req).rrsets), req.nextSerial)
    && |Flatten(Outcome(zone, s, req).rrsets)| <= 10_000
  }

  /** And no retained version has its serial. */
  ghost predicate Acceptable(zone: string, s: ZoneState, req: Request) {
    Promising(zone, s, req) && forall v :: v in s.versions ==> s.versions[v].serial != req.nextSerial
  }

  lemma {:induction false} AcceptedAttempt(zone: string, s: ZoneState, req: Request)
    requires ZoneInv(zone, s) && RequestOk(req) && InStep(s, req) && WellFormed(zone, req)
    ensures Attempt(zone, s, req).Ok? <==>
              && ZoneSnapshot(zone, Flatten(Outcome(zone, s, req).rrsets), req.nextSerial)
              && |Flatten(Outcome(zone, s, req).rrsets)| <= 10_000
    ensures Attempt(zone, s, req).Ok? ==> Attempt(zone, s, req).value == Outcome(zone, s, req)
  {
    OutcomeIsProper(zone, s, req);
    FlattenIsZoneSnapshot(zone, Outcome(zone, s, req).rrsets, req.nextSerial);
    AttemptWellFormed(zone, s, req);
  }

  lemma {:induction false} AttemptedTests(zone: string, s: ZoneState, req: Request)
    requires Attempt(zone, s, req).Ok?
    ensures Compare(req.baseSerial, req.nextSerial) == Greater && Compare(s.row.currentSerial, req.baseSerial) == Equal
    ensures ApplyChanges(zone, req.changes, Working(Loaded(s), {})).Ok?
  {
  }

  lemma {:induction false} AppliedIsWellFormed(zone: string, req: Request, w: Working)
    requires ApplyChanges(zone, req.changes, w).Ok?
    ensures WellFormed(zone, req)
  {
    ApplyRawIsApplyAll(zone, req.changes.value, w);
  }

  lemma {:induction false} AttemptedIsInStep(zone: string, s: ZoneState, req: Request)
    requires RequestOk(req) && IsU32(s.row.currentSerial) && Attempt(zone, s, req).Ok?
    ensures InStep(s, req) && WellFormed(zone, req)
  {
    AttemptedTests(zone, s, req);
    SerialTests(s.row.currentSerial, req.baseSerial, req.nextSerial);
    AppliedIsWellFormed(zone, req, Working(Loaded(s), {}));
  }

  lemma {:induction false} FreshIff(zone: string, s: ZoneState, req: Request)
    requires req.id !in s.ledger
    ensures IsFresh(PublishZone(zone, s, req).1) <==> Attempt(zone, s, req).Ok? && !SerialTaken(s, req.nextSerial)
    ensures IsFresh(PublishZone(zone, s, req).1) ==>
              RecordsOf(PublishZone(zone, s, req).0, s.row.currentVersion + 1) == Flatten(Attempt(zone, s, req).value.rrsets)
  {
    match Attempt(zone, s, req)
    case Err(_) =>
    case Ok(w) => GoodAttemptConcludes(zone, s, req, w, CommitPublish(zone, s, req, w));
  }

  lemma {:induction false} CurrentIsU32(zone: string, s: ZoneState)
    requires ZoneInv(zone, s)
    ensures IsU32(s.row.currentSerial)
  {
    assert Has(s.versions, s.row.currentVersion);
  }

  lemma {:induction false} AttemptIff(zone: string, s: ZoneState, req: Request)
    requires ZoneInv(zone, s) && RequestOk(req)
    ensures Attempt(zone, s, req).Ok? <==> Promising(zone, s, req)
    ensures Attempt(zone, s, req).Ok? ==> Attempt(zone, s, req).value == Outcome(zone, s, req)
  {
    CurrentIsU32(zone, s);
    if Attempt(zone, s, req).Ok? {
      AttemptedIsInStep(zone, s, req);
    }
    if InStep(s, req) && WellFormed(zone, req) {
      AcceptedAttempt(zone, s, req);
    }
  }

  lemma {:induction false} SerialIsFree(s: ZoneState, serial: int)
    ensures SerialTaken(s, serial) <==> !forall v :: v in s.versions ==> s.versions[v].serial != serial
  {
  }

  /**
   A new request commits exactly if it steps forward from the zone's current serial to one that
   no retained version has, every operation passes its checks, and the rows they lead to are a
   proper zone of at most 10000 records under the new serial. Those rows are the new snapshot.
   */
  lemma {:induction false} CommitsIff(zone: string, s: ZoneState, req: Request)
    requires ZoneInv(zone, s) && RequestOk(req) && req.id !in s.ledger
    ensures IsFresh(PublishZone(zone, s, req).1) <==> Acceptable(zone, s, req)
    ensures IsFresh(PublishZone(zone, s, req).1) ==>
              RecordsOf(PublishZone(zone, s, req).0, s.row.currentVersion + 1) == Flatten(Outcome(zone, s, req).rrsets)
  {
    AttemptIff(zone, s, req);
    FreshIff(zone, s, req);
    SerialIsFree(s, req.nextSerial);
  }

  // ---------------------------------------------------------------------------
  // Refusals in step
  // ---------------------------------------------------------------------------

  /** The failures that use up an identifier. */
  predicate UsesUp(code: ErrorCode) {
    || code == VersionConflict || code == SerialInvalid || code == SerialUndecidable
    || code == ZoneInvalid || code == ChangesetInvalid || code == LimitExceeded
  }

  /** A failure of the contents: it is recorded if it uses up the identifier, and else forgotten. */
  function Ending(s: ZoneState, req: Request, code: ErrorCode): (ZoneState, PublishResult) {
    if UsesUp(code) then WithFailure(s, req, code) else (s, Refused(code, false))
  }

  /**
   A refused new request is in the ledger exactly for those six failures; after any other, such
   as a validation error, the zone is as if the request had never come, and its identifier is free.
   */
  lemma {:induction false} RefusalConsumesIff(zone: string, s: ZoneState, req: Request)
    requires req.id !in s.ledger && PublishZone(zone, s, req).1.Refused?
    ensures var (t, result) := PublishZone(zone, s, req);
            && (req.id in t.ledger <==> UsesUp(result.code))
            && (t, result) == Ending(s, req, result.code)
  {
    ZoneOutcomes(zone, s, req);
  }

  lemma {:induction false} AttemptFails(zone: string, s: ZoneState, req: Request, code: ErrorCode)
    requires req.id !in s.ledger && Attempt(zone, s, req) == Err(code)
    ensures PublishZone(zone, s, req) == Ending(s, req, code)
  {
  }

  /** A list of changes that is none or empty. */
  lemma {:induction false} NoChangesIsRefused(zone: string, s: ZoneState, req: Request)
    requires RequestOk(req) && req.id !in s.ledger && InStep(s, req) && (req.changes.None? || req.changes.value == [])
    ensures PublishZone(zone, s, req) == WithFailure(s, req, ChangesetInvalid)
  {
    AttemptInStep(zone, s, req);
    AttemptFails(zone, s, req, ChangesetInvalid);
  }

  lemma {:induction false} FirstFailureDecides(zone: string, raws: seq<RawOp>, w: Working, i: nat)
    requires i < |raws| && CheckOp(zone, raws[i]).Err? && forall j :: 0 <= j < i ==> CheckOp(zone, raws[j]).Ok?
    ensures ApplyRaw(zone, raws, w) == Err(CheckOp(zone, raws[i]).error)
    decreases i
  {
    if i > 0 {
      FirstFailureDecides(zone, raws[1..], ApplyOp(CheckOp(zone, raws[0]).value, w), i - 1);
    }
  }

  /** The first operation that fails its checks decides the answer. */
  lemma {:induction false} BadOperationIsRefused(zone: string, s: ZoneState, req: Request, i: nat)
    requires RequestOk(req) && req.id !in s.ledger && InStep(s, req) && req.changes.Some? && i < |req.changes.value|
    requires CheckOp(zone, req.changes.value[i]).Err? && forall j :: 0 <= j < i ==> CheckOp(zone, req.changes.value[j]).Ok?
    ensures PublishZone(zone, s, req) == Ending(s, req, CheckOp(zone, req.changes.value[i]).error)
  {
    AttemptInStep(zone, s, req);
    FirstFailureDecides(zone, req.changes.value, Working(Loaded(s), {}), i);
    AttemptFails(zone, s, req, CheckOp(zone, req.changes.value[i]).error);
  }

  /** The apex has one SOA, but under another serial. */
  ghost predicate OtherSerial(zone: string, rows: Snapshot, serial: int) {
    exists soa :: IsApexSoa(zone, rows, soa) && soa.rdata.serial != serial
  }

  lemma {:induction false} ValidateIsExact(zone: string, m: RRsets, serial: int)
    requires RRsetsOk(m) && !ZoneSnapshot(zone, Flatten(m), serial)
    ensures Validate(zone, m, serial) == Some(if OtherSerial(zone, Flatten(m), serial) then SerialInvalid else ZoneInvalid)
  {
    FlattenIsZoneSnapshot(zone, m, serial);
    ApexSoaIsEntry(zone, m);
  }

  lemma {:induction false} ApexSoaIsEntry(zone: string, m: RRsets)
    requires RRsetsOk(m)
    ensures var k := Key(zone, SOA);
            && (forall soa :: IsApexSoa(zone, Flatten(m), soa) ==> k in m && |m[k].entries| == 1 && soa.rdata == m[k].entries[0])
            && (k in m && |m[k].entries| == 1 ==> IsApexSoa(zone, Flatten(m), Row(k, m[k].ttl, m[k].entries[0])))
  {
    var k := Key(zone, SOA);
    FlattenOk(m);
    if k in m {
      SingleEntry(k, m[k]);
    }
    forall soa | IsApexSoa(zone, Flatten(m), soa)
      ensures k in m && |m[k].entries| == 1 && soa.rdata == m[k].entries[0]
    {
      assert soa in RowsAt(Flatten(m), k);
    }
  }

  /** Rows that are no proper zone under the new serial: which failure, and that it is recorded. */
  lemma {:induction false} BadZoneIsRefused(zone: string, s: ZoneState, req: Request)
    requires ZoneInv(zone, s) && RequestOk(req) && req.id !in s.ledger && InStep(s, req) && WellFormed(zone, req)
    requires !ZoneSnapshot(zone, Flatten(Outcome(zone, s, req).rrsets), req.nextSerial)
    ensures PublishZone(zone, s, req)
         == WithFailure(s, req, if OtherSerial(zone, Flatten(Outcome(zone, s, req).rrsets), req.nextSerial) then SerialInvalid else ZoneInvalid)
  {
    OutcomeIsProper(zone, s, req);
    ValidateIsExact(zone, Outcome(zone, s, req).rrsets, req.nextSerial);
    AttemptWellFormed(zone, s, req);
    AttemptFails(zone, s, req, Attempt(zone, s, req).error);
  }

  /** Too many records. */
  lemma {:induction false} BigZoneIsRefused(zone: string, s: ZoneState, req: Request)
    requires ZoneInv(zone, s) && RequestOk(req) && req.id !in s.ledger && InStep(s, req) && WellFormed(zone, req)
    requires ZoneSnapshot(zone, Flatten(Outcome(zone, s, req).rrsets), req.nextSerial)
    requires |Flatten(Outcome(zone, s, req).rrsets)| > 10_000
    ensures PublishZone(zone, s, req) == WithFailure(s, req, LimitExceeded)
  {
    OutcomeIsProper(zone, s, req);
    FlattenIsZoneSnapshot(zone, Outcome(zone, s, req).rrsets, req.nextSerial);
    AttemptWellFormed(zone, s, req);
    AttemptFails(zone, s, req, LimitExceeded);
  }

  /** A serial that a retained version still has: the database refuses the row, and all is rolled back. */
  lemma {:induction false} TakenSerialRollsBack(zone: string, s: ZoneState, req: Request)
    requires ZoneInv(zone, s) && RequestOk(req) && req.id !in s.ledger && InStep(s, req) && WellFormed(zone, req)
    requires ZoneSnapshot(zone, Flatten(Outcome(zone, s, req).rrsets), req.nextSerial)
    requires |Flatten(Outcome(zone, s, req).rrsets)| <= 10_000
    requires exists v :: v in s.versions && s.versions[v].serial == req.nextSerial
    ensures PublishZone(zone, s, req) == (s, IntegrityFailure)
  {
    AttemptIff(zone, s, req);
    GoodAttemptConcludes(zone, s, req, Outcome(zone, s, req), CommitPublish(zone, s, req, Outcome(zone, s, req)));
  }

  // ---------------------------------------------------------------------------
  // The verdict on one operation
  // ---------------------------------------------------------------------------

  /** Owner outside the zone or ill-formed, unsupported type or action, bad TTL, records that are no list. */
  lemma {:induction false} OperationVerdict(zone: string, raw: RawOp)
    ensures raw.NotAnObject? ==> CheckOp(zone, raw) == Err(ValidationError)
    ensures raw.RawOp? && CanonicalName(raw.name, zone).Err? ==> CheckOp(zone, raw) == Err(CanonicalName(raw.name, zone).error)
    ensures raw.RawOp? && CanonicalName(raw.name, zone).Ok? ==>
              && ((forall t: RType :: t.Text() != raw.typeName) ==> CheckOp(zone, raw) == Err(ValidationError))
              && (raw.action != "delete" && raw.action != "replace" ==> CheckOp(zone, raw) == Err(ValidationError))
              && (raw.action == "replace" && (raw.ttl.None? || raw.ttl.value < 0 || raw.ttl.value > 0xFFFF_FFFF || raw.records.None?) ==>
                    CheckOp(zone, raw) == Err(ValidationError))
              && (forall t: RType :: t.Text() == raw.typeName && raw.action == "delete" ==>
                    CheckOp(zone, raw) == Ok(Delete(Key(CanonicalName(raw.name, zone).value, t))))
  {
    forall t: RType | t.Text() == (if raw.RawOp? then raw.typeName else "") ensures TypeNamed(t.Text()) == Some(t) {
      TypeOfText(t);
    }
  }

  /** The records before this one are good, of bearable size, and all different. */
  predicate GoodBefore(name: string, records: seq<Result<Rdata, ErrorCode>>, i: nat, seen: set<string>)
    requires i <= |records|
  {
    && (forall j :: 0 <= j < i ==> records[j].Ok? && |name| + 11 + |records[j].value.wire| <= 64835 && records[j].value.text !in seen)
    && (forall j, k :: 0 <= j < k < i ==> records[j].value.text != records[k].value.text)
  }

  /** The first record that is bad, too long or there already decides, and how. */
  lemma {:induction false} FirstBadRecord(name: string, records: seq<Result<Rdata, ErrorCode>>, i: nat, seen: set<string>)
    requires IsCanonical(name) && i < |records| && GoodBefore(name, records, i, seen)
    ensures records[i].Err? ==> CheckRecords(name, records, seen) == Err(records[i].error)
    ensures records[i].Ok? && |name| + 11 + |records[i].value.wire| > 64835 ==> CheckRecords(name, records, seen) == Err(LimitExceeded)
    ensures records[i].Ok? && |name| + 11 + |records[i].value.wire| <= 64835
            && (records[i].value.text in seen || exists j :: 0 <= j < i && records[j].value.text == records[i].value.text) ==>
              CheckRecords(name, records, seen) == Err(ChangesetInvalid)
    decreases i
  {
    CanonicalEncodes(name);
    if i > 0 {
      FirstBadRecord(name, records[1..], i - 1, seen + {records[0].value.text});
    }
  }

  /** Without such a record they are all taken, as they are. */
  lemma {:induction false} GoodRecordsAreTaken(name: string, records: seq<Result<Rdata, ErrorCode>>, seen: set<string>)
    requires IsCanonical(name) && GoodBefore(name, records, |records|, seen)
    ensures CheckRecords(name, records, seen) == Ok(Values(records))
    decreases |records|
  {
    CanonicalEncodes(name);
    if records != [] {
      GoodRecordsAreTaken(name, records[1..], seen + {records[0].value.text});
      assert Values(records) == [records[0].value] + Values(records[1..]);
    }
  }

  function Values(records: seq<Result<Rdata, ErrorCode>>): seq<Rdata>
    requires forall j :: 0 <= j < |records| ==> records[j].Ok?
  {
    seq(|records|, i requires 0 <= i < |records| => records[i].value)
  }

  lemma {:induction false} FirstBadExists(name: string, records: seq<Result<Rdata, ErrorCode>>, n: nat)
    requires IsCanonical(name) && n <= |records| && GoodBefore(name, records, n, {}) && CheckRecords(name, records, {}).Ok?
    ensures GoodBefore(name, records, |records|, {})
    decreases |records| - n
  {
    if n < |records| {
      FirstBadRecord(name, records, n, {});
      FirstBadExists(name, records, n + 1);
    }
  }

  /** Exactly the lists without such a record are taken, as they are. */
  lemma {:induction false} RecordsIff(name: string, records: seq<Result<Rdata, ErrorCode>>, entries: seq<Rdata>)
    requires IsCanonical(name)
    ensures CheckRecords(name, records, {}) == Ok(entries) <==> GoodBefore(name, records, |records|, {}) && entries == Values(records)
  {
    if CheckRecords(name, records, {}).Ok? {
      FirstBadExists(name, records, 0);
    }
    if GoodBefore(name, records, |records|, {}) {
      GoodRecordsAreTaken(name, records, {});
    }
  }

  lemma {:induction false} TypeIff(text: string, t: RType)
    ensures TypeNamed(text) == Some(t) <==> t.Text() == text
  {
    TypeOfText(t);
  }

  /** The operation `op` that a change of the request amounts to, if it is in order. */
  predicate IsOperation(zone: string, raw: RawOp, op: Op) {
    && raw.RawOp? && CanonicalName(raw.name, zone) == Ok(op.key.name) && op.key.rtype.Text() == raw.typeName
    && match op
       case Delete(_) => raw.action == "delete"
       case Replace(_, rrset) =>
         && raw.action == "replace" && raw.ttl == Some(rrset.ttl) && 0 <= rrset.ttl <= 0xFFFF_FFFF && raw.records.Some?
         && GoodBefore(op.key.name, raw.records.value, |raw.records.value|, {}) && rrset.entries == Values(raw.records.value)
  }

  lemma {:induction false} KeyOfOperation(zone: string, raw: RawOp, op: Op)
    requires CheckOp(zone, raw) == Ok(op)
    ensures raw.RawOp? && CanonicalName(raw.name, zone) == Ok(op.key.name) && TypeNamed(raw.typeName) == Some(op.key.rtype)
  {
  }

  lemma {:induction false} KeyedOperation(zone: string, raw: RawOp, op: Op)
    requires raw.RawOp? && CanonicalName(raw.name, zone) == Ok(op.key.name) && TypeNamed(raw.typeName) == Some(op.key.rtype)
    ensures CheckOp(zone, raw) == Ok(op) <==>
              match op
              case Delete(_) => raw.action == "delete"
              case Replace(key, rrset) =>
                && raw.action == "replace" && raw.ttl == Some(rrset.ttl) && IsU32(rrset.ttl) && raw.records.Some?
                && CheckRecords(key.name, raw.records.value, {}) == Ok(rrset.entries)
  {
  }

  /** Exactly the changes that are in order are accepted, each as the operation it amounts to. */
  lemma {:induction false} OperationIff(zone: string, raw: RawOp, op: Op)
    requires IsCanonical(zone)
    ensures CheckOp(zone, raw) == Ok(op) <==> IsOperation(zone, raw, op)
  {
    if CheckOp(zone, raw) == Ok(op) {
      KeyOfOperation(zone, raw, op);
    }
    if raw.RawOp? && CanonicalName(raw.name, zone) == Ok(op.key.name) {
      TypeIff(raw.typeName, op.key.rtype);
      if TypeNamed(raw.typeName) == Some(op.key.rtype) {
        KeyedOperation(zone, raw, op);
        ContentsIff(zone, raw, op);
      }
    }
  }

  lemma {:induction false} ContentsIff(zone: string, raw: RawOp, op: Op)
    requires IsCanonical(zone) && raw.RawOp? && CanonicalName(raw.name, zone) == Ok(op.key.name)
    ensures op.Replace? && raw.records.Some? ==>
              (CheckRecords(op.key.name, raw.records.value, {}) == Ok(op.rrset.entries)
               <==> GoodBefore(op.key.name, raw.records.value, |raw.records.value|, {}) && op.rrset.entries == Values(raw.records.value))
  {
    CanonicalNameInZone(raw.name, zone);
    if op.Replace? && raw.records.Some? {
      RecordsIff(op.key.name, raw.records.value, op.rrset.entries);
    }
  }

  // ---------------------------------------------------------------------------
  // What a committed request leaves
  // ---------------------------------------------------------------------------

  /** Some operation of the request is on this key. */
  ghost predicate Touches(zone: string, req: Request, k: Key)
    requires WellFormed(zone, req)
  {
    exists op :: op in Checked(zone, req.changes.value) && op.key == k
  }

  lemma {:induction false} UnnamedIsUnchanged(zone: string, s: ZoneState, req: Request, k: Key)
    requires WellFormed(zone, req) && !Touches(zone, req, k)
    ensures k !in Outcome(zone, s, req).changed
  {
    ChangedKeysAreNamed(Checked(zone, req.changes.value), Working(Loaded(s), {}));
  }

  /**
   A committed request touches the keys it names and no others: at any other key the new
   snapshot has the rows of the old one, and the new delta has none.
   */
  lemma {:induction false} OnlyNamedKeysChange(zone: string, s: ZoneState, req: Request, r: Row)
    requires ZoneInv(zone, s) && RequestOk(req) && req.id !in s.ledger && IsFresh(PublishZone(zone, s, req).1)
    ensures WellFormed(zone, req)
    ensures var t, n := PublishZone(zone, s, req).0, s.row.currentVersion + 1;
            !Touches(zone, req, r.key) ==>
              && (r in RecordsOf(t, n) <==> r in RecordsOf(s, s.row.currentVersion))
              && r !in RowsWith(ChangesOf(t, n), Del) && r !in RowsWith(ChangesOf(t, n), Add)
  {
    CommitsIff(zone, s, req);
    DeltaIsOfChanged(zone, s, req, r);
    if !Touches(zone, req, r.key) {
      UnnamedIsUnchanged(zone, s, req, r.key);
    }
  }

  /** The new delta deletes and adds the old and new rows of the changed keys, each once. */
  lemma {:induction false} DeltaIsOfChanged(zone: string, s: ZoneState, req: Request, r: Row)
    requires ZoneInv(zone, s) && RequestOk(req) && req.id !in s.ledger && Acceptable(zone, s, req)
    ensures var t, n, changed := PublishZone(zone, s, req).0, s.row.currentVersion + 1, Outcome(zone, s, req).changed;
            && (r in RowsWith(ChangesOf(t, n), Del) <==> r in RecordsOf(s, s.row.currentVersion) && r.key in changed)
            && (r in RowsWith(ChangesOf(t, n), Add) <==> r in RecordsOf(t, n) && r.key in changed)
            && Distinct(RowsWith(ChangesOf(t, n), Del)) && Distinct(RowsWith(ChangesOf(t, n), Add))
            && (r.key !in changed ==> (r in RecordsOf(t, n) <==> r in RecordsOf(s, s.row.currentVersion)))
  {
    var before, w := RecordsOf(s, s.row.currentVersion), Outcome(zone, s, req);
    CurrentSnapshot(zone, s);
    AttemptIff(zone, s, req);
    AttemptOutcome(zone, s, req, before, w);
    CommittedDelta(zone, s, req, w);
    DeltaIsMinimal(zone, before, Flatten(w.rrsets), w.changed, r);
  }

  lemma {:induction false} CommittedDelta(zone: string, s: ZoneState, req: Request, w: Working)
    requires req.id !in s.ledger && Attempt(zone, s, req) == Ok(w) && !SerialTaken(s, req.nextSerial)
    ensures var t, n := PublishZone(zone, s, req).0, s.row.currentVersion + 1;
            && RecordsOf(t, n) == Flatten(w.rrsets)
            && ChangesOf(t, n) == DeltaOf(zone, RecordsOf(s, s.row.currentVersion), Flatten(w.rrsets), w.changed)
  {
    GoodAttemptConcludes(zone, s, req, w, CommitPublish(zone, s, req, w));
  }

  /** What a committed request leaves at a key, said of its operations on that key. */
  lemma {:induction false} PublishedKey(zone: string, s: ZoneState, req: Request, k: Key)
    requires ZoneInv(zone, s) && RequestOk(req) && req.id !in s.ledger && IsFresh(PublishZone(zone, s, req).1)
    ensures WellFormed(zone, req)
    ensures var mine, before := OpsFor(Checked(zone, req.changes.value), k), if k in Loaded(s) then Some(Loaded(s)[k]) else None;
            var left := if before.Some? && Deletes(mine) == [] then LastWritten(mine, before)
                        else if before.Some? && RestoresThenDeletes(mine, before.value) then None
                        else LastWritten(mine, None);
            RowsAt(RecordsOf(PublishZone(zone, s, req).0, s.row.currentVersion + 1), k) == if left.Some? then RRsetRows(k, left.value) else {}
  {
    CommitsIff(zone, s, req);
    LoadedIsProper(zone, s);
    OutcomeIsProper(zone, s, req);
    KeyOutcome(Checked(zone, req.changes.value), Loaded(s), k);
    FlattenOk(Outcome(zone, s, req).rrsets);
    KeyRows(Outcome(zone, s, req), k);
  }

  lemma {:induction false} KeyRows(w: Working, k: Key)
    requires RRsetsOk(w.rrsets)
    ensures var left := CellAt(w, k).stored; RowsAt(Flatten(w.rrsets), k) == if left.Some? then RRsetRows(k, left.value) else {}
  {
    FlattenOk(w.rrsets);
  }
}
