/** Requests written down from checked operations, and what it takes for one to be committed. */
module Requests {
  import opened Basics
  import opened Errors
  import opened Names
  import opened NameCodec
  import opened Records
  import opened Serial
  import opened Changeset
  import opened Store
  import opened History
  import opened PublishFacts

  // ---------------------------------------------------------------------------
  // From operations back to requests
  // ---------------------------------------------------------------------------

  function Canonicalized(entries: seq<Rdata>): seq<Result<Rdata, ErrorCode>> {
    seq(|entries|, i requires 0 <= i < |entries| => Ok(entries[i]))
  }

  function Raw(op: Op): RawOp {
    match op
    case Delete(k) => RawOp("delete", k.name, k.rtype.Text(), None, None)
    case Replace(k, rrset) => RawOp("replace", k.name, k.rtype.Text(), Some(rrset.ttl), Some(Canonicalized(rrset.entries)))
  }

  function RawAll(ops: seq<Op>): seq<RawOp> {
    seq(|ops|, i requires 0 <= i < |ops| => Raw(ops[i]))
  }

  lemma {:induction false} AcceptedRecords(name: string, entries: seq<Rdata>, seen: set<string>)
    requires IsCanonical(name) && DistinctTexts(entries)
    requires forall i :: 0 <= i < |entries| ==> entries[i].text !in seen && |name| + 11 + |entries[i].wire| <= RR_LIMIT
    ensures CheckRecords(name, Canonicalized(entries), seen) == Ok(entries)
  {
    CanonicalEncodes(name);
    if entries != [] {
      assert Canonicalized(entries)[1..] == Canonicalized(entries[1..]);
      AcceptedRecords(name, entries[1..], seen + {entries[0].text});
      assert entries == [entries[0]] + entries[1..];
    }
  }

  lemma {:induction false} NamesItself(zone: string, name: string)
    requires IsCanonical(zone) && IsCanonical(name) && IsSubname(name, zone)
    ensures CanonicalName(name, zone) == Ok(name)
  {
    CanonicalNameInZone(name, zone);
  }

  lemma {:induction false} ReplaceIsChecked(zone: string, raw: RawOp, key: Key, rrset: RRset)
    requires raw.RawOp? && raw.action == "replace" && CanonicalName(raw.name, zone) == Ok(key.name)
    requires TypeNamed(raw.typeName) == Some(key.rtype) && raw.ttl == Some(rrset.ttl) && IsU32(rrset.ttl)
    requires raw.records.Some? && CheckRecords(key.name, raw.records.value, {}) == Ok(rrset.entries)
    ensures CheckOp(zone, raw) == Ok(Replace(key, rrset))
  {
  }

  lemma {:induction false} RawReplaceIsChecked(zone: string, key: Key, rrset: RRset)
    requires CanonicalName(key.name, zone) == Ok(key.name) && IsU32(rrset.ttl)
    requires CheckRecords(key.name, Canonicalized(rrset.entries), {}) == Ok(rrset.entries)
    ensures CheckOp(zone, Raw(Replace(key, rrset))) == Ok(Replace(key, rrset))
  {
    TypeOfText(key.rtype);
    ReplaceIsChecked(zone, Raw(Replace(key, rrset)), key, rrset);
  }

  /** Every operation within the bounds of the checks can be asked for. */
  lemma {:induction false} RawIsChecked(zone: string, op: Op)
    requires IsCanonical(zone) && OpOk(zone, op)
    ensures CheckOp(zone, Raw(op)) == Ok(op)
  {
    NamesItself(zone, op.key.name);
    if op.Replace? {
      assert forall i :: 0 <= i < |op.rrset.entries| ==> op.rrset.entries[i] in op.rrset.entries;
      AcceptedRecords(op.key.name, op.rrset.entries, {});
      RawReplaceIsChecked(zone, op.key, op.rrset);
    } else {
      TypeOfText(op.key.rtype);
    }
  }

  ghost predicate OpsOk(zone: string, ops: seq<Op>) {
    forall i :: 0 <= i < |ops| ==> OpOk(zone, ops[i])
  }

  lemma {:induction false} RawAreChecked(zone: string, ops: seq<Op>)
    requires IsCanonical(zone) && OpsOk(zone, ops)
    ensures AllChecked(zone, RawAll(ops)) && Checked(zone, RawAll(ops)) == ops
  {
    forall i | 0 <= i < |ops| ensures CheckOp(zone, RawAll(ops)[i]) == Ok(ops[i]) {
      RawIsChecked(zone, ops[i]);
    }
  }

  // ---------------------------------------------------------------------------
  // Committed requests
  // ---------------------------------------------------------------------------

  /** The map a publish starts from. */
  ghost function Loaded(s: ZoneState): RRsets {
    Load(RecordsOf(s, s.row.currentVersion))
  }

  /** A new request that starts from the current serial and moves to a free one ahead of it. */
  ghost predicate Advances(s: ZoneState, req: Request) {
    && req.id !in s.ledger && RequestOk(req) && req.baseSerial == s.row.currentSerial
    && Compare(s.row.currentSerial, req.nextSerial) == Greater && !SerialTaken(s, req.nextSerial)
  }

  /** The outcome of the operations passes the checks on the zone as a whole. */
  ghost predicate Publishable(zone: string, s: ZoneState, req: Request, w: Working) {
    Validate(zone, w.rrsets, req.nextSerial).None? && |Flatten(w.rrsets)| <= MAX_RECORDS_PER_ZONE
  }

  lemma {:induction false} Attempted(zone: string, s: ZoneState, req: Request, ops: seq<Op>, w: Working)
    requires IsCanonical(zone) && OpsOk(zone, ops) && ops != [] && req.changes == Some(RawAll(ops))
    requires Advances(s, req) && w == ApplyAll(ops, Working(Loaded(s), {})) && Publishable(zone, s, req, w)
    ensures Attempt(zone, s, req) == Ok(w)
  {
    RawAreChecked(zone, ops);
    ApplyRawIsApplyAll(zone, RawAll(ops), Working(Loaded(s), {}));
    assert RawAll(ops) != [];
    assert ApplyChanges(zone, req.changes, Working(Loaded(s), {})) == Ok(w);
  }

  lemma {:induction false} Commits(zone: string, s: ZoneState, req: Request, ops: seq<Op>, w: Working)
    requires IsCanonical(zone) && OpsOk(zone, ops) && ops != [] && req.changes == Some(RawAll(ops))
    requires Advances(s, req) && w == ApplyAll(ops, Working(Loaded(s), {})) && Publishable(zone, s, req, w)
    ensures IsFresh(PublishZone(zone, s, req).1)
    ensures PublishZone(zone, s, req).0 == CommitPublish(zone, s, req, w)
    ensures s.row.currentVersion + 1 == PublishZone(zone, s, req).0.row.currentVersion
    ensures RecordsOf(PublishZone(zone, s, req).0, s.row.currentVersion + 1) == Flatten(w.rrsets)
  {
    Attempted(zone, s, req, ops, w);
    GoodAttemptConcludes(zone, s, req, w, CommitPublish(zone, s, req, w));
  }

  // ---------------------------------------------------------------------------
  // Maps that stay publishable
  // ---------------------------------------------------------------------------

  lemma {:induction false} LoadedIsProper(zone: string, s: ZoneState)
    requires ZoneInv(zone, s)
    ensures RRsetsOk(Loaded(s)) && Validate(zone, Loaded(s), s.row.currentSerial).None?
    ensures |Flatten(Loaded(s))| == s.row.recordCount
    ensures Flatten(Loaded(s)) == RecordsOf(s, s.row.currentVersion)
  {
    CurrentSnapshot(zone, s);
    FlattenLoad(RecordsOf(s, s.row.currentVersion));
    FlattenIsZoneSnapshot(zone, Loaded(s), s.row.currentSerial);
  }

  /** The zone with a new apex SOA. */
  function WithSoa(zone: string, m: RRsets, soa: RRset): RRsets {
    m[Key(zone, SOA) := soa]
  }

  lemma {:induction false} NewSoaIsValid(zone: string, m: RRsets, serial: int, soa: RRset)
    requires Validate(zone, m, serial).None? && |soa.entries| == 1
    ensures Validate(zone, WithSoa(zone, m, soa), soa.entries[0].serial).None?
  {
  }

  lemma {:induction false} FlattenRemove(m: RRsets, k: Key)
    requires RRsetsOk(m) && k in m
    ensures |Flatten(m)| == |Flatten(m - {k})| + |m[k].entries|
  {
    assert m == (m - {k})[k := m[k]];
    FlattenExtend(m - {k}, k, m[k]);
    EntryCount(k, m[k]);
  }

  lemma {:induction false} NewSoaCounts(zone: string, m: RRsets, serial: int, soa: RRset)
    requires RRsetsOk(m) && Validate(zone, m, serial).None? && |soa.entries| == 1
    ensures RRsetsOk(WithSoa(zone, m, soa)) && |Flatten(WithSoa(zone, m, soa))| == |Flatten(m)|
  {
    var k, m' := Key(zone, SOA), WithSoa(zone, m, soa);
    FlattenRemove(m, k);
    FlattenRemove(m', k);
    assert m' - {k} == m - {k};
  }

  lemma {:induction false} DroppedIsValid(zone: string, m: RRsets, serial: int, k: Key)
    requires RRsetsOk(m) && Validate(zone, m, serial).None? && k in m && k != Key(zone, SOA) && k != Key(zone, NS)
    ensures Validate(zone, m - {k}, serial).None? && |Flatten(m - {k})| <= |Flatten(m)|
  {
    FlattenRemove(m, k);
    assert forall x :: x in m - {k} ==> x in m && (m - {k})[x] == m[x];
  }

  lemma {:induction false} AddedIsValid(zone: string, m: RRsets, serial: int, k: Key, rrset: RRset)
    requires RRsetsOk(m) && Validate(zone, m, serial).None? && |rrset.entries| == 1
    requires forall x :: x in m ==> x.name != k.name
    requires k.name != zone
    ensures Validate(zone, m[k := rrset], serial).None? && |Flatten(m[k := rrset])| == |Flatten(m)| + 1
  {
    FlattenExtend(m, k, rrset);
    EntryCount(k, rrset);
  }
}
