/**
 What every reachable zone satisfies: the shape of its version history, its snapshots and
 deltas, the request ledger, the keys; and that each transaction keeps it. Each invariant
 speaks only of the tables it needs, so a transaction that leaves them alone keeps it.
 */
module History {
  import opened Basics
  import opened Errors
  import opened Names
  import opened NameCodec
  import opened Ordering
  import opened Records
  import opened Changeset
  import opened Delta
  import opened Serial
  import opened Store

  // ---------------------------------------------------------------------------
  // Invariants of one zone
  // ---------------------------------------------------------------------------

  /** Version `v` has an entry in a table; the form in which the invariants below ask for it. */
  predicate Has<T>(table: map<nat, T>, v: nat) {
    v in table
  }

  /**
   Retained versions form one interval that ends in the current version; snapshots exist
   exactly for them, deltas exactly for those that some publish made, and no delta is empty.
   */
  ghost predicate HistoryShape(cur: nat, versions: set<nat>, records: set<nat>, changes: map<nat, seq<ChangeRow>>) {
    && cur in versions
    && (forall v :: v in versions ==> v <= cur)
    && (forall u, v :: u in versions && u <= v <= cur ==> v in versions)
    && records == versions
    && (forall v :: v in changes <==> v in versions && v >= 1)
    && (forall v :: v in changes ==> changes[v] != [])
  }

  /** Retained serials are distinct and each steps forward from its predecessor. */
  ghost predicate SerialsOk(cur: nat, currentSerial: int, versions: map<nat, VersionRow>) {
    && (forall v {:trigger Has(versions, v)} :: Has(versions, v) ==> IsU32(versions[v].serial))
    && (forall u, v {:trigger Has(versions, u), Has(versions, v)} ::
          Has(versions, u) && Has(versions, v) && versions[u].serial == versions[v].serial ==> u == v)
    && (forall u, v {:trigger Has(versions, u), Has(versions, v)} ::
          Has(versions, u) && Has(versions, v) && v == u + 1 ==> Compare(versions[u].serial, versions[v].serial) == Greater)
    && (cur in versions ==> currentSerial == versions[cur].serial)
  }

  /** Every retained snapshot is a good one for its version's serial. */
  ghost predicate SnapshotsOk(versions: map<nat, VersionRow>, records: map<nat, Snapshot>, good: (Snapshot, int) -> bool) {
    forall v {:trigger Has(records, v)} :: Has(records, v) && v in versions ==> good(records[v], versions[v].serial)
  }

  /** `delta` leads from one snapshot to the next over some set of keys that has the apex SOA. */
  ghost predicate DeltaBetween(zone: string, before: Snapshot, after: Snapshot, delta: seq<ChangeRow>) {
    exists changed: set<Key> ::
      Key(zone, SOA) in changed && AgreeOutside(before, after, changed) && delta == DeltaOf(zone, before, after, changed)
  }

  ghost function DeltaRelation(zone: string): (Snapshot, Snapshot, seq<ChangeRow>) -> bool {
    (before: Snapshot, after: Snapshot, delta: seq<ChangeRow>) => DeltaBetween(zone, before, after, delta)
  }

  /** Neighbouring snapshots are related through the delta of the later one. */
  ghost predicate Linked(records: map<nat, Snapshot>, changes: map<nat, seq<ChangeRow>>,
                         related: (Snapshot, Snapshot, seq<ChangeRow>) -> bool) {
    forall u, v {:trigger Has(records, u), Has(changes, v)} ::
      Has(records, u) && Has(changes, v) && v == u + 1 && v in records ==> related(records[u], records[v], changes[v])
  }

  /** The counters cached in the zone row are those of the current snapshot. */
  ghost predicate CountsOk(row: ZoneRow, records: map<nat, Snapshot>) {
    row.currentVersion in records ==>
      && row.recordCount == |records[row.currentVersion]|
      && row.rrsetCount == |KeysOf(records[row.currentVersion])|
  }

  /** A row that belongs to the zone and whose record is short enough for a signed message. */
  predicate RowShaped(zone: string, r: Row) {
    && IsCanonical(r.key.name) && IsSubname(r.key.name, zone)
    && |r.key.name| + 11 + |r.rdata.wire| <= RR_LIMIT
  }

  ghost predicate AllShaped(zone: string, rows: Snapshot) {
    forall r :: r in rows ==> RowShaped(zone, r)
  }

  /** A row that can be packed into a signed message: its TTL is a 32-bit value, too. */
  predicate RowFits(zone: string, r: Row) {
    RowShaped(zone, r) && IsU32(r.ttl)
  }

  ghost predicate AllFit(zone: string, rows: Snapshot) {
    forall r :: r in rows ==> RowFits(zone, r)
  }

  /** A proper snapshot for `serial`, of rows that fit messages if their TTLs do. */
  ghost predicate Servable(zone: string, rows: Snapshot, serial: int) {
    ZoneSnapshot(zone, rows, serial) && AllShaped(zone, rows)
  }

  /**
   Every TTL of version `v` is a 32-bit value, but for that of the apex SOA in version 0: the
   creation of a zone stores what the request says there, and every publish replaces it.
   */
  ghost predicate TtlsFit(zone: string, v: int, rows: Snapshot) {
    forall r :: r in rows ==> IsU32(r.ttl) || (v == 0 && r.key == Key(zone, SOA))
  }

  ghost function TtlRule(zone: string): (int, Snapshot) -> bool {
    (v: int, rows: Snapshot) => TtlsFit(zone, v, rows)
  }

  ghost predicate TtlsOk(records: map<nat, Snapshot>, rule: (int, Snapshot) -> bool) {
    forall v: nat {:trigger Has(records, v)} :: Has(records, v) ==> rule(v, records[v])
  }

  ghost function ServableIn(zone: string): (Snapshot, int) -> bool {
    (rows: Snapshot, serial: int) => Servable(zone, rows, serial)
  }

  /** The history tables of a zone, for any notion of a good snapshot and of a right delta. */
  ghost predicate HistoryOk(cur: nat, currentSerial: int, versions: map<nat, VersionRow>, records: map<nat, Snapshot>,
                            changes: map<nat, seq<ChangeRow>>, good: (Snapshot, int) -> bool,
                            related: (Snapshot, Snapshot, seq<ChangeRow>) -> bool) {
    && HistoryShape(cur, versions.Keys, records.Keys, changes)
    && SerialsOk(cur, currentSerial, versions)
    && SnapshotsOk(versions, records, good)
    && Linked(records, changes, related)
  }

  ghost predicate CommittedAs(ledger: map<string, LedgerRow>, q: string, v: int) {
    q in ledger && ledger[q].Committed? && ledger[q].versionId == v
  }

  ghost predicate HasCommit(ledger: map<string, LedgerRow>, v: int) {
    exists q :: CommittedAs(ledger, q, v)
  }

  /** Committed requests and the version numbers 1, 2, ..., `cur` correspond one to one. */
  ghost predicate LedgerBijection(cur: nat, ledger: map<string, LedgerRow>) {
    && (forall q, v :: CommittedAs(ledger, q, v) ==> 1 <= v <= cur)
    && (forall p, q, v :: CommittedAs(ledger, p, v) && CommittedAs(ledger, q, v) ==> p == q)
    && (forall v :: 1 <= v <= cur ==> HasCommit(ledger, v))
  }

  /** Each retained version names the request that made it, and failures are ledgerable ones. */
  ghost predicate LedgerMatches(versions: map<nat, VersionRow>, ledger: map<string, LedgerRow>) {
    && (forall v :: v in versions && v >= 1 ==>
                      && CommittedAs(ledger, versions[v].requestId, v)
                      && ledger[versions[v].requestId].serial == versions[v].serial)
    && (forall q :: q in ledger && ledger[q].Failed? ==> Ledgerable(ledger[q].code))
  }

  ghost predicate OneActive(keys: map<string, KeyRow>) {
    forall a, b :: a in keys && b in keys && keys[a].state == Active && keys[b].state == Active ==> a == b
  }

  ghost predicate GensDistinct(keys: map<string, KeyRow>) {
    forall a, b :: a in keys && b in keys && keys[a].gen == keys[b].gen ==> a == b
  }

  ghost predicate LiveNamesDistinct(keys: map<string, KeyRow>) {
    forall a, b :: a in keys && b in keys && keys[a].keyName == keys[b].keyName ==>
                     keys[a].state == Revoked || keys[b].state == Revoked || a == b
  }

  ghost predicate ExpiryIffRetiring(keys: map<string, KeyRow>) {
    forall a :: a in keys ==> (keys[a].expiresAt.Some? <==> keys[a].state == Retiring)
  }

  /** One ACTIVE key at most, generations and live names unique, an expiry iff RETIRING. */
  ghost predicate KeysWellFormed(keys: map<string, KeyRow>) {
    OneActive(keys) && GensDistinct(keys) && LiveNamesDistinct(keys) && ExpiryIffRetiring(keys)
  }

  ghost predicate ZoneInv(zone: string, s: ZoneState) {
    && IsCanonical(zone)
    && HistoryOk(s.row.currentVersion, s.row.currentSerial, s.versions, s.records, s.changes,
                 ServableIn(zone), DeltaRelation(zone))
    && TtlsOk(s.records, TtlRule(zone))
    && CountsOk(s.row, s.records)
    && LedgerBijection(s.row.currentVersion, s.ledger)
    && LedgerMatches(s.versions, s.ledger)
    && KeysWellFormed(s.keys)
  }

  ghost function ZoneRule(): (string, ZoneState) -> bool {
    (zone: string, s: ZoneState) => ZoneInv(zone, s)
  }

  predicate Known(zones: map<string, ZoneState>, zone: string) {
    zone in zones
  }

  ghost predicate EachZone(zones: map<string, ZoneState>, rule: (string, ZoneState) -> bool) {
    forall z {:trigger Known(zones, z)} :: Known(zones, z) ==> rule(z, zones[z])
  }

  /** The invariant of the store: every zone satisfies its own. */
  ghost predicate Inv(st: Store) {
    EachZone(st.zones, ZoneRule())
  }

  lemma {:induction false} InvAt(st: Store, zone: string)
    requires Inv(st) && zone in st.zones
    ensures ZoneInv(zone, st.zones[zone])
  {
    assert Known(st.zones, zone);
    assert ZoneRule()(zone, st.zones[zone]);
  }

  lemma {:induction false} InvUpdate(st: Store, zone: string, s: ZoneState, tasks: seq<Task>)
    requires Inv(st) && ZoneInv(zone, s)
    ensures Inv(Store(st.zones[zone := s], tasks))
  {
    assert ZoneRule()(zone, s);
    EachZoneUpdate(st.zones, zone, s, ZoneRule());
  }

  lemma {:induction false} EachZoneUpdate(zones: map<string, ZoneState>, zone: string, s: ZoneState, rule: (string, ZoneState) -> bool)
    requires EachZone(zones, rule) && rule(zone, s)
    ensures EachZone(zones[zone := s], rule)
  {
    var zones' := zones[zone := s];
    forall z | Known(zones', z) ensures rule(z, zones'[z]) {
      assert z != zone ==> Known(zones, z);
    }
  }

  // ---------------------------------------------------------------------------
  // What the API layer admits
  // ---------------------------------------------------------------------------

  /**
   Facts the API layer and the canonicalizer guarantee of a zone to be created: an absolute
   canonical name, a 32-bit serial that the SOA carries, a non-empty list of name servers,
   and RDATA made of at most two names and twenty octets. The TTL of the SOA is not checked.
   */
  ghost predicate NewZoneOk(zone: string, z: NewZone) {
    && IsCanonical(zone)
    && IsU32(z.serial) && z.soa.serial == z.serial
    && z.ns != []
    && |z.soa.wire| <= 2 * MAX_NAME_LEN + 20
    && (forall n :: n in z.ns ==> |n.wire| <= MAX_NAME_LEN)
  }

  predicate RequestOk(req: Request) {
    IsU32(req.baseSerial) && IsU32(req.nextSerial)
  }

  // ---------------------------------------------------------------------------
  // Zone creation
  // ---------------------------------------------------------------------------

  lemma {:induction false} DedupSound(ns: seq<Rdata>, seen: set<string>)
    ensures var d := Dedup(ns, seen);
            && DistinctTexts(d)
            && (forall n :: n in d ==> n in ns && n.text !in seen)
            && (ns != [] && seen == {} ==> d != [])
    decreases |ns|
  {
    if ns != [] {
      if ns[0].text in seen {
        DedupSound(ns[1..], seen);
      } else {
        DedupSound(ns[1..], seen + {ns[0].text});
        var rest := Dedup(ns[1..], seen + {ns[0].text});
        var d := [ns[0]] + rest;
        forall i, j | 0 <= i < j < |d| ensures d[i].text != d[j].text {
          assert d[j] == rest[j - 1] && rest[j - 1] in rest;
        }
      }
    }
  }

  /** This is the first name server of its text. */
  predicate FirstOfText(ns: seq<Rdata>, i: nat) {
    i < |ns| && forall j :: 0 <= j < i ==> ns[j].text != ns[i].text
  }

  lemma {:induction false} FirstExists(ns: seq<Rdata>, i: nat) returns (j: nat)
    requires i < |ns|
    ensures j <= i && ns[j].text == ns[i].text && FirstOfText(ns, j)
  {
    if k :| 0 <= k < i && ns[k].text == ns[i].text {
      j := FirstExists(ns, k);
    } else {
      j := i;
    }
  }

  lemma {:induction false} DedupKeeps(ns: seq<Rdata>, seen: set<string>, i: nat)
    requires FirstOfText(ns, i) && ns[i].text !in seen
    ensures ns[i] in Dedup(ns, seen)
    decreases |ns|
  {
    if i > 0 {
      assert forall j :: 0 <= j < i - 1 ==> ns[1..][j] == ns[j + 1];
      if ns[0].text in seen {
        DedupKeeps(ns[1..], seen, i - 1);
      } else {
        DedupKeeps(ns[1..], seen + {ns[0].text}, i - 1);
      }
    }
  }

  lemma {:induction false} DedupChooses(ns: seq<Rdata>, seen: set<string>, n: Rdata) returns (i: nat)
    requires n in Dedup(ns, seen)
    ensures FirstOfText(ns, i) && ns[i] == n && n.text !in seen
    decreases |ns|
  {
    if ns[0].text !in seen && n == ns[0] {
      i := 0;
    } else {
      var rest := if ns[0].text in seen then seen else seen + {ns[0].text};
      i := DedupChooses(ns[1..], rest, n);
      assert forall j :: 0 < j <= i ==> ns[j] == ns[1..][j - 1];
      i := i + 1;
    }
  }

  /** Of the given name servers, the first of every text is kept, and nothing else; so every text is there, once. */
  lemma {:induction false} DedupIsExact(ns: seq<Rdata>)
    ensures DistinctTexts(Dedup(ns, {}))
    ensures forall n :: n in Dedup(ns, {}) <==> exists i: nat :: FirstOfText(ns, i) && ns[i] == n
    ensures forall i :: 0 <= i < |ns| ==> exists d :: d in Dedup(ns, {}) && d.text == ns[i].text
  {
    DedupSound(ns, {});
    forall n ensures n in Dedup(ns, {}) <==> exists i: nat :: FirstOfText(ns, i) && ns[i] == n {
      if n in Dedup(ns, {}) {
        var i := DedupChooses(ns, {}, n);
      }
      if i: nat :| FirstOfText(ns, i) && ns[i] == n {
        DedupKeeps(ns, {}, i);
      }
    }
    forall i | 0 <= i < |ns| ensures exists d :: d in Dedup(ns, {}) && d.text == ns[i].text {
      var j := FirstExists(ns, i);
      assert ns[j] in Dedup(ns, {});
    }
  }

  /** The rows of a new zone, as an RRset map. */
  function InitialRRsets(zone: string, z: NewZone): RRsets {
    map[Key(zone, SOA) := RRset(z.soaTtl, [z.soa]), Key(zone, NS) := RRset(3600, Dedup(z.ns, {}))]
  }

  lemma {:induction false} InitialRRsetsOk(zone: string, z: NewZone)
    requires z.ns != []
    ensures RRsetsOk(InitialRRsets(zone, z))
    ensures InitialRRsets(zone, z).Keys == {Key(zone, SOA), Key(zone, NS)}
    ensures Flatten(InitialRRsets(zone, z)) == InitialRows(zone, z)
  {
    DedupSound(z.ns, {});
    var m := InitialRRsets(zone, z);
    forall r | r in InitialRows(zone, z) ensures r in Flatten(m) {
      assert r.key in m && r.rdata in m[r.key].entries;
    }
  }

  lemma {:induction false} InitialCounts(zone: string, z: NewZone)
    requires z.ns != []
    ensures |InitialRows(zone, z)| == 1 + |Dedup(z.ns, {})|
    ensures |KeysOf(InitialRows(zone, z))| == 2
  {
    InitialRRsetsOk(zone, z);
    FlattenOk(InitialRRsets(zone, z));
    DedupSound(z.ns, {});
    EntryCount(Key(zone, NS), RRset(3600, Dedup(z.ns, {})));
  }

  lemma {:induction false} InitialRowsShaped(zone: string, z: NewZone)
    requires NewZoneOk(zone, z)
    ensures AllShaped(zone, InitialRows(zone, z))
    ensures TtlsFit(zone, 0, InitialRows(zone, z))
  {
    assert IsSubname(zone, zone) by {
      SubnameIsSuffix(zone, zone);
    }
    assert |zone| < MAX_NAME_LEN by {
      CanonicalEncodes(zone);
    }
    DedupSound(z.ns, {});
  }

  /** The rows of a new zone: its SOA, and the first name server of every text. */
  ghost predicate IsInitialRow(zone: string, z: NewZone, row: Row) {
    || row == Row(Key(zone, SOA), z.soaTtl, z.soa)
    || (row.key == Key(zone, NS) && row.ttl == 3600 && exists i: nat :: FirstOfText(z.ns, i) && z.ns[i] == row.rdata)
  }

  lemma {:induction false} InitialRowsAre(zone: string, z: NewZone, row: Row)
    ensures row in InitialRows(zone, z) <==> IsInitialRow(zone, z, row)
  {
    DedupIsExact(z.ns);
    assert row.rdata in Dedup(z.ns, {}) <==> exists i: nat :: FirstOfText(z.ns, i) && z.ns[i] == row.rdata;
  }

  /** A zone as it is created: one version, 0, of the given serial; no keys, no pins, no requests. */
  ghost predicate NewlyCreated(zone: string, z: NewZone, s: ZoneState) {
    && s.row.currentSerial == z.serial && s.row.currentVersion == 0 && s.row.retain == z.retain
    && s.versions.Keys == {0} && s.versions[0].serial == z.serial && s.records.Keys == {0}
    && s.row.recordCount == |s.records[0]| && s.row.rrsetCount == |KeysOf(s.records[0])| == 2
    && (forall row :: row in s.records[0] <==> IsInitialRow(zone, z, row))
    && s.changes == map[] && s.ledger == map[] && s.keys == map[] && s.pins == map[]
  }

  lemma {:induction false} InitialZoneIsNew(zone: string, z: NewZone)
    requires z.ns != []
    ensures NewlyCreated(zone, z, InitialZone(zone, z))
  {
    InitialCounts(zone, z);
    forall row ensures row in InitialRows(zone, z) <==> IsInitialRow(zone, z, row) {
      InitialRowsAre(zone, z, row);
    }
  }

  /**
   A creation, in full. It succeeds exactly for a name without a zone. The new zone then has one
   version, 0, of the given serial, with the SOA and the first name server of every text as its
   rows; it counts them, and has no keys, no pins and no requests. Nothing else changes.
   */
  lemma {:induction false} CreationIsExact(st: Store, zone: string, z: NewZone)
    requires z.ns != []
    ensures var (st', failure) := CreateZone(st, zone, z);
            && st'.tasks == st.tasks
            && (failure == if zone in st.zones then Some(ZoneAlreadyExists) else None)
            && (failure.Some? ==> st' == st)
            && (failure.None? ==>
                  && st'.zones.Keys == st.zones.Keys + {zone}
                  && (forall other :: other in st.zones && other != zone ==> st'.zones[other] == st.zones[other])
                  && NewlyCreated(zone, z, st'.zones[zone]))
  {
    InitialZoneIsNew(zone, z);
  }

  /** Whether a new zone can be transferred at all hangs on the one TTL that is not checked. */
  lemma {:induction false} InitialRowsFitIff(zone: string, z: NewZone)
    requires NewZoneOk(zone, z)
    ensures AllFit(zone, InitialRows(zone, z)) <==> IsU32(z.soaTtl)
  {
    InitialRowsShaped(zone, z);
    assert Row(Key(zone, SOA), z.soaTtl, z.soa) in InitialRows(zone, z);
  }

  lemma {:induction false} InitialSnapshot(zone: string, z: NewZone)
    requires NewZoneOk(zone, z)
    ensures ZoneSnapshot(zone, InitialRows(zone, z), z.serial)
  {
    InitialRRsetsOk(zone, z);
    var m := InitialRRsets(zone, z);
    assert Validate(zone, m, z.serial).None?;
    FlattenIsZoneSnapshot(zone, m, z.serial);
  }

  lemma {:induction false} SingleVersion(row: VersionRow, rows: Snapshot, good: (Snapshot, int) -> bool,
                                         related: (Snapshot, Snapshot, seq<ChangeRow>) -> bool)
    requires good(rows, row.serial) && IsU32(row.serial)
    ensures HistoryOk(0, row.serial, map[0 := row], map[0 := rows], map[], good, related)
    ensures LedgerBijection(0, map[]) && LedgerMatches(map[0 := row], map[]) && KeysWellFormed(map[])
  {
  }

  lemma {:induction false} SingleTtls(rows: Snapshot, rule: (int, Snapshot) -> bool)
    requires rule(0, rows)
    ensures TtlsOk(map[0 := rows], rule)
  {
  }

  lemma {:induction false} InitialZoneInv(zone: string, z: NewZone)
    requires NewZoneOk(zone, z)
    ensures ZoneInv(zone, InitialZone(zone, z))
  {
    InitialSnapshot(zone, z);
    InitialRowsShaped(zone, z);
    InitialCounts(zone, z);
    SingleTtls(InitialRows(zone, z), TtlRule(zone));
    SingleVersion(VersionRow(z.serial, "__create__"), InitialRows(zone, z), ServableIn(zone), DeltaRelation(zone));
  }

  // ---------------------------------------------------------------------------
  // Publishing: the new contents
  // ---------------------------------------------------------------------------

  /** RRsets at changed keys were written with a checked TTL. */
  ghost predicate WrittenTtlsFit(w: Working) {
    forall k :: k in w.changed && k in w.rrsets ==> IsU32(w.rrsets[k].ttl)
  }

  /** What holds of a changeset that passed every check. */
  ghost predicate GoodOutcome(zone: string, before: Snapshot, serial: int, w: Working) {
    && RRsetsOk(w.rrsets)
    && ZoneSnapshot(zone, Flatten(w.rrsets), serial)
    && AsLoaded(before, w.rrsets, w.changed)
    && AgreeOutside(before, Flatten(w.rrsets), w.changed)
    && Key(zone, SOA) in w.changed
    && AllShaped(zone, Flatten(w.rrsets))
    && WrittenTtlsFit(w)
  }

  lemma {:induction false} AgreesWhereUnchanged(before: Snapshot, w: Working)
    requires SnapshotOk(before) && AsLoaded(before, w.rrsets, w.changed)
    ensures AgreeOutside(before, Flatten(w.rrsets), w.changed)
  {
    CopyAndPatchRefinesRewrite(before, w.rrsets, w.changed);
    assert forall r: Row :: r.key !in w.changed ==> (r in before <==> r in Patch(before, w.rrsets, w.changed));
  }

  lemma {:induction false} OpKeepsShape(zone: string, op: Op, w: Working)
    requires OpOk(zone, op) && AllShaped(zone, Flatten(w.rrsets)) && WrittenTtlsFit(w)
    ensures AllShaped(zone, Flatten(ApplyOp(op, w).rrsets)) && WrittenTtlsFit(ApplyOp(op, w))
  {
  }

  /** Accepted operations only ever put rows into the map that fit a message. */
  lemma {:induction false} RowsStayShaped(zone: string, ops: seq<Op>, w: Working)
    requires forall op :: op in ops ==> OpOk(zone, op)
    requires AllShaped(zone, Flatten(w.rrsets)) && WrittenTtlsFit(w)
    ensures AllShaped(zone, Flatten(ApplyAll(ops, w).rrsets)) && WrittenTtlsFit(ApplyAll(ops, w))
    decreases |ops|
  {
    if ops != [] {
      assert ops[0] in ops;
      OpKeepsShape(zone, ops[0], w);
      RowsStayShaped(zone, ops[1..], ApplyOp(ops[0], w));
    }
  }

  lemma {:induction false} ChangesetIsGood(zone: string, before: Snapshot, changes: Option<seq<RawOp>>)
    requires IsCanonical(zone) && SnapshotOk(before) && AllShaped(zone, before)
    requires ApplyChanges(zone, changes, Working(Load(before), {})).Ok?
    ensures var w := ApplyChanges(zone, changes, Working(Load(before), {})).value;
            RRsetsOk(w.rrsets) && AsLoaded(before, w.rrsets, w.changed) && AllShaped(zone, Flatten(w.rrsets)) && WrittenTtlsFit(w)
  {
    var w0 := Working(Load(before), {});
    FlattenLoad(before);
    ApplyRawIsApplyAll(zone, changes.value, w0);
    var ops := Checked(zone, changes.value);
    forall op | op in ops ensures OpOk(zone, op) {
      var i :| 0 <= i < |ops| && ops[i] == op;
      CheckOpSound(zone, changes.value[i]);
    }
    UnchangedKeysAreAsLoaded(ops, w0);
    RowsStayShaped(zone, ops, w0);
  }

  /** An accepted changeset changes the apex SOA, because the serial advances. */
  lemma {:induction false} SoaIsChanged(zone: string, before: Snapshot, after: Snapshot, changed: set<Key>, oldSerial: int, newSerial: int)
    requires ZoneSnapshot(zone, before, oldSerial) && ZoneSnapshot(zone, after, newSerial)
    requires AgreeOutside(before, after, changed) && oldSerial != newSerial
    ensures Key(zone, SOA) in changed
  {
    var soa := Key(zone, SOA);
    var a :| IsApexSoa(zone, before, a) && a.rdata.serial == oldSerial;
    var b :| IsApexSoa(zone, after, b) && b.rdata.serial == newSerial;
    assert a in RowsAt(before, soa) && b in RowsAt(after, soa);
    assert a in after ==> a in RowsAt(after, soa);
  }

  lemma {:induction false} AttemptIsGood(zone: string, s: ZoneState, req: Request, before: Snapshot)
    requires IsCanonical(zone) && before == RecordsOf(s, s.row.currentVersion)
    requires ZoneSnapshot(zone, before, s.row.currentSerial) && AllShaped(zone, before)
    requires Attempt(zone, s, req).Ok?
    ensures GoodOutcome(zone, before, req.nextSerial, Attempt(zone, s, req).value)
    ensures Compare(s.row.currentSerial, req.nextSerial) == Greater && s.row.currentSerial != req.nextSerial
  {
    var w := Attempt(zone, s, req).value;
    assert ApplyChanges(zone, req.changes, Working(Load(before), {})) == Ok(w);
    ChangesetIsGood(zone, before, req.changes);
    FlattenIsZoneSnapshot(zone, w.rrsets, req.nextSerial);
    AgreesWhereUnchanged(before, w);
    SerialsAdvance(s.row.currentSerial, req.baseSerial, req.nextSerial);
    SoaIsChanged(zone, before, Flatten(w.rrsets), w.changed, s.row.currentSerial, req.nextSerial);
  }

  lemma {:induction false} SerialsAdvance(current: int, base: int, next: int)
    requires Compare(base, next) == Greater && Compare(current, base) == Equal
    ensures Compare(current, next) == Greater && current != next
  {
  }

  lemma {:induction false} GoodDeltaNotEmpty(zone: string, before: Snapshot, after: Snapshot, changed: set<Key>, serial: int)
    requires ZoneSnapshot(zone, after, serial) && Key(zone, SOA) in changed
    ensures DeltaOf(zone, before, after, changed) != []
  {
    var keys := Enumerate(changed, ChangedOrder(zone));
    var soa :| IsApexSoa(zone, after, soa);
    assert soa in RowsAt(after, Key(zone, SOA));
    ListingElements(after, keys);
    assert soa in Listing(after, keys);
  }

  // ---------------------------------------------------------------------------
  // Publishing: table by table
  // ---------------------------------------------------------------------------

  lemma {:induction false} ShapeGrows(cur: nat, versions: set<nat>, changes: map<nat, seq<ChangeRow>>, delta: seq<ChangeRow>)
    requires HistoryShape(cur, versions, versions, changes) && delta != []
    ensures HistoryShape(cur + 1, versions + {cur + 1}, versions + {cur + 1}, changes[cur + 1 := delta])
  {
  }

  lemma {:induction false} SerialsGrow(cur: nat, currentSerial: int, versions: map<nat, VersionRow>, next: VersionRow)
    requires SerialsOk(cur, currentSerial, versions)
    requires cur in versions && forall v :: v in versions ==> v <= cur
    requires IsU32(next.serial) && Compare(currentSerial, next.serial) == Greater
    requires forall v :: v in versions ==> versions[v].serial != next.serial
    ensures SerialsOk(cur + 1, next.serial, versions[cur + 1 := next])
  {
    var versions' := versions[cur + 1 := next];
    assert forall v :: Has(versions', v) && v != cur + 1 ==> Has(versions, v);
  }

  lemma {:induction false} SnapshotsGrow(versions: map<nat, VersionRow>, records: map<nat, Snapshot>,
                                         n: nat, next: VersionRow, after: Snapshot, good: (Snapshot, int) -> bool)
    requires SnapshotsOk(versions, records, good) && n !in versions && good(after, next.serial)
    ensures SnapshotsOk(versions[n := next], records[n := after], good)
  {
    var records' := records[n := after];
    assert forall v :: Has(records', v) && v != n ==> Has(records, v);
  }

  lemma {:induction false} LinkedGrows(cur: nat, records: map<nat, Snapshot>, changes: map<nat, seq<ChangeRow>>,
                                       after: Snapshot, delta: seq<ChangeRow>,
                                       related: (Snapshot, Snapshot, seq<ChangeRow>) -> bool)
    requires Linked(records, changes, related)
    requires cur in records && forall v :: v in records ==> v <= cur
    requires related(records[cur], after, delta)
    ensures Linked(records[cur + 1 := after], changes[cur + 1 := delta], related)
  {
    var records', changes' := records[cur + 1 := after], changes[cur + 1 := delta];
    forall u, v | Has(records', u) && Has(changes', v) && v == u + 1 && v in records'
      ensures related(records'[u], records'[v], changes'[v])
    {
      if v != cur + 1 {
        assert Has(records, u) && Has(changes, v);
      }
    }
  }

  lemma {:induction false} LedgerGrows(cur: nat, versions: map<nat, VersionRow>, ledger: map<string, LedgerRow>,
                                       q: string, row: LedgerRow)
    requires LedgerBijection(cur, ledger) && LedgerMatches(versions, ledger) && q !in ledger
    requires row.Committed? && row.versionId == cur + 1
    ensures LedgerBijection(cur + 1, ledger[q := row])
    ensures LedgerMatches(versions[cur + 1 := VersionRow(row.serial, q)], ledger[q := row])
  {
    var ledger' := ledger[q := row];
    forall p, v ensures CommittedAs(ledger', p, v) <==> CommittedAs(ledger, p, v) || (p == q && v == cur + 1) {
    }
    forall v | 1 <= v <= cur + 1 ensures HasCommit(ledger', v) {
      if v == cur + 1 {
        assert CommittedAs(ledger', q, v);
      } else {
        assert HasCommit(ledger, v);
        var p :| CommittedAs(ledger, p, v);
        assert CommittedAs(ledger', p, v);
      }
    }
  }

  lemma {:induction false} LedgerRecordsFailure(cur: nat, versions: map<nat, VersionRow>, ledger: map<string, LedgerRow>,
                                                q: string, row: LedgerRow)
    requires LedgerBijection(cur, ledger) && LedgerMatches(versions, ledger) && q !in ledger
    requires row.Failed? && Ledgerable(row.code)
    ensures LedgerBijection(cur, ledger[q := row])
    ensures LedgerMatches(versions, ledger[q := row])
  {
    var ledger' := ledger[q := row];
    forall p, v ensures CommittedAs(ledger', p, v) <==> CommittedAs(ledger, p, v) {
    }
    forall v | 1 <= v <= cur ensures HasCommit(ledger', v) {
      assert HasCommit(ledger, v);
      var p :| CommittedAs(ledger, p, v);
      assert CommittedAs(ledger', p, v);
    }
  }

  /** The history tables after a publish of `after`. */
  lemma {:induction false} HistoryGrows(cur: nat, currentSerial: int, versions: map<nat, VersionRow>, records: map<nat, Snapshot>,
                                        changes: map<nat, seq<ChangeRow>>, good: (Snapshot, int) -> bool,
                                        related: (Snapshot, Snapshot, seq<ChangeRow>) -> bool,
                                        next: VersionRow, after: Snapshot, delta: seq<ChangeRow>)
    requires HistoryOk(cur, currentSerial, versions, records, changes, good, related)
    requires IsU32(next.serial) && Compare(currentSerial, next.serial) == Greater
    requires forall v :: v in versions ==> versions[v].serial != next.serial
    requires good(after, next.serial) && related(records[cur], after, delta) && delta != []
    ensures HistoryOk(cur + 1, next.serial, versions[cur + 1 := next], records[cur + 1 := after],
                      changes[cur + 1 := delta], good, related)
  {
    ShapeGrows(cur, versions.Keys, changes, delta);
    assert versions[cur + 1 := next].Keys == versions.Keys + {cur + 1};
    assert records[cur + 1 := after].Keys == records.Keys + {cur + 1};
    SerialsGrow(cur, currentSerial, versions, next);
    SnapshotsGrow(versions, records, cur + 1, next, after, good);
    LinkedGrows(cur, records, changes, after, delta, related);
  }

  lemma {:induction false} CurrentSnapshot(zone: string, s: ZoneState)
    requires ZoneInv(zone, s)
    ensures s.row.currentVersion in s.records && s.row.currentVersion in s.versions
    ensures Servable(zone, RecordsOf(s, s.row.currentVersion), s.row.currentSerial)
  {
    assert Has(s.records, s.row.currentVersion);
    assert ServableIn(zone)(RecordsOf(s, s.row.currentVersion), s.row.currentSerial);
  }

  /** The new snapshot and delta of an accepted changeset are good ones. */
  lemma {:induction false} OutcomeIsRelated(zone: string, before: Snapshot, serial: int, w: Working)
    requires GoodOutcome(zone, before, serial, w)
    ensures var after := Flatten(w.rrsets);
            && ServableIn(zone)(after, serial)
            && DeltaRelation(zone)(before, after, DeltaOf(zone, before, after, w.changed))
            && DeltaOf(zone, before, after, w.changed) != []
            && |w.rrsets| == |KeysOf(after)|
  {
    var after := Flatten(w.rrsets);
    GoodDeltaNotEmpty(zone, before, after, w.changed, serial);
    assert DeltaBetween(zone, before, after, DeltaOf(zone, before, after, w.changed));
    FlattenOk(w.rrsets);
    assert |w.rrsets| == |w.rrsets.Keys|;
  }

  /** A publish leaves no TTL beyond 32 bits: it replaces the only RRset that may have one. */
  lemma {:induction false} OutcomeTtlsFit(zone: string, before: Snapshot, v: nat, serial: int, w: Working)
    requires GoodOutcome(zone, before, serial, w) && TtlsFit(zone, v, before)
    ensures TtlsFit(zone, v + 1, Flatten(w.rrsets))
  {
    forall r | r in Flatten(w.rrsets) ensures IsU32(r.ttl) {
      if r.key !in w.changed {
        assert r in before;
      }
    }
  }

  lemma {:induction false} TtlsGrow(records: map<nat, Snapshot>, n: nat, after: Snapshot, rule: (int, Snapshot) -> bool)
    requires TtlsOk(records, rule) && rule(n, after)
    ensures TtlsOk(records[n := after], rule)
  {
    var records' := records[n := after];
    assert forall v :: Has(records', v) && v != n ==> Has(records, v);
  }

  lemma {:induction false} CurrentTtls(zone: string, s: ZoneState)
    requires ZoneInv(zone, s)
    ensures TtlsFit(zone, s.row.currentVersion, RecordsOf(s, s.row.currentVersion))
  {
    assert Has(s.records, s.row.currentVersion);
    assert TtlRule(zone)(s.row.currentVersion, s.records[s.row.currentVersion]);
  }

  lemma {:induction false} AppendedTables(s: ZoneState, req: Request, after: Snapshot, rrsetCount: nat, delta: seq<ChangeRow>)
    ensures var t, n := AppendVersion(s, req, after, rrsetCount, delta), s.row.currentVersion + 1;
            && t.row.currentVersion == n && t.row.currentSerial == req.nextSerial
            && t.versions == s.versions[n := VersionRow(req.nextSerial, req.id)]
            && t.records == s.records[n := after]
            && t.changes == s.changes[n := delta]
  {
  }

  lemma {:induction false} AppendKeepsHistory(zone: string, s: ZoneState, req: Request, after: Snapshot, rrsetCount: nat, delta: seq<ChangeRow>)
    requires ZoneInv(zone, s) && RequestOk(req) && !SerialTaken(s, req.nextSerial)
    requires ServableIn(zone)(after, req.nextSerial)
    requires DeltaRelation(zone)(RecordsOf(s, s.row.currentVersion), after, delta) && delta != []
    requires Compare(s.row.currentSerial, req.nextSerial) == Greater
    ensures var t := AppendVersion(s, req, after, rrsetCount, delta);
            HistoryOk(t.row.currentVersion, t.row.currentSerial, t.versions, t.records, t.changes, ServableIn(zone), DeltaRelation(zone))
  {
    HistoryGrows(s.row.currentVersion, s.row.currentSerial, s.versions, s.records, s.changes, ServableIn(zone), DeltaRelation(zone),
                 VersionRow(req.nextSerial, req.id), after, delta);
    AppendedTables(s, req, after, rrsetCount, delta);
  }

  lemma {:induction false} AppendKeepsLedger(zone: string, s: ZoneState, req: Request, after: Snapshot, rrsetCount: nat, delta: seq<ChangeRow>)
    requires ZoneInv(zone, s) && req.id !in s.ledger
    ensures var t := AppendVersion(s, req, after, rrsetCount, delta);
            LedgerBijection(t.row.currentVersion, t.ledger) && LedgerMatches(t.versions, t.ledger)
  {
    LedgerGrows(s.row.currentVersion, s.versions, s.ledger, req.id,
                Committed(req.fingerprint, s.row.currentVersion + 1, req.nextSerial));
  }

  /** A committed publish keeps every invariant. */
  lemma {:induction false} AppendKeepsInv(zone: string, s: ZoneState, req: Request, after: Snapshot, rrsetCount: nat, delta: seq<ChangeRow>)
    requires ZoneInv(zone, s) && RequestOk(req) && req.id !in s.ledger && !SerialTaken(s, req.nextSerial)
    requires ServableIn(zone)(after, req.nextSerial)
    requires DeltaRelation(zone)(RecordsOf(s, s.row.currentVersion), after, delta)
    requires delta != [] && rrsetCount == |KeysOf(after)|
    requires Compare(s.row.currentSerial, req.nextSerial) == Greater
    requires TtlRule(zone)(s.row.currentVersion + 1, after)
    ensures ZoneInv(zone, AppendVersion(s, req, after, rrsetCount, delta))
  {
    TtlsGrow(s.records, s.row.currentVersion + 1, after, TtlRule(zone));
    AppendKeepsHistory(zone, s, req, after, rrsetCount, delta);
    AppendKeepsLedger(zone, s, req, after, rrsetCount, delta);
  }

  lemma {:induction false} AttemptOutcome(zone: string, s: ZoneState, req: Request, before: Snapshot, w: Working)
    requires ZoneInv(zone, s) && before == RecordsOf(s, s.row.currentVersion) && Attempt(zone, s, req) == Ok(w)
    ensures GoodOutcome(zone, before, req.nextSerial, w) && Compare(s.row.currentSerial, req.nextSerial) == Greater
    ensures TtlRule(zone)(s.row.currentVersion + 1, Flatten(w.rrsets))
  {
    CurrentSnapshot(zone, s);
    AttemptIsGood(zone, s, req, before);
    CurrentTtls(zone, s);
    OutcomeTtlsFit(zone, before, s.row.currentVersion, req.nextSerial, w);
  }

  lemma {:induction false} CommitKeepsInv(zone: string, s: ZoneState, req: Request, w: Working)
    requires ZoneInv(zone, s) && RequestOk(req) && req.id !in s.ledger && !SerialTaken(s, req.nextSerial)
    requires Attempt(zone, s, req) == Ok(w)
    ensures ZoneInv(zone, CommitPublish(zone, s, req, w))
  {
    var before, after := RecordsOf(s, s.row.currentVersion), Flatten(w.rrsets);
    AttemptOutcome(zone, s, req, before, w);
    OutcomeIsRelated(zone, before, req.nextSerial, w);
    AppendKeepsInv(zone, s, req, after, |w.rrsets|, DeltaOf(zone, before, after, w.changed));
  }

  lemma {:induction false} PublishKeepsInv(zone: string, s: ZoneState, req: Request)
    requires ZoneInv(zone, s) && RequestOk(req)
    ensures ZoneInv(zone, PublishZone(zone, s, req).0)
  {
    if req.id !in s.ledger {
      match Attempt(zone, s, req)
      case Err(code) =>
        if Ledgerable(code) {
          LedgerRecordsFailure(s.row.currentVersion, s.versions, s.ledger, req.id, Failed(req.fingerprint, code));
        }
      case Ok(w) =>
        if !SerialTaken(s, req.nextSerial) {
          CommitKeepsInv(zone, s, req, w);
        }
    }
  }

  // ---------------------------------------------------------------------------
  // Cleanup and keys
  // ---------------------------------------------------------------------------

  lemma {:induction false} ShapeShrinks(cur: nat, bound: int, versions: set<nat>, changes: map<nat, seq<ChangeRow>>,
                                        versions': set<nat>, changes': map<nat, seq<ChangeRow>>)
    requires HistoryShape(cur, versions, versions, changes) && bound <= cur
    requires forall v :: v in versions' <==> v in versions && v >= bound
    requires forall v :: v in changes' <==> v in changes && v >= bound
    requires forall v :: v in changes' ==> changes'[v] == changes[v]
    ensures HistoryShape(cur, versions', versions', changes')
  {
  }

  lemma {:induction false} HistoryShrinks(cur: nat, currentSerial: int, bound: int,
                                          versions: map<nat, VersionRow>, records: map<nat, Snapshot>, changes: map<nat, seq<ChangeRow>>,
                                          versions': map<nat, VersionRow>, records': map<nat, Snapshot>, changes': map<nat, seq<ChangeRow>>,
                                          good: (Snapshot, int) -> bool, related: (Snapshot, Snapshot, seq<ChangeRow>) -> bool)
    requires HistoryOk(cur, currentSerial, versions, records, changes, good, related) && bound <= cur
    requires forall v :: v in versions' <==> v in versions && v >= bound
    requires forall v :: v in records' <==> v in records && v >= bound
    requires forall v :: v in changes' <==> v in changes && v >= bound
    requires forall v :: v in versions' ==> versions'[v] == versions[v]
    requires forall v :: v in records' ==> records'[v] == records[v]
    requires forall v :: v in changes' ==> changes'[v] == changes[v]
    ensures HistoryOk(cur, currentSerial, versions', records', changes', good, related)
  {
    assert records'.Keys == versions'.Keys;
    ShapeShrinks(cur, bound, versions.Keys, changes, versions'.Keys, changes');
    assert forall v :: Has(versions', v) ==> Has(versions, v);
    assert forall v :: Has(records', v) ==> Has(records, v);
    assert forall v :: Has(changes', v) ==> Has(changes, v);
  }

  lemma {:induction false} TtlsShrink(records: map<nat, Snapshot>, records': map<nat, Snapshot>, rule: (int, Snapshot) -> bool)
    requires TtlsOk(records, rule)
    requires forall v :: v in records' ==> v in records && records'[v] == records[v]
    ensures TtlsOk(records', rule)
  {
    assert forall v :: Has(records', v) ==> Has(records, v);
  }

  lemma {:induction false} PruneKeepsInv(zone: string, s: ZoneState, bound: int)
    requires ZoneInv(zone, s) && bound <= s.row.currentVersion
    ensures ZoneInv(zone, Prune(s, bound))
  {
    var s' := Prune(s, bound);
    TtlsShrink(s.records, s'.records, TtlRule(zone));
    HistoryShrinks(s.row.currentVersion, s.row.currentSerial, bound, s.versions, s.records, s.changes,
                   s'.versions, s'.records, s'.changes, ServableIn(zone), DeltaRelation(zone));
  }

  lemma {:induction false} CleanKeepsInv(zone: string, s: ZoneState, now: int)
    requires ZoneInv(zone, s)
    ensures ZoneInv(zone, CleanZone(s, now))
  {
    PruneKeepsInv(zone, s, DeleteBefore(s, now));
  }

  /** The key table after a rotation: every other key is retired, `id` is new. */
  function Rotated(keys: map<string, KeyRow>, id: string, row: KeyRow, expiresAt: int): map<string, KeyRow> {
    (map k | k in keys :: Retire(keys[k], expiresAt))[id := row]
  }

  lemma {:induction false} RotationKeepsActive(keys: map<string, KeyRow>, id: string, row: KeyRow, expiresAt: int)
    ensures OneActive(Rotated(keys, id, row, expiresAt))
  {
  }

  lemma {:induction false} RotationKeepsGens(keys: map<string, KeyRow>, id: string, row: KeyRow, expiresAt: int)
    requires GensDistinct(keys) && IsNextGen(keys, row.gen)
    ensures GensDistinct(Rotated(keys, id, row, expiresAt))
  {
  }

  lemma {:induction false} RotationKeepsNames(keys: map<string, KeyRow>, id: string, row: KeyRow, expiresAt: int)
    requires LiveNamesDistinct(keys)
    requires forall k :: k in keys && keys[k].keyName == row.keyName ==> keys[k].state == Revoked
    ensures LiveNamesDistinct(Rotated(keys, id, row, expiresAt))
  {
  }

  lemma {:induction false} RotationKeepsExpiry(keys: map<string, KeyRow>, id: string, row: KeyRow, expiresAt: int)
    requires ExpiryIffRetiring(keys) && row.state == Active && row.expiresAt.None?
    ensures ExpiryIffRetiring(Rotated(keys, id, row, expiresAt))
  {
  }

  lemma {:induction false} InstallKeepsInv(zone: string, s: ZoneState, k: NewKey, now: int)
    requires ZoneInv(zone, s)
    ensures ZoneInv(zone, InstallKeyZone(s, k, now).0)
  {
    var (s', failure) := InstallKeyZone(s, k, now);
    if failure.None? {
      var expiresAt := if k.expiresAt.Some? then k.expiresAt.value else now + 3600 * 1000;
      var row := KeyRow(NextGen(s.keys), if k.keyName == "" then k.keyId else k.keyName, k.secret, Active, None);
      assert s'.keys == Rotated(s.keys, k.keyId, row, expiresAt);
      RotationKeepsActive(s.keys, k.keyId, row, expiresAt);
      RotationKeepsGens(s.keys, k.keyId, row, expiresAt);
      RotationKeepsNames(s.keys, k.keyId, row, expiresAt);
      RotationKeepsExpiry(s.keys, k.keyId, row, expiresAt);
    }
  }

  lemma {:induction false} RevocationKeepsKeys(keys: map<string, KeyRow>, id: string)
    requires KeysWellFormed(keys) && id in keys
    ensures KeysWellFormed(keys[id := keys[id].(state := Revoked, expiresAt := None)])
  {
  }

  lemma {:induction false} RevokeKeepsInv(zone: string, s: ZoneState, keyId: string)
    requires ZoneInv(zone, s)
    ensures ZoneInv(zone, RevokeKeyZone(s, keyId).0)
  {
    if keyId in s.keys {
      RevocationKeepsKeys(s.keys, keyId);
    }
  }
}
