/**
 How a secondary can be left behind for good: the zone's serial comes back to the one of its
 copy, while the version of that copy is no longer retained.
 */
module StaleCopies {
  import opened Basics
  import opened Records
  import opened Serial
  import opened Changeset
  import opened Client
  import opened Store
  import opened History
  import opened Transfer
  import opened TransferFacts
  import opened Convergence
  import opened PublishFacts
  import opened Requests
  import opened Gaps

  /** Nothing but a new SOA. */
  function SoaOnly(zone: string, soa: RRset): seq<Op> {
    [Replace(Key(zone, SOA), soa)]
  }

  lemma {:induction false} SoaOnlyCommits(zone: string, s: ZoneState, soa: RRset, id: string, fingerprint: string)
    requires Ready(zone, s, soa, id) && s.row.recordCount <= MAX_RECORDS_PER_ZONE
    ensures var t := PublishZone(zone, s, Asking(s, id, soa, SoaOnly(zone, soa), fingerprint));
            && IsFresh(t.1) && t.0.row.currentVersion == s.row.currentVersion + 1
            && RecordsOf(t.0, s.row.currentVersion + 1) == Flatten(WithSoa(zone, Loaded(s), soa))
            && |Flatten(WithSoa(zone, Loaded(s), soa))| == s.row.recordCount
  {
    SoaIsNew(zone, s, soa, id);
    SoaOnlyEffect(zone, Loaded(s), soa);
    NewSoaIsValid(zone, Loaded(s), s.row.currentSerial, soa);
    NewSoaCounts(zone, Loaded(s), s.row.currentSerial, soa);
    OneOk(zone, Replace(Key(zone, SOA), soa));
    Succeeds(zone, s, soa, id, SoaOnly(zone, soa), Working(WithSoa(zone, Loaded(s), soa), {Key(zone, SOA)}), fingerprint);
  }

  lemma {:induction false} SoaOnlyEffect(zone: string, loaded: RRsets, soa: RRset)
    requires Key(zone, SOA) in loaded && loaded[Key(zone, SOA)] != soa && soa.entries != []
    ensures ApplyAll(SoaOnly(zone, soa), Working(loaded, {})) == Working(WithSoa(zone, loaded, soa), {Key(zone, SOA)})
  {
    var op, w := Replace(Key(zone, SOA), soa), Working(loaded, {});
    assert [op][1..] == [] && ApplyAll([op], w) == ApplyAll([], ApplyOp(op, w));
  }

  lemma {:induction false} OneOk(zone: string, a: Op)
    requires OpOk(zone, a)
    ensures OpsOk(zone, [a])
  {
  }

  /** The zone after the request for these operations. */
  ghost function After(zone: string, s: ZoneState, id: string, soa: RRset, ops: seq<Op>): ZoneState
    requires soa.entries != []
  {
    PublishZone(zone, s, Asking(s, id, soa, ops, "")).0
  }

  /** A zone with room, and no record of this owner. */
  ghost predicate Roomy(zone: string, s: ZoneState, owner: string) {
    ZoneInv(zone, s) && s.row.recordCount < MAX_RECORDS_PER_ZONE && NoRows(RecordsOf(s, s.row.currentVersion), owner)
  }

  /** `t` is `s` with one more version, under this serial. */
  ghost predicate Stepped(s: ZoneState, t: ZoneState, id: string, serial: int) {
    && t.row.currentVersion == s.row.currentVersion + 1 && t.row.currentSerial == serial && t.row.retain == s.row.retain
    && t.versions == s.versions[s.row.currentVersion + 1 := VersionRow(serial, id)]
    && t.ledger.Keys == s.ledger.Keys + {id} && t.pins == s.pins
  }

  lemma {:induction false} FreshStep(zone: string, s: ZoneState, req: Request)
    requires ZoneInv(zone, s) && RequestOk(req) && IsFresh(PublishZone(zone, s, req).1)
    ensures ZoneInv(zone, PublishZone(zone, s, req).0) && Stepped(s, PublishZone(zone, s, req).0, req.id, req.nextSerial)
  {
    PublishKeepsInv(zone, s, req);
    SuccessIsWhole(zone, s, req);
  }

  lemma {:induction false} SameOwners(zone: string, m: RRsets, soa: RRset, owner: string)
    requires NoRows(Flatten(m), owner) && owner != zone
    ensures NoRows(Flatten(WithSoa(zone, m, soa)), owner)
  {
    forall r | r in Flatten(WithSoa(zone, m, soa)) ensures r.key.name != owner {
      if r.key != Key(zone, SOA) {
        assert r in Flatten(m);
      }
    }
  }

  lemma {:induction false} CountIsSize(zone: string, s: ZoneState)
    requires ZoneInv(zone, s)
    ensures s.row.recordCount == |RecordsOf(s, s.row.currentVersion)|
  {
    CurrentSnapshot(zone, s);
  }

  lemma {:induction false} SoaStep(zone: string, s: ZoneState, soa: RRset, id: string, owner: string)
    requires Roomy(zone, s, owner) && owner != zone && id !in s.ledger && NextSoa(zone, s, soa)
    ensures var t := After(zone, s, id, soa, SoaOnly(zone, soa));
            Roomy(zone, t, owner) && Stepped(s, t, id, soa.entries[0].serial)
  {
    GetReady(zone, s, soa, id);
    SoaOnlyCommits(zone, s, soa, id, "");
    FreshStep(zone, s, Asking(s, id, soa, SoaOnly(zone, soa), ""));
    CountIsSize(zone, After(zone, s, id, soa, SoaOnly(zone, soa)));
    SameOwners(zone, Loaded(s), soa, owner);
  }

  lemma {:induction false} AddStep(zone: string, s: ZoneState, soa: RRset, k: Key, added: RRset, id: string)
    requires Roomy(zone, s, k.name) && id !in s.ledger && NextSoa(zone, s, soa)
    requires OpOk(zone, Replace(k, added)) && |added.entries| == 1 && k.name != zone
    ensures var t := After(zone, s, id, soa, AddRecord(zone, soa, k, added));
            && ZoneInv(zone, t) && Stepped(s, t, id, soa.entries[0].serial)
            && Row(k, added.ttl, added.entries[0]) in RecordsOf(t, t.row.currentVersion)
  {
    GetReady(zone, s, soa, id);
    AddCommits(zone, s, soa, k, added, id, "");
    FreshStep(zone, s, Asking(s, id, soa, AddRecord(zone, soa, k, added), ""));
  }

  /** With a retention of one and no live pin, a cleanup leaves the current version only. */
  lemma {:induction false} OnlyNewestStays(zone: string, s: ZoneState, now: int, owner: string)
    requires Roomy(zone, s, owner) && s.row.retain <= 1 && s.row.currentVersion <= NO_PIN
    requires forall r :: r in s.pins ==> !LivePin(s.pins[r], AliveAfter(now))
    ensures var t := CleanZone(s, now);
            && Roomy(zone, t, owner) && t.row == s.row && t.ledger == s.ledger
            && (forall v :: v in t.versions <==> v == s.row.currentVersion)
            && (forall v :: v in t.versions ==> t.versions[v] == s.versions[v])
  {
    CleanKeepsInv(zone, s, now);
    CurrentSnapshot(zone, s);
    assert DeleteBefore(s, now) == s.row.currentVersion;
  }

  /** A good apex SOA with this serial. */
  ghost predicate SoaFor(zone: string, soa: RRset, serial: int) {
    OpOk(zone, Replace(Key(zone, SOA), soa)) && |soa.entries| == 1 && soa.entries[0].serial == serial && IsU32(serial)
  }

  /** Since `start` the zone has stepped to these serials, keeps no older version, and knows these requests more. */
  ghost predicate Moved(start: ZoneState, s: ZoneState, serials: seq<int>, ids: set<string>) {
    && serials != [] && s.row.currentVersion == start.row.currentVersion + |serials| && s.row.currentSerial == serials[|serials| - 1]
    && (forall v :: v in s.versions ==>
          && start.row.currentVersion < v <= s.row.currentVersion
          && s.versions[v].serial == serials[v - start.row.currentVersion - 1])
    && s.ledger.Keys == start.ledger.Keys + ids
  }

  lemma {:induction false} MovedOnce(s: ZoneState, t: ZoneState, u: ZoneState, id: string, serial: int)
    requires Stepped(s, t, id, serial) && u.row == t.row && u.ledger == t.ledger
    requires forall v :: v in u.versions ==> v == t.row.currentVersion && u.versions[v] == t.versions[v]
    ensures Moved(s, u, [serial], {id})
  {
  }

  lemma {:induction false} MovedOn(start: ZoneState, s: ZoneState, t: ZoneState, serials: seq<int>, ids: set<string>, id: string, serial: int)
    requires Moved(start, s, serials, ids) && Stepped(s, t, id, serial)
    ensures Moved(start, t, serials + [serial], ids + {id})
  {
  }

  lemma {:induction false} FirstLeg(zone: string, s: ZoneState, now: int, a: RRset, id: string, owner: string)
    requires Roomy(zone, s, owner) && s.row.retain <= 1 && s.row.currentVersion + 1 <= NO_PIN && owner != zone && id !in s.ledger
    requires forall v :: v in s.versions ==> v == s.row.currentVersion
    requires forall r :: r in s.pins ==> !LivePin(s.pins[r], AliveAfter(now))
    requires |a.entries| == 1 && SoaFor(zone, a, a.entries[0].serial) && Compare(s.row.currentSerial, a.entries[0].serial) == Greater
    ensures var t := CleanZone(After(zone, s, id, a, SoaOnly(zone, a)), now);
            Roomy(zone, t, owner) && Moved(s, t, [a.entries[0].serial], {id})
  {
    assert Has(s.versions, s.row.currentVersion);
    SoaStep(zone, s, a, id, owner);
    var t := After(zone, s, id, a, SoaOnly(zone, a));
    OnlyNewestStays(zone, t, now, owner);
    MovedOnce(s, t, CleanZone(t, now), id, a.entries[0].serial);
  }

  lemma {:induction false} SecondLeg(zone: string, start: ZoneState, s: ZoneState, b: RRset, serials: seq<int>, ids: set<string>, id: string, owner: string)
    requires Roomy(zone, s, owner) && Moved(start, s, serials, ids) && owner != zone && id !in start.ledger && id !in ids
    requires |b.entries| == 1 && SoaFor(zone, b, b.entries[0].serial) && b.entries[0].serial !in serials
    requires Compare(s.row.currentSerial, b.entries[0].serial) == Greater
    ensures var t := After(zone, s, id, b, SoaOnly(zone, b));
            Roomy(zone, t, owner) && Moved(start, t, serials + [b.entries[0].serial], ids + {id})
  {
    SoaStep(zone, s, b, id, owner);
    MovedOn(start, s, After(zone, s, id, b, SoaOnly(zone, b)), serials, ids, id, b.entries[0].serial);
  }

  /** The client's copy is not touched by an increment that is a lone SOA. */
  lemma {:induction false} LoneSoa(zone: string, t: ZoneState, plan: Plan, serial: int, copy: set<Rr>)
    requires ZoneInv(zone, t) && plan.zone == zone && plan.mode == Ixfr && plan.targetSerial == serial == t.row.currentSerial
    requires plan.targetVersion == t.row.currentVersion
    ensures DecideIxfr(t.versions, plan.targetVersion, plan.targetSerial, Some(serial)) == Ixfr
    ensures Stream(t, plan, Some(serial)).Some?
    ensures Updated(Ixfr, copy, MapSeq(RrOfRow(), Stream(t, plan, Some(serial)).value)) == copy
  {
    CurrentSnapshot(zone, t);
    var soa := ApexSoa(zone, RecordsOf(t, t.row.currentVersion), serial);
    assert Stream(t, plan, Some(serial)) == Some([soa]);
    assert MapSeq(RrOfRow(), [soa])[1..] == [];
  }

  lemma {:induction false} ImagesDiffer(a: Snapshot, b: Snapshot, r: Row)
    requires r in b && NoRows(a, r.key.name)
    ensures MapSet(RrOfRow(), a) != MapSet(RrOfRow(), b)
  {
    assert RrOfRow()(r) in MapSet(RrOfRow(), b);
    forall x | x in a ensures RrOfRow()(x) != RrOfRow()(r) {
      if RrOfRow()(x) == RrOfRow()(r) {
        SameImageSameKey(x, r);
      }
    }
  }

  lemma {:induction false} LastLeg(zone: string, start: ZoneState, s: ZoneState, c: RRset, k: Key, added: RRset,
                                   serials: seq<int>, ids: set<string>, id: string)
    requires Roomy(zone, s, k.name) && Moved(start, s, serials, ids) && k.name != zone && id !in start.ledger && id !in ids
    requires OpOk(zone, Replace(k, added)) && |added.entries| == 1
    requires |c.entries| == 1 && SoaFor(zone, c, c.entries[0].serial) && c.entries[0].serial !in serials
    requires Compare(s.row.currentSerial, c.entries[0].serial) == Greater
    ensures var t := After(zone, s, id, c, AddRecord(zone, c, k, added));
            && ZoneInv(zone, t) && Moved(start, t, serials + [c.entries[0].serial], ids + {id})
            && Row(k, added.ttl, added.entries[0]) in RecordsOf(t, t.row.currentVersion)
  {
    AddStep(zone, s, c, k, added, id);
    MovedOn(start, s, After(zone, s, id, c, AddRecord(zone, c, k, added)), serials, ids, id, c.entries[0].serial);
  }

  /**
   A secondary left behind. The zone has stepped on from `start` and keeps none of the versions
   of that time; and its serial is one step behind that of `start` again. Then the publish that
   takes this step is accepted, and a secondary that still has the copy of `start` is told, in
   an increment that is a lone SOA, that it is up to date, although the records are others.
   */
  lemma {:induction false} SerialComesBack(zone: string, start: ZoneState, s: ZoneState, c: RRset, k: Key, added: RRset,
                                           serials: seq<int>, ids: set<string>, id: string, plan: Plan)
    requires Roomy(zone, s, k.name) && Moved(start, s, serials, ids) && id !in start.ledger && id !in ids
    requires OpOk(zone, Replace(k, added)) && |added.entries| == 1 && k.name != zone
    requires NoRows(RecordsOf(start, start.row.currentVersion), k.name)
    requires |c.entries| == 1 && SoaFor(zone, c, start.row.currentSerial) && start.row.currentSerial !in serials
    requires Compare(s.row.currentSerial, start.row.currentSerial) == Greater
    requires plan.zone == zone && plan.mode == Ixfr && plan.targetSerial == start.row.currentSerial
    requires plan.targetVersion == s.row.currentVersion + 1
    ensures var t := After(zone, s, id, c, AddRecord(zone, c, k, added));
            var copy := MapSet(RrOfRow(), RecordsOf(start, start.row.currentVersion));
            && t.row.currentVersion == plan.targetVersion && t.row.currentSerial == start.row.currentSerial
            && start.row.currentVersion !in t.versions
            && DecideIxfr(t.versions, plan.targetVersion, plan.targetSerial, Some(start.row.currentSerial)) == Ixfr
            && Stream(t, plan, Some(start.row.currentSerial)).Some?
            && Updated(Ixfr, copy, MapSeq(RrOfRow(), Stream(t, plan, Some(start.row.currentSerial)).value)) == copy
            && copy != MapSet(RrOfRow(), RecordsOf(t, plan.targetVersion))
  {
    var t, copy := After(zone, s, id, c, AddRecord(zone, c, k, added)), MapSet(RrOfRow(), RecordsOf(start, start.row.currentVersion));
    LastLeg(zone, start, s, c, k, added, serials, ids, id);
    LoneSoa(zone, t, plan, start.row.currentSerial, copy);
    ImagesDiffer(RecordsOf(start, start.row.currentVersion), RecordsOf(t, plan.targetVersion), Row(k, added.ttl, added.entries[0]));
  }

  /** A new zone with room. */
  ghost predicate RoomyNew(zone: string, z: NewZone, owner: string) {
    NewZoneOk(zone, z) && z.retain <= 1 && |Dedup(z.ns, {})| + 1 < MAX_RECORDS_PER_ZONE && owner != zone
  }

  lemma {:induction false} NewIsRoomy(zone: string, z: NewZone, owner: string)
    requires RoomyNew(zone, z, owner)
    ensures Roomy(zone, InitialZone(zone, z), owner)
  {
    InitialZoneInv(zone, z);
  }

  lemma {:induction false} NewFirstLeg(zone: string, z: NewZone, now: int, a: RRset, id: string, owner: string)
    requires RoomyNew(zone, z, owner)
    requires |a.entries| == 1 && SoaFor(zone, a, a.entries[0].serial) && Compare(z.serial, a.entries[0].serial) == Greater
    ensures var t := CleanZone(After(zone, InitialZone(zone, z), id, a, SoaOnly(zone, a)), now);
            Roomy(zone, t, owner) && Moved(InitialZone(zone, z), t, [a.entries[0].serial], {id})
  {
    NewIsRoomy(zone, z, owner);
    FirstLeg(zone, InitialZone(zone, z), now, a, id, owner);
  }

  lemma {:induction false} NewTwoLegs(zone: string, z: NewZone, now: int, a: RRset, b: RRset, id0: string, id1: string, owner: string)
    requires RoomyNew(zone, z, owner) && id1 !in {id0}
    requires |a.entries| == 1 && SoaFor(zone, a, a.entries[0].serial) && Compare(z.serial, a.entries[0].serial) == Greater
    requires |b.entries| == 1 && SoaFor(zone, b, b.entries[0].serial) && Compare(a.entries[0].serial, b.entries[0].serial) == Greater
    requires b.entries[0].serial !in [a.entries[0].serial]
    ensures var s1 := CleanZone(After(zone, InitialZone(zone, z), id0, a, SoaOnly(zone, a)), now);
            var s2 := After(zone, s1, id1, b, SoaOnly(zone, b));
            Roomy(zone, s2, owner) && Moved(InitialZone(zone, z), s2, [a.entries[0].serial] + [b.entries[0].serial], {id0} + {id1})
  {
    NewFirstLeg(zone, z, now, a, id0, owner);
    var s1 := CleanZone(After(zone, InitialZone(zone, z), id0, a, SoaOnly(zone, a)), now);
    SecondLeg(zone, InitialZone(zone, z), s1, b, [a.entries[0].serial], {id0}, id1, owner);
  }

  lemma {:induction false} ThreeAhead(c: int, a: int, b: int)
    requires IsForwardChain([c, a, b, c])
    ensures Compare(c, a) == Compare(a, b) == Compare(b, c) == Greater && b !in [a] && c !in [a] + [b]
  {
    var chain := [c, a, b, c];
    assert Compare(chain[0], chain[1]) == Greater && Compare(chain[1], chain[2]) == Greater && Compare(chain[2], chain[3]) == Greater;
  }

  /** The zone after a new zone has stepped to the serials of `a` and `b`, with a cleanup on the way. */
  ghost function TwoStepsOn(zone: string, z: NewZone, now: int, a: RRset, b: RRset, id0: string, id1: string): ZoneState
    requires a.entries != [] && b.entries != []
  {
    After(zone, CleanZone(After(zone, InitialZone(zone, z), id0, a, SoaOnly(zone, a)), now), id1, b, SoaOnly(zone, b))
  }

  lemma {:induction false} NewRows(zone: string, z: NewZone, owner: string)
    requires owner != zone
    ensures NoRows(RecordsOf(InitialZone(zone, z), 0), owner)
  {
  }

  /**
   It happens to every new zone with a retention of one, for any three steps forward that lead
   back to its serial, such as those by 0x7fffffff, 0x7fffffff and 2: the third publish is
   accepted, and a secondary with a copy of the first version stays with it.
   */
  lemma {:induction false} StaleSecondary(zone: string, z: NewZone, now: int, a: RRset, b: RRset, c: RRset, k: Key, added: RRset,
                                          id0: string, id1: string, id2: string, plan: Plan)
    requires RoomyNew(zone, z, k.name) && id1 !in {id0} && id2 !in {id0} + {id1}
    requires |a.entries| == 1 && SoaFor(zone, a, a.entries[0].serial) && |b.entries| == 1 && SoaFor(zone, b, b.entries[0].serial)
    requires |c.entries| == 1 && SoaFor(zone, c, z.serial)
    requires IsForwardChain([z.serial, a.entries[0].serial, b.entries[0].serial, z.serial])
    requires OpOk(zone, Replace(k, added)) && |added.entries| == 1
    requires plan.zone == zone && plan.mode == Ixfr && plan.targetSerial == z.serial && plan.targetVersion == 3
    ensures var s := TwoStepsOn(zone, z, now, a, b, id0, id1);
            var t := After(zone, s, id2, c, AddRecord(zone, c, k, added));
            var copy := MapSet(RrOfRow(), InitialRows(zone, z));
            && t.row.currentVersion == 3 && t.row.currentSerial == z.serial && 0 !in t.versions
            && DecideIxfr(t.versions, 3, z.serial, Some(z.serial)) == Ixfr
            && Stream(t, plan, Some(z.serial)).Some?
            && Updated(Ixfr, copy, MapSeq(RrOfRow(), Stream(t, plan, Some(z.serial)).value)) == copy
            && copy != MapSet(RrOfRow(), RecordsOf(t, 3))
  {
    var x, y := a.entries[0].serial, b.entries[0].serial;
    ThreeAhead(z.serial, x, y);
    NewTwoLegs(zone, z, now, a, b, id0, id1, k.name);
    NewRows(zone, z, k.name);
    SerialComesBack(zone, InitialZone(zone, z), TwoStepsOn(zone, z, now, a, b, id0, id1), c, k, added, [x] + [y], {id0} + {id1}, id2, plan);
  }
}
