/** Requests that the service accepts, in any zone, and that show where its promises end. */
module Gaps {
  import opened Basics
  import opened Names
  import opened Ordering
  import opened Records
  import opened Serial
  import opened Changeset
  import opened Delta
  import opened Fingerprint
  import opened QueryParser
  import opened Store
  import opened History
  import opened Transfer
  import opened TransferFacts
  import opened Framing
  import opened Plans
  import opened Convergence
  import opened PublishFacts
  import opened Requests
  import opened Retries

  /** A new apex SOA that moves the zone to a free serial ahead of its own. */
  ghost predicate NextSoa(zone: string, s: ZoneState, soa: RRset) {
    && OpOk(zone, Replace(Key(zone, SOA), soa)) && |soa.entries| == 1 && IsU32(soa.entries[0].serial)
    && Compare(s.row.currentSerial, soa.entries[0].serial) == Greater && !SerialTaken(s, soa.entries[0].serial)
  }

  /** The request for these operations. */
  function Asking(s: ZoneState, id: string, soa: RRset, ops: seq<Op>, fingerprint: string): Request
    requires soa.entries != []
  {
    Request(id, s.row.currentSerial, soa.entries[0].serial, Some(RawAll(ops)), fingerprint)
  }

  /** What the requests below rely on. */
  ghost predicate Ready(zone: string, s: ZoneState, soa: RRset, id: string) {
    && IsCanonical(zone) && IsU32(s.row.currentSerial) && id !in s.ledger && NextSoa(zone, s, soa)
    && RRsetsOk(Loaded(s)) && Validate(zone, Loaded(s), s.row.currentSerial).None?
    && |Flatten(Loaded(s))| == s.row.recordCount
    && Flatten(Loaded(s)) == RecordsOf(s, s.row.currentVersion)
  }

  lemma {:induction false} GetReady(zone: string, s: ZoneState, soa: RRset, id: string)
    requires ZoneInv(zone, s) && id !in s.ledger && NextSoa(zone, s, soa)
    ensures Ready(zone, s, soa, id)
  {
    assert Has(s.versions, s.row.currentVersion);
    LoadedIsProper(zone, s);
  }

  lemma {:induction false} SoaIsNew(zone: string, s: ZoneState, soa: RRset, id: string)
    requires Ready(zone, s, soa, id)
    ensures Key(zone, SOA) in Loaded(s) && Loaded(s)[Key(zone, SOA)] != soa
  {
    OtherSerialOtherSoa(zone, Loaded(s), s.row.currentSerial, soa);
  }

  lemma {:induction false} OtherSerialOtherSoa(zone: string, m: RRsets, serial: int, soa: RRset)
    requires Validate(zone, m, serial).None? && soa.entries != [] && Compare(serial, soa.entries[0].serial) == Greater
    ensures Key(zone, SOA) in m && m[Key(zone, SOA)] != soa
  {
  }

  /** A request for operations whose outcome passes the checks commits that outcome. */
  lemma {:induction false} Succeeds(zone: string, s: ZoneState, soa: RRset, id: string, ops: seq<Op>, w: Working, fingerprint: string)
    requires Ready(zone, s, soa, id) && OpsOk(zone, ops) && ops != [] && w == ApplyAll(ops, Working(Loaded(s), {}))
    requires Validate(zone, w.rrsets, soa.entries[0].serial).None? && |Flatten(w.rrsets)| <= MAX_RECORDS_PER_ZONE
    ensures var t := PublishZone(zone, s, Asking(s, id, soa, ops, fingerprint));
            && IsFresh(t.1) && t.0.row.currentVersion == s.row.currentVersion + 1
            && RecordsOf(t.0, s.row.currentVersion + 1) == Flatten(w.rrsets)
  {
    Commits(zone, s, Asking(s, id, soa, ops, fingerprint), ops, w);
  }

  // ---------------------------------------------------------------------------
  // Same fingerprint, other records
  // ---------------------------------------------------------------------------

  /** A new SOA; then a stored RRset is written back, then deleted. */
  function RestoreThenDelete(zone: string, soa: RRset, k: Key, stored: RRset): seq<Op> {
    [Replace(Key(zone, SOA), soa), Replace(k, stored), Delete(k)]
  }

  /** A new SOA; then a stored RRset is deleted, then written back. */
  function DeleteThenRestore(zone: string, soa: RRset, k: Key, stored: RRset): seq<Op> {
    [Replace(Key(zone, SOA), soa), Delete(k), Replace(k, stored)]
  }

  lemma {:induction false} ApplyThree(a: Op, b: Op, c: Op, w: Working)
    ensures ApplyAll([a, b, c], w) == ApplyOp(c, ApplyOp(b, ApplyOp(a, w)))
  {
    assert [a, b, c][1..] == [b, c] && [b, c][1..] == [c] && [c][1..] == [];
    assert ApplyAll([c], ApplyOp(b, ApplyOp(a, w))) == ApplyAll([], ApplyOp(c, ApplyOp(b, ApplyOp(a, w))));
    assert ApplyAll([b, c], ApplyOp(a, w)) == ApplyAll([c], ApplyOp(b, ApplyOp(a, w)));
  }

  lemma {:induction false} BothEffects(zone: string, loaded: RRsets, soa: RRset, k: Key)
    requires k in loaded && k != Key(zone, SOA) && loaded[k].entries != [] && soa.entries != []
    requires Key(zone, SOA) in loaded && loaded[Key(zone, SOA)] != soa
    ensures ApplyAll(RestoreThenDelete(zone, soa, k, loaded[k]), Working(loaded, {}))
         == Working(WithSoa(zone, loaded, soa) - {k}, {Key(zone, SOA), k})
    ensures ApplyAll(DeleteThenRestore(zone, soa, k, loaded[k]), Working(loaded, {}))
         == Working(WithSoa(zone, loaded, soa), {Key(zone, SOA), k})
  {
    var w := Working(loaded, {});
    ApplyThree(Replace(Key(zone, SOA), soa), Replace(k, loaded[k]), Delete(k), w);
    ApplyThree(Replace(Key(zone, SOA), soa), Delete(k), Replace(k, loaded[k]), w);
    var m := WithSoa(zone, loaded, soa);
    assert ApplyOp(Replace(Key(zone, SOA), soa), w) == Working(m, {Key(zone, SOA)});
    assert m[k := loaded[k]] == m;
    assert (m - {k})[k := loaded[k]] == m;
  }

  lemma {:induction false} SwapSorted(a: Op, d: Op, r: Op)
    requires d.Delete? && r.Replace? && d.key == r.key
    ensures SameSorted([a, r, d], [a, d, r])
  {
    assert [a, r, d][1..] == [r, d] && [a, d, r][1..] == [d, r];
    assert [r, d][1..] == [d] && [d, r][1..] == [r] && [d][1..] == [] && [r][1..] == [];
    assert StableSort([d], OpOrder) == Insert(d, StableSort([], OpOrder), OpOrder) == [d];
    assert StableSort([r], OpOrder) == Insert(r, StableSort([], OpOrder), OpOrder) == [r];
    Trichotomy(OpOrder(d), OpOrder(r));
    assert Ordering.Less(OpOrder(d), OpOrder(r));
    assert Insert(r, [d], OpOrder) == [d] + Insert(r, [], OpOrder);
    assert Insert(d, [r], OpOrder) == [d] + [r];
  }

  lemma {:induction false} SameContent(zone: string, s: ZoneState, id: string, soa: RRset, a: seq<Op>, b: seq<Op>, fingerprint: string)
    requires IsCanonical(zone) && soa.entries != [] && OpsOk(zone, a) && OpsOk(zone, b) && SameSorted(a, b)
    ensures Content(zone, Asking(s, id, soa, a, fingerprint)).Ok?
    ensures Content(zone, Asking(s, id, soa, a, fingerprint)) == Content(zone, Asking(s, id, soa, b, fingerprint))
  {
    RawAreChecked(zone, a);
    RawAreChecked(zone, b);
    PayloadOfChecked(zone, s.row.currentSerial, soa.entries[0].serial, RawAll(a));
    PayloadOfChecked(zone, s.row.currentSerial, soa.entries[0].serial, RawAll(b));
  }

  /** Every stored RRset but the apex SOA can be asked for as it is. */
  lemma {:induction false} StoredIsAskable(zone: string, s: ZoneState, k: Key)
    requires ZoneInv(zone, s) && k in Loaded(s) && k != Key(zone, SOA)
    ensures OpOk(zone, Replace(k, Loaded(s)[k])) && OpOk(zone, Delete(k)) && Loaded(s)[k].entries != []
  {
    LoadedIsProper(zone, s);
    CurrentSnapshot(zone, s);
    CurrentTtls(zone, s);
    RowsAreAskable(zone, s.row.currentVersion, Loaded(s), k);
  }

  lemma {:induction false} RowsAreAskable(zone: string, v: int, m: RRsets, k: Key)
    requires RRsetsOk(m) && AllShaped(zone, Flatten(m)) && TtlsFit(zone, v, Flatten(m)) && k in m && k != Key(zone, SOA)
    ensures OpOk(zone, Replace(k, m[k])) && OpOk(zone, Delete(k)) && m[k].entries != []
  {
    forall e | e in m[k].entries ensures RowFits(zone, Row(k, m[k].ttl, e)) {
      assert Row(k, m[k].ttl, e) in Flatten(m);
    }
    assert m[k].entries[0] in m[k].entries;
  }

  lemma {:induction false} BothValid(zone: string, loaded: RRsets, serial: int, soa: RRset, k: Key)
    requires RRsetsOk(loaded) && Validate(zone, loaded, serial).None? && |soa.entries| == 1
    requires k in loaded && k != Key(zone, SOA)
    ensures var m := WithSoa(zone, loaded, soa);
            && Validate(zone, m, soa.entries[0].serial).None? && |Flatten(m)| == |Flatten(loaded)|
            && (k != Key(zone, NS) ==>
                  Validate(zone, m - {k}, soa.entries[0].serial).None? && |Flatten(m - {k})| <= |Flatten(loaded)|)
  {
    NewSoaIsValid(zone, loaded, serial, soa);
    NewSoaCounts(zone, loaded, serial, soa);
    if k != Key(zone, NS) {
      DroppedIsValid(zone, WithSoa(zone, loaded, soa), soa.entries[0].serial, k);
    }
  }

  lemma {:induction false} ThreeOk(zone: string, a: Op, b: Op, c: Op)
    requires OpOk(zone, a) && OpOk(zone, b) && OpOk(zone, c)
    ensures OpsOk(zone, [a, b, c])
  {
  }

  lemma {:induction false} FirstCommits(zone: string, s: ZoneState, k: Key, soa: RRset, id: string, fingerprint: string)
    requires Ready(zone, s, soa, id) && s.row.recordCount <= MAX_RECORDS_PER_ZONE
    requires k in Loaded(s) && k != Key(zone, SOA) && k != Key(zone, NS)
    requires OpOk(zone, Replace(k, Loaded(s)[k])) && OpOk(zone, Delete(k))
    ensures var t := PublishZone(zone, s, Asking(s, id, soa, RestoreThenDelete(zone, soa, k, Loaded(s)[k]), fingerprint));
            IsFresh(t.1) && RecordsOf(t.0, s.row.currentVersion + 1) == Flatten(WithSoa(zone, Loaded(s), soa) - {k})
  {
    SoaIsNew(zone, s, soa, id);
    BothEffects(zone, Loaded(s), soa, k);
    BothValid(zone, Loaded(s), s.row.currentSerial, soa, k);
    ThreeOk(zone, Replace(Key(zone, SOA), soa), Replace(k, Loaded(s)[k]), Delete(k));
    Succeeds(zone, s, soa, id, RestoreThenDelete(zone, soa, k, Loaded(s)[k]),
             Working(WithSoa(zone, Loaded(s), soa) - {k}, {Key(zone, SOA), k}), fingerprint);
  }

  lemma {:induction false} SecondCommits(zone: string, s: ZoneState, k: Key, soa: RRset, id: string, fingerprint: string)
    requires Ready(zone, s, soa, id) && s.row.recordCount <= MAX_RECORDS_PER_ZONE
    requires k in Loaded(s) && k != Key(zone, SOA)
    requires OpOk(zone, Replace(k, Loaded(s)[k])) && OpOk(zone, Delete(k))
    ensures var t := PublishZone(zone, s, Asking(s, id, soa, DeleteThenRestore(zone, soa, k, Loaded(s)[k]), fingerprint));
            IsFresh(t.1) && RecordsOf(t.0, s.row.currentVersion + 1) == Flatten(WithSoa(zone, Loaded(s), soa))
  {
    SoaIsNew(zone, s, soa, id);
    BothEffects(zone, Loaded(s), soa, k);
    BothValid(zone, Loaded(s), s.row.currentSerial, soa, k);
    ThreeOk(zone, Replace(Key(zone, SOA), soa), Delete(k), Replace(k, Loaded(s)[k]));
    Succeeds(zone, s, soa, id, DeleteThenRestore(zone, soa, k, Loaded(s)[k]),
             Working(WithSoa(zone, Loaded(s), soa), {Key(zone, SOA), k}), fingerprint);
  }

  lemma {:induction false} SaySame(zone: string, s: ZoneState, k: Key, soa: RRset, id: string, fingerprint: string)
    requires Ready(zone, s, soa, id) && k in Loaded(s) && OpOk(zone, Replace(k, Loaded(s)[k])) && OpOk(zone, Delete(k))
    ensures var first := Asking(s, id, soa, RestoreThenDelete(zone, soa, k, Loaded(s)[k]), fingerprint);
            var second := Asking(s, id, soa, DeleteThenRestore(zone, soa, k, Loaded(s)[k]), fingerprint);
            Content(zone, first).Ok? && Content(zone, first) == Content(zone, second)
  {
    var stored := Loaded(s)[k];
    SwapSorted(Replace(Key(zone, SOA), soa), Delete(k), Replace(k, stored));
    ThreeOk(zone, Replace(Key(zone, SOA), soa), Replace(k, stored), Delete(k));
    ThreeOk(zone, Replace(Key(zone, SOA), soa), Delete(k), Replace(k, stored));
    SameContent(zone, s, id, soa, RestoreThenDelete(zone, soa, k, stored), DeleteThenRestore(zone, soa, k, stored), fingerprint);
  }

  /**
   In every zone with room, for every stored RRset but the apex SOA and NS: two requests that
   say the same are both committed and leave different records. The one takes the RRset away,
   the other keeps it as it was.
   */
  lemma {:induction false} SameFingerprintOtherRecords(zone: string, s: ZoneState, k: Key, soa: RRset, id: string, fingerprint: string)
    requires ZoneInv(zone, s) && s.row.recordCount <= MAX_RECORDS_PER_ZONE && id !in s.ledger && NextSoa(zone, s, soa)
    requires k in Loaded(s) && k != Key(zone, SOA) && k != Key(zone, NS)
    ensures var first := Asking(s, id, soa, RestoreThenDelete(zone, soa, k, Loaded(s)[k]), fingerprint);
            var second := Asking(s, id, soa, DeleteThenRestore(zone, soa, k, Loaded(s)[k]), fingerprint);
            var n := s.row.currentVersion + 1;
            && Content(zone, first).Ok? && Content(zone, first) == Content(zone, second)
            && IsFresh(PublishZone(zone, s, first).1) && IsFresh(PublishZone(zone, s, second).1)
            && RowsAt(RecordsOf(PublishZone(zone, s, first).0, n), k) == {}
            && RowsAt(RecordsOf(PublishZone(zone, s, second).0, n), k) == RowsAt(RecordsOf(s, s.row.currentVersion), k) != {}
  {
    StoredIsAskable(zone, s, k);
    GetReady(zone, s, soa, id);
    SaySame(zone, s, k, soa, id, fingerprint);
    FirstCommits(zone, s, k, soa, id, fingerprint);
    SecondCommits(zone, s, k, soa, id, fingerprint);
    KeyGoneOrKept(zone, Loaded(s), soa, k);
  }

  lemma {:induction false} KeyGoneOrKept(zone: string, m: RRsets, soa: RRset, k: Key)
    requires RRsetsOk(m) && k in m && k != Key(zone, SOA)
    ensures RowsAt(Flatten(WithSoa(zone, m, soa) - {k}), k) == {}
    ensures RowsAt(Flatten(WithSoa(zone, m, soa)), k) == RowsAt(Flatten(m), k)
    ensures RowsAt(Flatten(m), k) != {}
  {
    var m' := WithSoa(zone, m, soa);
    assert forall r :: r in RowsAt(Flatten(m), k) <==> r.key == k && r.ttl == m[k].ttl && r.rdata in m[k].entries;
    assert forall r :: r in RowsAt(Flatten(m'), k) <==> r.key == k && r.ttl == m'[k].ttl && r.rdata in m'[k].entries;
    assert Row(k, m[k].ttl, m[k].entries[0]) in RowsAt(Flatten(m), k);
  }

  // ---------------------------------------------------------------------------
  // Requests that add to a zone
  // ---------------------------------------------------------------------------

  /** No record has this owner. */
  predicate NoRows(rows: Snapshot, owner: string) {
    forall r :: r in rows ==> r.key.name != owner
  }

  lemma {:induction false} NoOwner(m: RRsets, owner: string)
    requires RRsetsOk(m) && NoRows(Flatten(m), owner)
    ensures forall k :: k in m ==> k.name != owner
  {
    forall k | k in m ensures k.name != owner {
      assert Row(k, m[k].ttl, m[k].entries[0]) in Flatten(m);
    }
  }

  /** A new SOA, and one record at another owner. */
  function AddRecord(zone: string, soa: RRset, k: Key, added: RRset): seq<Op> {
    [Replace(Key(zone, SOA), soa), Replace(k, added)]
  }

  /** The record can be added: it passes its checks and its owner has none so far. */
  ghost predicate Addable(zone: string, rows: Snapshot, k: Key, added: RRset) {
    OpOk(zone, Replace(k, added)) && |added.entries| == 1 && k.name != zone && NoRows(rows, k.name)
  }

  lemma {:induction false} AddEffect(zone: string, loaded: RRsets, soa: RRset, k: Key, added: RRset)
    requires k != Key(zone, SOA) && k !in loaded && added.entries != [] && soa.entries != []
    requires Key(zone, SOA) in loaded && loaded[Key(zone, SOA)] != soa
    ensures ApplyAll(AddRecord(zone, soa, k, added), Working(loaded, {}))
         == Working(WithSoa(zone, loaded, soa)[k := added], {Key(zone, SOA), k})
  {
    var a, b := Replace(Key(zone, SOA), soa), Replace(k, added);
    assert [a, b][1..] == [b] && [b][1..] == [];
    assert ApplyAll([b], ApplyOp(a, Working(loaded, {}))) == ApplyAll([], ApplyOp(b, ApplyOp(a, Working(loaded, {}))));
  }

  lemma {:induction false} TwoOk(zone: string, a: Op, b: Op)
    requires OpOk(zone, a) && OpOk(zone, b)
    ensures OpsOk(zone, [a, b])
  {
  }

  lemma {:induction false} AddValid(zone: string, loaded: RRsets, serial: int, soa: RRset, k: Key, added: RRset)
    requires RRsetsOk(loaded) && Validate(zone, loaded, serial).None? && |soa.entries| == 1 && |added.entries| == 1
    requires k.name != zone && forall x :: x in loaded ==> x.name != k.name
    ensures var m := WithSoa(zone, loaded, soa)[k := added];
            && Validate(zone, m, soa.entries[0].serial).None? && |Flatten(m)| == |Flatten(loaded)| + 1
            && Row(k, added.ttl, added.entries[0]) in Flatten(m)
  {
    NewSoaIsValid(zone, loaded, serial, soa);
    NewSoaCounts(zone, loaded, serial, soa);
    AddedIsValid(zone, WithSoa(zone, loaded, soa), soa.entries[0].serial, k, added);
  }

  lemma {:induction false} AddCommits(zone: string, s: ZoneState, soa: RRset, k: Key, added: RRset, id: string, fingerprint: string)
    requires Ready(zone, s, soa, id) && s.row.recordCount < MAX_RECORDS_PER_ZONE
    requires Addable(zone, RecordsOf(s, s.row.currentVersion), k, added)
    ensures var t := PublishZone(zone, s, Asking(s, id, soa, AddRecord(zone, soa, k, added), fingerprint));
            && IsFresh(t.1) && t.0.row.currentVersion == s.row.currentVersion + 1
            && Row(k, added.ttl, added.entries[0]) in RecordsOf(t.0, s.row.currentVersion + 1)
  {
    SoaIsNew(zone, s, soa, id);
    NoOwner(Loaded(s), k.name);
    AddEffect(zone, Loaded(s), soa, k, added);
    AddValid(zone, Loaded(s), s.row.currentSerial, soa, k, added);
    TwoOk(zone, Replace(Key(zone, SOA), soa), Replace(k, added));
    Succeeds(zone, s, soa, id, AddRecord(zone, soa, k, added),
             Working(WithSoa(zone, Loaded(s), soa)[k := added], {Key(zone, SOA), k}), fingerprint);
  }

  // ---------------------------------------------------------------------------
  // An SOA below the apex
  // ---------------------------------------------------------------------------

  /** A row that only the later of two snapshots has is in the delta between them. */
  lemma {:induction false} NewRowInDelta(zone: string, before: Snapshot, after: Snapshot, delta: seq<ChangeRow>, r: Row)
    requires SectionsShape(zone, before, after, delta) && r in after && r !in before
    ensures exists i :: 0 <= i < |delta| && delta[i].row == r
  {
    var dels, adds := RowsWith(delta, Del), RowsWith(delta, Add);
    assert r in adds;
    var j :| 0 <= j < |adds| && adds[j] == r;
    assert (dels + adds)[|dels| + j] == r;
    assert RowsOf(delta)[|dels| + j] == delta[|dels| + j].row;
  }

  /**
   In every zone with room, for every owner below the apex without records: the request that
   adds an SOA there is committed, and a secondary that cuts the increment to the new version
   at its SOA records does not get the sections back.
   */
  lemma {:induction false} LowerSoaBreaksFraming(zone: string, s: ZoneState, soa: RRset, child: string, lower: RRset, id: string, fingerprint: string)
    requires ZoneInv(zone, s) && s.row.recordCount < MAX_RECORDS_PER_ZONE && id !in s.ledger && NextSoa(zone, s, soa)
    requires Addable(zone, RecordsOf(s, s.row.currentVersion), Key(child, SOA), lower)
    ensures var (t, result) := PublishZone(zone, s, Asking(s, id, soa, AddRecord(zone, soa, Key(child, SOA), lower), fingerprint));
            var v := s.row.currentVersion;
            && IsFresh(result) && !NoLowerSoa(zone, t, v, v + 1)
            && Split(RowsOf(ChangesUpTo(t, v, v + 1)), IsSoaRow()) != Sections(t, v, v + 1)
  {
    var req := Asking(s, id, soa, AddRecord(zone, soa, Key(child, SOA), lower), fingerprint);
    var r := Row(Key(child, SOA), lower.ttl, lower.entries[0]);
    GetReady(zone, s, soa, id);
    AddCommits(zone, s, soa, Key(child, SOA), lower, id, fingerprint);
    OneMore(zone, s, req);
    ShownAfter(zone, PublishZone(zone, s, req).0, s.row.currentVersion, r);
    SplitFails(zone, PublishZone(zone, s, req).0, s.row.currentVersion);
  }

  lemma {:induction false} OneMore(zone: string, s: ZoneState, req: Request)
    requires ZoneInv(zone, s) && RequestOk(req) && IsFresh(PublishZone(zone, s, req).1)
    ensures var t, v := PublishZone(zone, s, req).0, s.row.currentVersion;
            ZoneInv(zone, t) && v in t.versions && t.row.currentVersion == v + 1 && RecordsOf(t, v) == RecordsOf(s, v)
  {
    PublishKeepsInv(zone, s, req);
    SuccessIsWhole(zone, s, req);
    CurrentSnapshot(zone, s);
  }

  lemma {:induction false} NewRowIsStreamed(zone: string, t: ZoneState, v: nat, r: Row)
    requires ZoneInv(zone, t) && v in t.versions && v + 1 in t.versions
    requires r in RecordsOf(t, v + 1) && r !in RecordsOf(t, v)
    ensures var delta := ChangesOf(t, v + 1); exists i :: 0 <= i < |delta| && delta[i].row == r
  {
    VersionShape(zone, t, v + 1);
    NewRowInDelta(zone, RecordsOf(t, v), RecordsOf(t, v + 1), ChangesOf(t, v + 1), r);
  }

  lemma {:induction false} ShownAfter(zone: string, t: ZoneState, v: nat, r: Row)
    requires ZoneInv(zone, t) && v in t.versions && t.row.currentVersion == v + 1
    requires r in RecordsOf(t, v + 1) && r !in RecordsOf(t, v) && r.key.rtype == SOA && r.key != Key(zone, SOA)
    ensures !NoLowerSoa(zone, t, v, v + 1)
  {
    assert v + 1 in t.versions;
    NewRowIsStreamed(zone, t, v, r);
    NotLowerSoaFree(zone, t, v, r);
  }

  lemma {:induction false} SplitFails(zone: string, t: ZoneState, v: nat)
    requires ZoneInv(zone, t) && v in t.versions && t.row.currentVersion == v + 1 && !NoLowerSoa(zone, t, v, v + 1)
    ensures Split(RowsOf(ChangesUpTo(t, v, v + 1)), IsSoaRow()) != Sections(t, v, v + 1)
  {
    var opening := Row(Key(zone, SOA), 0, Rdata("", [], 0));
    var stream := [opening] + RowsOf(ChangesUpTo(t, v, v + 1));
    assert stream[1..] == RowsOf(ChangesUpTo(t, v, v + 1));
    ReceiverRebuilds(zone, t, v, stream);
  }

  lemma {:induction false} NotLowerSoaFree(zone: string, t: ZoneState, v: nat, r: Row)
    requires r.key.rtype == SOA && r.key != Key(zone, SOA)
    requires var delta := ChangesOf(t, v + 1); exists i :: 0 <= i < |delta| && delta[i].row == r
    ensures !NoLowerSoa(zone, t, v, v + 1)
  {
    assert !LowerSoaFree(zone, ChangesOf(t, v + 1));
  }

  // ---------------------------------------------------------------------------
  // A TTL beyond 32 bits
  // ---------------------------------------------------------------------------

  /** A new zone can be transferred exactly if its SOA was given a 32-bit TTL; the code takes any. */
  lemma {:induction false} NewZoneTransfersIff(zone: string, z: NewZone, q: Query, plan: Plan)
    requires NewZoneOk(zone, z) && TransferQuery(q) && plan.zone == zone
    requires plan.targetVersion == 0 && plan.targetSerial == z.serial
    requires ScopeOk(InitialZone(zone, z), q, plan.mode, plan.minVersion)
    ensures var s := InitialZone(zone, z);
            && Stream(s, plan, q.clientSerial).Some?
            && ((forall r :: r in Stream(s, plan, q.clientSerial).value ==> RowFits(zone, r)) <==> IsU32(z.soaTtl))
  {
    var s := InitialZone(zone, z);
    InitialZoneInv(zone, z);
    StreamFitsIff(zone, s, q, plan);
    assert RecordsOf(s, 0) == InitialRows(zone, z);
    assert Row(Key(zone, SOA), z.soaTtl, z.soa) in RecordsOf(s, 0);
    var rows := Stream(s, plan, q.clientSerial).value;
    assert (forall i :: 0 <= i < |rows| ==> RowFits(zone, rows[i])) <==> forall r :: r in rows ==> RowFits(zone, r);
  }
}
