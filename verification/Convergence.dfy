/**
 What a secondary makes of the answers: its copy of the zone, seen as wire records, becomes
 the target version's snapshot, by a full and by an incremental transfer alike.
 */
module Convergence {
  import opened Basics
  import opened Records
  import opened Changeset
  import opened Delta
  import opened Serial
  import opened Wire
  import opened QueryParser
  import opened Client
  import opened Packing
  import opened Store
  import opened History
  import opened Transfer
  import opened TransferFacts
  import opened Framing
  import opened Plans

  // ---------------------------------------------------------------------------
  // From rows to wire records and back
  // ---------------------------------------------------------------------------

  /** A row as the client sees it. */
  function RrOfRow(): Row -> Rr {
    (r: Row) => Rr(r.key.name, r.key.rtype.Value(), CLASS_IN, r.ttl, r.rdata.wire)
  }

  function MapSeq<A, B>(f: A -> B, items: seq<A>): seq<B> {
    seq(|items|, i requires 0 <= i < |items| => f(items[i]))
  }

  ghost function MapSet<A(!new), B>(f: A -> B, items: set<A>): set<B> {
    set x | x in items :: f(x)
  }

  function IsSoaRr(): Rr -> bool {
    (rr: Rr) => rr.rtype == TYPE_SOA
  }

  lemma {:induction false} SoaSeenAsSoa(r: Row)
    ensures IsSoaRr()(RrOfRow()(r)) == IsSoaRow()(r)
  {
  }

  lemma {:induction false} MapSeqConcat<A, B>(f: A -> B, a: seq<A>, b: seq<A>)
    ensures MapSeq(f, a + b) == MapSeq(f, a) + MapSeq(f, b)
  {
  }

  function MapChunk<A, B>(f: A -> B): seq<A> -> seq<B> {
    (chunk: seq<A>) => MapSeq(f, chunk)
  }

  lemma {:induction false} MapOneChunk<A, B>(f: A -> B, chunk: seq<A>, rest: seq<seq<A>>)
    ensures MapSeq(MapChunk(f), [chunk] + rest) == [MapSeq(f, chunk)] + MapSeq(MapChunk(f), rest)
  {
  }

  lemma {:induction false} MapWidened<A, B>(f: A -> B, x: A, rest: seq<seq<A>>)
    requires rest != []
    ensures MapSeq(MapChunk(f), [[x] + rest[0]] + rest[1..])
         == [[f(x)] + MapSeq(MapChunk(f), rest)[0]] + MapSeq(MapChunk(f), rest)[1..]
  {
    MapOneChunk(f, [x] + rest[0], rest[1..]);
    MapOneChunk(f, rest[0], rest[1..]);
    assert rest == [rest[0]] + rest[1..];
    MapSeqConcat(f, [x], rest[0]);
    assert MapSeq(f, [x]) == [f(x)];
  }

  /** Splitting commutes with a mapping that respects the heads. */
  lemma {:induction false} SplitMapped<A, B>(items: seq<A>, f: A -> B, starts: A -> bool, starts': B -> bool)
    requires forall i :: 0 <= i < |items| ==> starts'(f(items[i])) == starts(items[i])
    ensures Split(MapSeq(f, items), starts') == MapSeq(MapChunk(f), Split(items, starts))
    decreases |items|
  {
    if items != [] {
      var tail := items[1..];
      assert MapSeq(f, items)[1..] == MapSeq(f, tail);
      assert forall i :: 0 <= i < |tail| ==> tail[i] == items[i + 1];
      SplitMapped(tail, f, starts, starts');
      if |items| == 1 || starts(items[1]) {
        MapOneChunk(f, [items[0]], Split(tail, starts));
        assert MapSeq(f, [items[0]]) == [f(items[0])];
      } else {
        MapWidened(f, items[0], Split(tail, starts));
      }
    }
  }

  ghost predicate Inside<A(!new)>(sections: seq<seq<A>>, universe: set<A>) {
    forall i, x :: 0 <= i < |sections| && x in sections[i] ==> x in universe
  }

  lemma {:induction false} MappedElements<A, B>(f: A -> B, items: seq<A>)
    ensures (set y | y in MapSeq(f, items)) == set x | x in items :: f(x)
  {
    forall x | x in items ensures f(x) in MapSeq(f, items) {
      var i :| 0 <= i < |items| && items[i] == x;
      assert MapSeq(f, items)[i] == f(x);
    }
  }

  /** Rows that look the same have the same key. */
  lemma {:induction false} SameImageSameKey(a: Row, b: Row)
    requires RrOfRow()(a) == RrOfRow()(b)
    ensures a.key == b.key
  {
  }

  /**
   Taking whole RRsets out looks the same on wire records as on rows, even where two rows of
   an RRset have the same octets.
   */
  lemma {:induction false} WholeKeysOut(rows: Snapshot, dels: seq<Row>)
    requires WholeKeys(dels, rows)
    ensures MapSet(RrOfRow(), rows - (set r | r in dels)) == MapSet(RrOfRow(), rows) - (set rr | rr in MapSeq(RrOfRow(), dels))
  {
    MappedElements(RrOfRow(), dels);
    forall x, y | x in rows && y in dels && RrOfRow()(x) == RrOfRow()(y) ensures x in dels {
      SameImageSameKey(x, y);
    }
  }

  /** As wire records, the sections of `delta` lead from one snapshot to the next. */
  ghost function SeenRule(): (Snapshot, Snapshot, seq<ChangeRow>) -> bool {
    (before: Snapshot, after: Snapshot, delta: seq<ChangeRow>) =>
      ApplySections(MapSet(RrOfRow(), before), [MapSeq(RrOfRow(), RowsWith(delta, Del)), MapSeq(RrOfRow(), RowsWith(delta, Add))])
      == MapSet(RrOfRow(), after)
  }

  lemma {:induction false} ApplyTwo<T>(copy: set<T>, dels: seq<T>, adds: seq<T>)
    ensures ApplySections(copy, [dels, adds]) == copy - (set x | x in dels) + (set x | x in adds)
  {
    assert [dels, adds][2..] == [];
  }

  lemma {:induction false} ApplyConcat<T>(copy: set<T>, a: seq<seq<T>>, b: seq<seq<T>>)
    requires |a| % 2 == 0
    ensures ApplySections(copy, a + b) == ApplySections(ApplySections(copy, a), b)
    decreases |a|
  {
    if a == [] {
      assert a + b == b;
    } else {
      assert (a + b)[2..] == a[2..] + b;
      ApplyConcat(copy - (set x | x in a[0]) + (set x | x in a[1]), a[2..], b);
    }
  }

  lemma {:induction false} SectionsSeen(zone: string, before: Snapshot, after: Snapshot, delta: seq<ChangeRow>)
    requires SectionsOk(zone, before, after, delta)
    ensures SeenRule()(before, after, delta)
  {
    var dels, adds := RowsWith(delta, Del), RowsWith(delta, Add);
    WholeKeysOut(before, dels);
    MappedElements(RrOfRow(), adds);
    var rest := before - (set r | r in dels);
    assert MapSet(RrOfRow(), rest + (set r | r in adds)) == MapSet(RrOfRow(), rest) + MapSet(RrOfRow(), set r | r in adds);
    ApplyTwo(MapSet(RrOfRow(), before), MapSeq(RrOfRow(), dels), MapSeq(RrOfRow(), adds));
  }

  lemma {:induction false} SeenFollows(zone: string)
    ensures Follows(ServableIn(zone), DeltaRelation(zone), SeenRule())
  {
    forall before, m, after, n, delta | ServableIn(zone)(before, m) && ServableIn(zone)(after, n) && DeltaRelation(zone)(before, after, delta)
      ensures SeenRule()(before, after, delta)
    {
      SectionsBetween(zone, before, after, delta, m, n);
      SectionsSeen(zone, before, after, delta);
    }
  }

  lemma {:induction false} VersionSeen(zone: string, s: ZoneState, v: nat)
    requires ZoneInv(zone, s) && v > 0 && v - 1 in s.versions && v in s.versions
    ensures SeenRule()(RecordsOf(s, v - 1), RecordsOf(s, v), ChangesOf(s, v))
  {
    SeenFollows(zone);
    RuleAt(s.versions, s.records, s.changes, ServableIn(zone), DeltaRelation(zone), SeenRule(), v);
  }

  /** The sections of a chain of deltas, as the client sees them. */
  function SeenSections(s: ZoneState, v0: nat, v: nat): seq<seq<Rr>> {
    MapSeq(MapChunk(RrOfRow()), Sections(s, v0, v))
  }

  lemma {:induction false} SeenAppend(sections: seq<seq<Row>>, dels: seq<Row>, adds: seq<Row>)
    ensures MapSeq(MapChunk(RrOfRow()), sections + [dels, adds])
         == MapSeq(MapChunk(RrOfRow()), sections) + [MapSeq(RrOfRow(), dels), MapSeq(RrOfRow(), adds)]
  {
    MapSeqConcat(MapChunk(RrOfRow()), sections, [dels, adds]);
    assert MapSeq(MapChunk(RrOfRow()), [dels, adds]) == [MapSeq(RrOfRow(), dels), MapSeq(RrOfRow(), adds)];
  }

  lemma {:induction false} SeenSteps(s: ZoneState, v0: nat, v: nat)
    requires v0 <= v
    requires forall u: nat {:trigger ChangesOf(s, u)} :: v0 < u <= v ==> SeenRule()(RecordsOf(s, u - 1), RecordsOf(s, u), ChangesOf(s, u))
    ensures |SeenSections(s, v0, v)| % 2 == 0
    ensures ApplySections(MapSet(RrOfRow(), RecordsOf(s, v0)), SeenSections(s, v0, v)) == MapSet(RrOfRow(), RecordsOf(s, v))
    decreases v
  {
    if v > v0 {
      SeenSteps(s, v0, v - 1);
      assert SeenRule()(RecordsOf(s, v - 1), RecordsOf(s, v), ChangesOf(s, v));
      SeenStep(s, v0, v, MapSet(RrOfRow(), RecordsOf(s, v0)));
    }
  }

  /** The client's work on wire records follows the snapshots, version by version. */
  lemma {:induction false} SeenChain(zone: string, s: ZoneState, v0: nat, v: nat)
    requires ZoneInv(zone, s) && v0 in s.versions && v0 <= v <= s.row.currentVersion
    ensures ApplySections(MapSet(RrOfRow(), RecordsOf(s, v0)), SeenSections(s, v0, v)) == MapSet(RrOfRow(), RecordsOf(s, v))
  {
    forall u: nat | v0 < u <= v ensures SeenRule()(RecordsOf(s, u - 1), RecordsOf(s, u), ChangesOf(s, u)) {
      assert u in s.versions && u - 1 in s.versions;
      VersionSeen(zone, s, u);
    }
    SeenSteps(s, v0, v);
  }

  lemma {:induction false} SeenStep(s: ZoneState, v0: nat, v: nat, copy: set<Rr>)
    requires v > v0 && |SeenSections(s, v0, v - 1)| % 2 == 0
    requires SeenRule()(RecordsOf(s, v - 1), RecordsOf(s, v), ChangesOf(s, v))
    requires ApplySections(copy, SeenSections(s, v0, v - 1)) == MapSet(RrOfRow(), RecordsOf(s, v - 1))
    ensures |SeenSections(s, v0, v)| % 2 == 0
    ensures ApplySections(copy, SeenSections(s, v0, v)) == MapSet(RrOfRow(), RecordsOf(s, v))
  {
    var delta := ChangesOf(s, v);
    var dels, adds := RowsWith(delta, Del), RowsWith(delta, Add);
    SeenAppend(Sections(s, v0, v - 1), dels, adds);
    ApplyConcat(copy, SeenSections(s, v0, v - 1), [MapSeq(RrOfRow(), dels), MapSeq(RrOfRow(), adds)]);
  }

  // ---------------------------------------------------------------------------
  // All rows involved
  // ---------------------------------------------------------------------------

  /** The rows of versions `v0` to `v`. */
  function Stock(s: ZoneState, v0: nat, v: nat): Snapshot
    decreases v
  {
    if v <= v0 then RecordsOf(s, v0) else Stock(s, v0, v - 1) + RecordsOf(s, v)
  }

  lemma {:induction false} StockHas(s: ZoneState, v0: nat, v: nat, u: nat)
    requires v0 <= u <= v
    ensures RecordsOf(s, u) <= Stock(s, v0, v)
    decreases v
  {
    if u < v {
      StockHas(s, v0, v - 1, u);
    }
  }

  lemma {:induction false} InsideAppend(sections: seq<seq<Row>>, dels: seq<Row>, adds: seq<Row>, small: Snapshot, large: Snapshot)
    requires Inside(sections, small) && small <= large
    requires (set r | r in dels) <= large && (set r | r in adds) <= large
    ensures Inside(sections + [dels, adds], large)
  {
  }

  /** The sections of the streamed deltas name rows of the versions they lead between only. */
  lemma {:induction false} SectionsInside(zone: string, s: ZoneState, v0: nat, v: nat)
    requires ZoneInv(zone, s) && v0 in s.versions && v0 <= v <= s.row.currentVersion
    ensures Inside(Sections(s, v0, v), Stock(s, v0, v))
  {
    forall u | v0 < u <= v ensures NamesOwnRows(s, u) {
      VersionNames(zone, s, u);
    }
    SectionsStayInside(s, v0, v);
  }

  /** The delta to version `u` names rows of the two versions it leads between. */
  ghost predicate NamesOwnRows(s: ZoneState, u: nat)
    requires u > 0
  {
    && (set r | r in RowsWith(ChangesOf(s, u), Del)) <= RecordsOf(s, u - 1)
    && (set r | r in RowsWith(ChangesOf(s, u), Add)) <= RecordsOf(s, u)
  }

  lemma {:induction false} VersionNames(zone: string, s: ZoneState, u: nat)
    requires ZoneInv(zone, s) && 0 < u <= s.row.currentVersion && u - 1 in s.versions
    ensures NamesOwnRows(s, u)
  {
    VersionSections(zone, s, u);
    assert SectionsRule(zone)(s.records[u - 1], s.records[u], ChangesOf(s, u));
    SectionRows(zone, s.records[u - 1], s.records[u], ChangesOf(s, u));
  }

  lemma {:induction false} SectionsStayInside(s: ZoneState, v0: nat, v: nat)
    requires v0 <= v && forall u :: v0 < u <= v ==> NamesOwnRows(s, u)
    ensures Inside(Sections(s, v0, v), Stock(s, v0, v))
    decreases v
  {
    if v > v0 {
      SectionsStayInside(s, v0, v - 1);
      assert NamesOwnRows(s, v);
      StockHas(s, v0, v, v - 1);
      StockHas(s, v0, v, v);
      InsideAppend(Sections(s, v0, v - 1), RowsWith(ChangesOf(s, v), Del), RowsWith(ChangesOf(s, v), Add), Stock(s, v0, v - 1), Stock(s, v0, v));
    }
  }

  lemma {:induction false} SectionRows(zone: string, before: Snapshot, after: Snapshot, delta: seq<ChangeRow>)
    requires SectionsOk(zone, before, after, delta)
    ensures (set r | r in RowsWith(delta, Del)) <= before && (set r | r in RowsWith(delta, Add)) <= after
  {
  }

  // ---------------------------------------------------------------------------
  // The rows of a stream
  // ---------------------------------------------------------------------------

  /** What an authorized transfer streams, by mode. */
  lemma {:induction false} PlannedStream(zone: string, s: ZoneState, q: Query, plan: Plan)
    requires ZoneInv(zone, s) && TransferQuery(q) && plan.zone == zone
    requires plan.targetVersion == s.row.currentVersion && plan.targetSerial == s.row.currentSerial
    requires ScopeOk(s, q, plan.mode, plan.minVersion)
    ensures Stream(s, plan, q.clientSerial).Some?
    ensures Stream(s, plan, q.clientSerial) == if plan.mode == Axfr then AxfrRows(zone, RecordsOf(s, plan.targetVersion)) else Increment(s, plan)
  {
    CurrentSnapshot(zone, s);
    AxfrIsSnapshot(zone, RecordsOf(s, s.row.currentVersion), s.row.currentSerial);
    if plan.mode == Ixfr {
      IxfrIsIncrement(s, q, plan);
    }
  }

  lemma {:induction false} ConcatInside(sections: seq<seq<Row>>, universe: Snapshot)
    requires Inside(sections, universe)
    ensures forall i :: 0 <= i < |Concat(sections)| ==> Concat(sections)[i] in universe
  {
    if sections != [] {
      assert forall i, x :: 0 <= i < |sections[1..]| && x in sections[1..][i] ==> x in sections[i + 1];
      ConcatInside(sections[1..], universe);
    }
  }

  /** If version 0 is still there, the TTL its apex SOA was created with is a 32-bit value. */
  ghost predicate FirstTtlFits(zone: string, s: ZoneState) {
    forall r :: r in RecordsOf(s, 0) && r.key == Key(zone, SOA) ==> IsU32(r.ttl)
  }

  lemma {:induction false} SnapshotFits(zone: string, s: ZoneState, v: nat)
    requires ZoneInv(zone, s) && v in s.versions && (v == 0 ==> FirstTtlFits(zone, s))
    ensures AllFit(zone, RecordsOf(s, v))
  {
    assert Has(s.records, v);
    assert ServableIn(zone)(s.records[v], s.versions[v].serial);
    assert TtlRule(zone)(v, s.records[v]);
  }

  lemma {:induction false} AllFitUnion(zone: string, a: Snapshot, b: Snapshot)
    requires AllFit(zone, a) && AllFit(zone, b)
    ensures AllFit(zone, a + b)
  {
  }

  lemma {:induction false} FittingStock(zone: string, s: ZoneState, v0: nat, v: nat)
    requires v0 <= v && forall u: nat {:trigger RecordsOf(s, u)} :: v0 <= u <= v ==> AllFit(zone, RecordsOf(s, u))
    ensures AllFit(zone, Stock(s, v0, v))
    decreases v
  {
    if v > v0 {
      FittingStock(zone, s, v0, v - 1);
      AllFitUnion(zone, Stock(s, v0, v - 1), RecordsOf(s, v));
    }
  }

  lemma {:induction false} StockFits(zone: string, s: ZoneState, v0: nat, v: nat)
    requires ZoneInv(zone, s) && v0 in s.versions && v0 <= v <= s.row.currentVersion
    requires v0 == 0 ==> FirstTtlFits(zone, s)
    ensures AllFit(zone, Stock(s, v0, v))
  {
    forall u: nat | v0 <= u <= v ensures AllFit(zone, RecordsOf(s, u)) {
      assert u in s.versions;
      SnapshotFits(zone, s, u);
    }
    FittingStock(zone, s, v0, v);
  }

  /** A transfer that reads version 0 finds a TTL there that fits. */
  ghost predicate Packable(zone: string, s: ZoneState, minVersion: nat) {
    minVersion == 0 ==> FirstTtlFits(zone, s)
  }

  /**
   Every record of a planned stream can be packed, exactly if the transfer does not reach back
   to a version 0 whose SOA was created with a TTL beyond 32 bits.
   */
  lemma {:induction false} StreamFitsIff(zone: string, s: ZoneState, q: Query, plan: Plan)
    requires ZoneInv(zone, s) && TransferQuery(q) && plan.zone == zone
    requires plan.targetVersion == s.row.currentVersion && plan.targetSerial == s.row.currentSerial
    requires ScopeOk(s, q, plan.mode, plan.minVersion)
    ensures Stream(s, plan, q.clientSerial).Some?
    ensures (forall i :: 0 <= i < |Stream(s, plan, q.clientSerial).value| ==> RowFits(zone, Stream(s, plan, q.clientSerial).value[i]))
       <==> Packable(zone, s, plan.minVersion)
  {
    PlannedStream(zone, s, q, plan);
    var rows := Stream(s, plan, q.clientSerial).value;
    if Packable(zone, s, plan.minVersion) {
      StockFits(zone, s, plan.minVersion, plan.targetVersion);
      StreamInStock(zone, s, plan, rows);
      InStockFits(zone, rows, Stock(s, plan.minVersion, plan.targetVersion));
    } else {
      var bad :| bad in RecordsOf(s, 0) && bad.key == Key(zone, SOA) && !IsU32(bad.ttl);
      assert bad in RowsAt(RecordsOf(s, 0), Key(zone, SOA));
      OneApexSoa(zone, s, 0);
      var i := StreamShowsFirst(zone, s, plan, rows);
      assert !RowFits(zone, rows[i]);
    }
  }

  lemma {:induction false} OneApexSoa(zone: string, s: ZoneState, v: nat)
    requires ZoneInv(zone, s) && v in s.versions
    ensures forall a, b :: a in RowsAt(RecordsOf(s, v), Key(zone, SOA)) && b in RowsAt(RecordsOf(s, v), Key(zone, SOA)) ==> a == b
  {
    assert Has(s.records, v);
    assert ServableIn(zone)(s.records[v], s.versions[v].serial);
  }

  lemma {:induction false} InStockFits(zone: string, rows: seq<Row>, stock: Snapshot)
    requires AllFit(zone, stock) && forall i :: 0 <= i < |rows| ==> rows[i] in stock
    ensures forall i :: 0 <= i < |rows| ==> RowFits(zone, rows[i])
  {
  }

  /** The sections behind version 0 open with the deletion of its apex SOA. */
  lemma {:induction false} FirstSection(zone: string, s: ZoneState, v: nat)
    requires ZoneInv(zone, s) && 0 in s.versions && 1 <= v <= s.row.currentVersion
    ensures Sections(s, 0, v) != [] && Sections(s, 0, v)[0] != []
    ensures Sections(s, 0, v)[0][0] in RowsAt(RecordsOf(s, 0), Key(zone, SOA))
    decreases v
  {
    if v == 1 {
      assert 1 in s.versions;
      VersionSections(zone, s, 1);
      assert SectionsRule(zone)(s.records[0], s.records[1], ChangesOf(s, 1));
      FirstDeleted(zone, s.records[0], s.records[1], ChangesOf(s, 1));
      assert Sections(s, 0, 0) == [];
    } else {
      FirstSection(zone, s, v - 1);
    }
  }

  lemma {:induction false} FirstDeleted(zone: string, before: Snapshot, after: Snapshot, delta: seq<ChangeRow>)
    requires SectionsOk(zone, before, after, delta)
    ensures RowsWith(delta, Del) != [] && RowsWith(delta, Del)[0] in RowsAt(before, Key(zone, SOA))
  {
    assert RowsWith(delta, Del)[0] in (set r | r in RowsWith(delta, Del));
  }

  lemma {:induction false} DeltasShowFirst(zone: string, s: ZoneState, v: nat)
    requires ZoneInv(zone, s) && 0 in s.versions && 1 <= v <= s.row.currentVersion
    ensures RowsOf(ChangesUpTo(s, 0, v)) != [] && RowsOf(ChangesUpTo(s, 0, v))[0] in RowsAt(RecordsOf(s, 0), Key(zone, SOA))
  {
    FirstSection(zone, s, v);
    ChainHolds(zone, s, 0, v);
  }

  /** A stream that starts from version 0 has that version's apex SOA in it. */
  lemma {:induction false} StreamShowsFirst(zone: string, s: ZoneState, plan: Plan, rows: seq<Row>) returns (i: nat)
    requires ZoneInv(zone, s) && plan.zone == zone && plan.targetVersion == s.row.currentVersion
    requires plan.minVersion == 0 && 0 in s.versions && (plan.mode == Axfr ==> plan.targetVersion == 0)
    requires Some(rows) == if plan.mode == Axfr then AxfrRows(zone, RecordsOf(s, plan.targetVersion)) else Increment(s, plan)
    ensures i < |rows| && rows[i] in RowsAt(RecordsOf(s, 0), Key(zone, SOA))
  {
    if plan.targetVersion == 0 {
      i := 0;
    } else {
      i := 1;
      assert rows[1..] == RowsOf(ChangesUpTo(s, 0, plan.targetVersion));
      DeltasShowFirst(zone, s, plan.targetVersion);
    }
  }

  lemma {:induction false} StreamInStock(zone: string, s: ZoneState, plan: Plan, rows: seq<Row>)
    requires ZoneInv(zone, s) && plan.zone == zone && plan.targetVersion == s.row.currentVersion
    requires plan.minVersion in s.versions && plan.minVersion <= plan.targetVersion
    requires Some(rows) == if plan.mode == Axfr then AxfrRows(zone, RecordsOf(s, plan.targetVersion)) else Increment(s, plan)
    ensures forall i :: 0 <= i < |rows| ==> rows[i] in Stock(s, plan.minVersion, plan.targetVersion)
  {
    var lo, hi := plan.minVersion, plan.targetVersion;
    StockHas(s, lo, hi, hi);
    CurrentSnapshot(zone, s);
    if plan.mode == Axfr {
      AxfrIsSnapshot(zone, RecordsOf(s, hi), s.row.currentSerial);
      forall i | 0 <= i < |rows| ensures rows[i] in Stock(s, lo, hi) {
        assert rows[i] in RowSet(rows);
      }
    } else {
      SectionsInside(zone, s, lo, hi);
      ConcatInside(Sections(s, lo, hi), Stock(s, lo, hi));
      ChainHolds(zone, s, lo, hi);
      assert rows[1..] == Concat(Sections(s, lo, hi));
      forall i | 0 <= i < |rows| ensures rows[i] in Stock(s, lo, hi) {
        assert i > 0 ==> rows[i] == Concat(Sections(s, lo, hi))[i - 1];
      }
    }
  }

  // ---------------------------------------------------------------------------
  // The secondary's copy
  // ---------------------------------------------------------------------------

  /**
   A secondary's copy after a transfer: all answers of a full one; of an incremental one, the
   old copy with the sections behind the opening SOA applied.
   */
  ghost function Updated(mode: Mode, copy: set<Rr>, answers: seq<Rr>): set<Rr> {
    if mode == Axfr then set rr | rr in answers
    else if answers == [] then copy
    else ApplySections(copy, Split(answers[1..], IsSoaRr()))
  }

  lemma {:induction false} FullConverges(zone: string, rows: Snapshot, serial: int, copy: set<Rr>)
    requires ZoneSnapshot(zone, rows, serial)
    ensures AxfrRows(zone, rows).Some?
    ensures Updated(Axfr, copy, MapSeq(RrOfRow(), AxfrRows(zone, rows).value)) == MapSet(RrOfRow(), rows)
  {
    AxfrIsSnapshot(zone, rows, serial);
    var list := AxfrRows(zone, rows).value;
    MappedElements(RrOfRow(), list);
    assert MapSet(RrOfRow(), RowSet(list)) == set x | x in list :: RrOfRow()(x);
  }

  lemma {:induction false} SplitSeen(rows: seq<Row>)
    ensures Split(MapSeq(RrOfRow(), rows), IsSoaRr()) == MapSeq(MapChunk(RrOfRow()), Split(rows, IsSoaRow()))
  {
    forall i | 0 <= i < |rows| ensures IsSoaRr()(RrOfRow()(rows[i])) == IsSoaRow()(rows[i]) {
      SoaSeenAsSoa(rows[i]);
    }
    SplitMapped(rows, RrOfRow(), IsSoaRow(), IsSoaRr());
  }

  lemma {:induction false} IncrementConverges(zone: string, s: ZoneState, lo: nat, hi: nat, stream: seq<Row>)
    requires ZoneInv(zone, s) && lo in s.versions && lo <= hi == s.row.currentVersion
    requires stream != [] && stream[1..] == RowsOf(ChangesUpTo(s, lo, hi))
    requires NoLowerSoa(zone, s, lo, hi)
    ensures Updated(Ixfr, MapSet(RrOfRow(), RecordsOf(s, lo)), MapSeq(RrOfRow(), stream)) == MapSet(RrOfRow(), RecordsOf(s, hi))
  {
    ReceiverRebuilds(zone, s, lo, stream);
    SplitSeen(stream[1..]);
    assert MapSeq(RrOfRow(), stream)[1..] == MapSeq(RrOfRow(), stream[1..]);
    SeenChain(zone, s, lo, hi);
  }

  /**
   Full or incremental, the transfer leaves the secondary with the target's snapshot: the
   incremental one if the secondary starts from the version it claims and no SOA below the
   apex is touched on the way.
   */
  lemma {:induction false} SecondaryConverges(zone: string, s: ZoneState, q: Query, plan: Plan)
    requires ZoneInv(zone, s) && TransferQuery(q) && plan.zone == zone
    requires plan.targetVersion == s.row.currentVersion && plan.targetSerial == s.row.currentSerial
    requires ScopeOk(s, q, plan.mode, plan.minVersion)
    requires plan.mode == Ixfr ==> NoLowerSoa(zone, s, plan.minVersion, plan.targetVersion)
    ensures Stream(s, plan, q.clientSerial).Some?
    ensures Updated(plan.mode, MapSet(RrOfRow(), RecordsOf(s, plan.minVersion)), MapSeq(RrOfRow(), Stream(s, plan, q.clientSerial).value))
         == MapSet(RrOfRow(), RecordsOf(s, plan.targetVersion))
  {
    PlannedStream(zone, s, q, plan);
    CurrentSnapshot(zone, s);
    if plan.mode == Axfr {
      FullConverges(zone, RecordsOf(s, plan.targetVersion), s.row.currentSerial, MapSet(RrOfRow(), RecordsOf(s, plan.minVersion)));
    } else {
      IncrementConverges(zone, s, plan.minVersion, plan.targetVersion, Increment(s, plan).value);
    }
  }
}
