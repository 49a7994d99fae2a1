/**
 How a receiver takes an incremental stream apart. The stream says of no record whether it is
 deleted or added; a receiver has only the SOA records to go by, which open each section.
 */
module Framing {
  import opened Ordering
  import opened Records
  import opened Changeset
  import opened Delta
  import opened Packing
  import opened Store
  import opened History
  import opened Transfer
  import opened TransferFacts

  function IsSoaRow(): Row -> bool {
    (r: Row) => r.key.rtype == SOA
  }

  function RowsWith(delta: seq<ChangeRow>, verb: Verb): seq<Row> {
    if delta == [] then []
    else (if delta[0].verb == verb then [delta[0].row] else []) + RowsWith(delta[1..], verb)
  }

  /** The deletions and the additions of each version after `v0`, up to `v`. */
  function Sections(s: ZoneState, v0: nat, v: nat): seq<seq<Row>>
    decreases v
  {
    if v <= v0 then []
    else Sections(s, v0, v - 1) + [RowsWith(ChangesOf(s, v), Del), RowsWith(ChangesOf(s, v), Add)]
  }

  /** The delta touches no SOA record but the apex's. */
  ghost predicate LowerSoaFree(zone: string, delta: seq<ChangeRow>) {
    forall i :: 0 <= i < |delta| ==> (delta[i].row.key.rtype == SOA ==> delta[i].row.key == Key(zone, SOA))
  }

  ghost predicate NoLowerSoa(zone: string, s: ZoneState, v0: nat, v: nat) {
    forall u: nat {:trigger ChangesOf(s, u)} :: v0 < u <= v ==> LowerSoaFree(zone, ChangesOf(s, u))
  }

  /** A receiver's work: take the records of every other section out, put those of the next in. */
  function ApplySections<T>(copy: set<T>, sections: seq<seq<T>>): set<T>
    decreases |sections|
  {
    if |sections| < 2 then copy
    else ApplySections(copy - (set x | x in sections[0]) + (set x | x in sections[1]), sections[2..])
  }

  // ---------------------------------------------------------------------------
  // One version's delta
  // ---------------------------------------------------------------------------

  lemma {:induction false} RowsWithConcat(a: seq<ChangeRow>, b: seq<ChangeRow>, verb: Verb)
    ensures RowsWith(a + b, verb) == RowsWith(a, verb) + RowsWith(b, verb)
    decreases |a|
  {
    if a == [] {
      assert a + b == b;
    } else {
      var head := if a[0].verb == verb then [a[0].row] else [];
      RowsWithConcat(a[1..], b, verb);
      assert (a + b)[0] == a[0] && (a + b)[1..] == a[1..] + b;
      assert RowsWith(a + b, verb) == head + (RowsWith(a[1..], verb) + RowsWith(b, verb));
    }
  }

  lemma {:induction false} RowsWithNumbered(list: seq<Row>, verb: Verb, first: nat, asked: Verb)
    ensures RowsWith(Numbered(verb, list, first), asked) == if asked == verb then list else []
    decreases |list|
  {
    if list != [] {
      assert Numbered(verb, list, first)[1..] == Numbered(verb, list[1..], first + 1);
      RowsWithNumbered(list[1..], verb, first + 1, asked);
    } else {
      assert Numbered(verb, list, first) == [];
    }
  }

  lemma {:induction false} RowsOfConcat(a: seq<ChangeRow>, b: seq<ChangeRow>)
    ensures RowsOf(a + b) == RowsOf(a) + RowsOf(b)
  {
  }

  lemma {:induction false} RowsOfNumbered(verb: Verb, list: seq<Row>, first: nat)
    ensures RowsOf(Numbered(verb, list, first)) == list
  {
  }

  /** Deletions and additions, cut by verb, and all rows in order. */
  lemma {:induction false} NumberedParts(dels: seq<Row>, adds: seq<Row>, second: nat)
    ensures var delta := Numbered(Del, dels, 1) + Numbered(Add, adds, second);
            RowsWith(delta, Del) == dels && RowsWith(delta, Add) == adds && RowsOf(delta) == dels + adds
  {
    var a, b := Numbered(Del, dels, 1), Numbered(Add, adds, second);
    RowsWithConcat(a, b, Del);
    RowsWithConcat(a, b, Add);
    RowsWithNumbered(dels, Del, 1, Del);
    RowsWithNumbered(dels, Del, 1, Add);
    RowsWithNumbered(adds, Add, second, Del);
    RowsWithNumbered(adds, Add, second, Add);
    RowsOfConcat(a, b);
    RowsOfNumbered(Del, dels, 1);
    RowsOfNumbered(Add, adds, second);
  }

  /** A framed delta, cut by verb: both parts open with an SOA, and together they are all its rows. */
  lemma {:induction false} FramedParts(zone: string, delta: seq<ChangeRow>, oldSoa: Row, dels: seq<Row>, newSoa: Row, adds: seq<Row>)
    requires Framed(zone, delta, oldSoa, dels, newSoa, adds)
    ensures RowsWith(delta, Del) == [oldSoa] + dels && RowsWith(delta, Add) == [newSoa] + adds
    ensures RowsOf(delta) == RowsWith(delta, Del) + RowsWith(delta, Add)
  {
    NumberedParts([oldSoa] + dels, [newSoa] + adds, 2 + |dels|);
  }

  lemma {:induction false} PlainIffFree(zone: string, delta: seq<ChangeRow>, oldSoa: Row, dels: seq<Row>, newSoa: Row, adds: seq<Row>)
    requires Framed(zone, delta, oldSoa, dels, newSoa, adds)
    ensures LowerSoaFree(zone, delta) <==> PlainInside([oldSoa] + dels, IsSoaRow()) && PlainInside([newSoa] + adds, IsSoaRow())
  {
    FramedParts(zone, delta, oldSoa, dels, newSoa, adds);
    var d, a := [oldSoa] + dels, [newSoa] + adds;
    assert forall i :: 0 <= i < |delta| ==> RowsOf(delta)[i] == delta[i].row;
    assert forall i :: 0 <= i < |d| ==> RowsOf(delta)[i] == d[i];
    assert forall i :: 0 <= i < |a| ==> RowsOf(delta)[|d| + i] == a[i];
    if PlainInside(d, IsSoaRow()) && PlainInside(a, IsSoaRow()) {
      forall i | 0 <= i < |delta| && delta[i].row.key.rtype == SOA ensures delta[i].row.key == Key(zone, SOA) {
        if i < |d| {
          assert !IsSoaRow()(d[i]) || i == 0;
        } else {
          assert !IsSoaRow()(a[i - |d|]) || i == |d|;
        }
      }
    }
    if LowerSoaFree(zone, delta) {
      forall j | 0 < j < |d| ensures !IsSoaRow()(d[j]) {
        assert d[j] == dels[j - 1] && dels[j - 1] in dels && d[j] == delta[j].row;
      }
      forall j | 0 < j < |a| ensures !IsSoaRow()(a[j]) {
        assert a[j] == adds[j - 1] && adds[j - 1] in adds && a[j] == delta[|d| + j].row;
      }
    }
  }

  lemma {:induction false} FramedReplay(zone: string, before: Snapshot, delta: seq<ChangeRow>, oldSoa: Row, dels: seq<Row>, newSoa: Row, adds: seq<Row>)
    requires Framed(zone, delta, oldSoa, dels, newSoa, adds)
    ensures Replay(before, delta) == before - RowSet([oldSoa] + dels) + RowSet([newSoa] + adds)
  {
    var a, b := Numbered(Del, [oldSoa] + dels, 1), Numbered(Add, [newSoa] + adds, 2 + |dels|);
    ReplayConcat(before, a, b);
    ReplayNumbered(before, Del, [oldSoa] + dels, 1);
    ReplayNumbered(before - RowSet([oldSoa] + dels), Add, [newSoa] + adds, 2 + |dels|);
  }

  /** What a receiver needs of the two sections of one version. */
  ghost predicate SectionsShape(zone: string, before: Snapshot, after: Snapshot, delta: seq<ChangeRow>) {
    var dels, adds := RowsWith(delta, Del), RowsWith(delta, Add);
    && dels != [] && adds != [] && dels[0].key == Key(zone, SOA) && adds[0].key == Key(zone, SOA)
    && RowsOf(delta) == dels + adds
    && (LowerSoaFree(zone, delta) <==> PlainInside(dels, IsSoaRow()) && PlainInside(adds, IsSoaRow()))
    && after == before - (set r | r in dels) + (set r | r in adds)
  }

  /** And which rows they name. */
  ghost predicate SectionsOk(zone: string, before: Snapshot, after: Snapshot, delta: seq<ChangeRow>) {
    && SectionsShape(zone, before, after, delta)
    && (set r | r in RowsWith(delta, Del)) <= before
    && WholeKeys(RowsWith(delta, Del), before)
  }

  /** With a row, the list has all rows of the snapshot at the same key. */
  ghost predicate WholeKeys(list: seq<Row>, rows: Snapshot) {
    forall x, y :: x in list && y in rows && x.key == y.key ==> y in list
  }

  lemma {:induction false} FramedSectionsOk(zone: string, before: Snapshot, delta: seq<ChangeRow>,
                                            oldSoa: Row, dels: seq<Row>, newSoa: Row, adds: seq<Row>)
    requires Framed(zone, delta, oldSoa, dels, newSoa, adds)
    requires (set r | r in RowsWith(delta, Del)) <= before && WholeKeys(RowsWith(delta, Del), before)
    ensures SectionsOk(zone, before, Replay(before, delta), delta)
  {
    FramedParts(zone, delta, oldSoa, dels, newSoa, adds);
    PlainIffFree(zone, delta, oldSoa, dels, newSoa, adds);
    FramedReplay(zone, before, delta, oldSoa, dels, newSoa, adds);
  }

  predicate Distinct<T(==)>(list: seq<T>) {
    forall i, j :: 0 <= i < j < |list| ==> list[i] != list[j]
  }

  lemma {:induction false} SortedIsDistinct<T>(list: seq<T>, key: T -> SortKey)
    requires StrictlySorted(list, key)
    ensures Distinct(list)
  {
    forall i, j | 0 <= i < j < |list| ensures list[i] != list[j] {
      Trichotomy(key(list[i]), key(list[j]));
    }
  }

  lemma {:induction false} ListingIsDistinct(rows: Snapshot, keys: seq<Key>)
    requires SnapshotOk(rows) && Distinct(keys)
    ensures Distinct(Listing(rows, keys))
  {
    if keys != [] {
      var n := |keys| - 1;
      var front, last := Listing(rows, keys[..n]), RowsInOrder(rows)(keys[n]);
      ListingIsDistinct(rows, keys[..n]);
      ListingElements(rows, keys[..n]);
      RowsAtOk(rows, keys[n]);
      SortedIsDistinct(last, RowKey);
      forall i, j | 0 <= i < |front| && 0 <= j < |last| ensures front[i] != last[j] {
        assert front[i] in front && last[j] in last;
      }
    }
  }

  /**
   A delta says no more than it must: it deletes each old row and adds each new row at the
   changed keys, each once, and names no row at any other key.
   */
  lemma {:induction false} DeltaIsMinimal(zone: string, before: Snapshot, after: Snapshot, changed: set<Key>, r: Row)
    requires SnapshotOk(before) && SnapshotOk(after)
    ensures var delta := DeltaOf(zone, before, after, changed);
            && (r in RowsWith(delta, Del) <==> r in before && r.key in changed)
            && (r in RowsWith(delta, Add) <==> r in after && r.key in changed)
            && Distinct(RowsWith(delta, Del)) && Distinct(RowsWith(delta, Add))
  {
    var keys := Enumerate(changed, ChangedOrder(zone));
    ChangedKeysDistinct(zone, changed);
    NumberedParts(Listing(before, keys), Listing(after, keys), 1 + |Listing(before, keys)|);
    ListingIsExact(before, keys, changed, r);
    ListingIsExact(after, keys, changed, r);
  }

  lemma {:induction false} ChangedKeysDistinct(zone: string, changed: set<Key>)
    ensures Distinct(Enumerate(changed, ChangedOrder(zone)))
  {
    ChangedOrderInjective(zone, changed);
    EnumerateSorted(changed, ChangedOrder(zone));
    SortedIsDistinct(Enumerate(changed, ChangedOrder(zone)), ChangedOrder(zone));
  }

  lemma {:induction false} ListingIsExact(rows: Snapshot, keys: seq<Key>, changed: set<Key>, r: Row)
    requires SnapshotOk(rows) && Distinct(keys) && forall k :: k in keys <==> k in changed
    ensures r in Listing(rows, keys) <==> r in rows && r.key in changed
    ensures Distinct(Listing(rows, keys))
  {
    ListingElements(rows, keys);
    ListingIsDistinct(rows, keys);
  }

  /** The deleted rows of a delta are all rows the snapshot before has at the changed keys. */
  lemma {:induction false} DeletedRowsAreOld(zone: string, before: Snapshot, after: Snapshot, changed: set<Key>)
    ensures (set r | r in RowsWith(DeltaOf(zone, before, after, changed), Del)) <= before
    ensures WholeKeys(RowsWith(DeltaOf(zone, before, after, changed), Del), before)
  {
    var keys := Enumerate(changed, ChangedOrder(zone));
    var dels, adds := Listing(before, keys), Listing(after, keys);
    NumberedParts(dels, adds, 1 + |dels|);
    ListingElements(before, keys);
  }

  /**
   Every stored delta is the old apex SOA, the other deletions, the new apex SOA, the other
   additions, numbered from 1; the SOAs carry the serials of the versions it leads between.
   */
  lemma {:induction false} StoredDeltaIsFramed(zone: string, before: Snapshot, after: Snapshot, delta: seq<ChangeRow>, oldSerial: int, newSerial: int)
    returns (oldSoa: Row, dels: seq<Row>, newSoa: Row, adds: seq<Row>)
    requires ZoneSnapshot(zone, before, oldSerial) && ZoneSnapshot(zone, after, newSerial)
    requires DeltaBetween(zone, before, after, delta)
    ensures Framed(zone, delta, oldSoa, dels, newSoa, adds)
    ensures oldSoa.rdata.serial == oldSerial && newSoa.rdata.serial == newSerial
    ensures Replay(before, delta) == after
    ensures (set r | r in RowsWith(delta, Del)) <= before && WholeKeys(RowsWith(delta, Del), before)
  {
    oldSoa := ApexSoa(zone, before, oldSerial);
    newSoa := ApexSoa(zone, after, newSerial);
    var changed: set<Key> :|
      Key(zone, SOA) in changed && AgreeOutside(before, after, changed) && delta == DeltaOf(zone, before, after, changed);
    ReplayDelta(zone, before, after, changed);
    DeletedRowsAreOld(zone, before, after, changed);
    DeltaIsFramed(zone, before, after, changed, oldSoa, newSoa);
    dels, adds :| Framed(zone, delta, oldSoa, dels, newSoa, adds);
  }

  lemma {:induction false} SectionsBetween(zone: string, before: Snapshot, after: Snapshot, delta: seq<ChangeRow>, oldSerial: int, newSerial: int)
    requires ZoneSnapshot(zone, before, oldSerial) && ZoneSnapshot(zone, after, newSerial)
    requires DeltaBetween(zone, before, after, delta)
    ensures SectionsOk(zone, before, after, delta)
  {
    var oldSoa, dels, newSoa, adds := StoredDeltaIsFramed(zone, before, after, delta, oldSerial, newSerial);
    FramedSectionsOk(zone, before, delta, oldSoa, dels, newSoa, adds);
  }

  ghost function SectionsRule(zone: string): (Snapshot, Snapshot, seq<ChangeRow>) -> bool {
    (before: Snapshot, after: Snapshot, delta: seq<ChangeRow>) => SectionsOk(zone, before, after, delta)
  }

  /** Good neighbouring snapshots and the delta between them satisfy the rule. */
  ghost predicate Follows(good: (Snapshot, int) -> bool, related: (Snapshot, Snapshot, seq<ChangeRow>) -> bool,
                          rule: (Snapshot, Snapshot, seq<ChangeRow>) -> bool) {
    forall before, m, after, n, delta {:trigger good(before, m), good(after, n), related(before, after, delta)} ::
      good(before, m) && good(after, n) && related(before, after, delta) ==> rule(before, after, delta)
  }

  lemma {:induction false} SectionsFollow(zone: string)
    ensures Follows(ServableIn(zone), DeltaRelation(zone), SectionsRule(zone))
  {
    forall before, m, after, n, delta | ServableIn(zone)(before, m) && ServableIn(zone)(after, n) && DeltaRelation(zone)(before, after, delta)
      ensures SectionsRule(zone)(before, after, delta)
    {
      SectionsBetween(zone, before, after, delta, m, n);
    }
  }

  lemma {:induction false} RuleAt(versions: map<nat, VersionRow>, records: map<nat, Snapshot>, changes: map<nat, seq<ChangeRow>>,
                                  good: (Snapshot, int) -> bool, related: (Snapshot, Snapshot, seq<ChangeRow>) -> bool,
                                  rule: (Snapshot, Snapshot, seq<ChangeRow>) -> bool, v: nat)
    requires SnapshotsOk(versions, records, good) && Linked(records, changes, related) && Follows(good, related, rule)
    requires v > 0 && v - 1 in versions && v in versions && v - 1 in records && v in records && v in changes
    ensures rule(records[v - 1], records[v], changes[v])
  {
    assert Has(records, v - 1) && Has(records, v) && Has(changes, v);
    assert good(records[v - 1], versions[v - 1].serial) && good(records[v], versions[v].serial);
  }

  lemma {:induction false} VersionSections(zone: string, s: ZoneState, v: nat)
    requires ZoneInv(zone, s) && v > 0 && v - 1 in s.versions && v in s.versions
    ensures v - 1 in s.records && v in s.records
    ensures SectionsRule(zone)(s.records[v - 1], s.records[v], ChangesOf(s, v))
  {
    SectionsFollow(zone);
    RuleAt(s.versions, s.records, s.changes, ServableIn(zone), DeltaRelation(zone), SectionsRule(zone), v);
  }

  lemma {:induction false} VersionShape(zone: string, s: ZoneState, v: nat)
    requires ZoneInv(zone, s) && v > 0 && v - 1 in s.versions && v in s.versions
    ensures SectionsShape(zone, RecordsOf(s, v - 1), RecordsOf(s, v), ChangesOf(s, v))
  {
    VersionSections(zone, s, v);
    assert SectionsRule(zone)(s.records[v - 1], s.records[v], ChangesOf(s, v));
  }

  // ---------------------------------------------------------------------------
  // A chain of deltas
  // ---------------------------------------------------------------------------

  lemma {:induction false} ConcatAppend<T>(parts: seq<seq<T>>, more: seq<seq<T>>)
    ensures Concat(parts + more) == Concat(parts) + Concat(more)
    decreases |parts|
  {
    if parts == [] {
      assert parts + more == more;
    } else {
      assert (parts + more)[1..] == parts[1..] + more;
      ConcatAppend(parts[1..], more);
    }
  }

  lemma {:induction false} ConcatTwo<T>(a: seq<T>, b: seq<T>)
    ensures Concat([a, b]) == a + b
  {
    assert [a, b][1..] == [b] && [b][1..] == [];
    assert Concat([b]) == b + Concat([]) == b;
  }

  lemma {:induction false} ApplyAppend<T>(copy: set<T>, sections: seq<seq<T>>, dels: seq<T>, adds: seq<T>)
    requires |sections| % 2 == 0
    ensures ApplySections(copy, sections + [dels, adds])
         == ApplySections(copy, sections) - (set x | x in dels) + (set x | x in adds)
    decreases |sections|
  {
    var whole := sections + [dels, adds];
    if sections == [] {
      assert whole == [dels, adds] && whole[2..] == [];
    } else {
      assert whole[2..] == sections[2..] + [dels, adds];
      ApplyAppend(copy - (set x | x in sections[0]) + (set x | x in sections[1]), sections[2..], dels, adds);
    }
  }

  /** What holds of the sections of all versions after `v0`, up to `v`. */
  ghost predicate ChainOk(zone: string, s: ZoneState, v0: nat, v: nat)
    requires v0 in s.records && v in s.records
  {
    && |Sections(s, v0, v)| % 2 == 0
    && RowsOf(ChangesUpTo(s, v0, v)) == Concat(Sections(s, v0, v))
    && Headed(Sections(s, v0, v), IsSoaRow())
    && (NoLowerSoa(zone, s, v0, v) <==> AllPlainInside(Sections(s, v0, v), IsSoaRow()))
    && ApplySections(s.records[v0], Sections(s, v0, v)) == s.records[v]
  }

  lemma {:induction false} NoLowerSoaStep(zone: string, s: ZoneState, v0: nat, v: nat)
    requires v > v0
    ensures NoLowerSoa(zone, s, v0, v) <==> NoLowerSoa(zone, s, v0, v - 1) && LowerSoaFree(zone, ChangesOf(s, v))
  {
  }

  lemma {:induction false} PlainInsideAppend(sections: seq<seq<Row>>, dels: seq<Row>, adds: seq<Row>)
    ensures AllPlainInside(sections + [dels, adds], IsSoaRow())
        <==> AllPlainInside(sections, IsSoaRow()) && PlainInside(dels, IsSoaRow()) && PlainInside(adds, IsSoaRow())
  {
    var whole := sections + [dels, adds];
    assert whole[|sections|] == dels && whole[|sections| + 1] == adds;
    assert forall i :: 0 <= i < |sections| ==> whole[i] == sections[i];
  }

  lemma {:induction false} ChainStep(zone: string, s: ZoneState, v0: nat, v: nat)
    requires v > v0 && v0 in s.records && v - 1 in s.records && v in s.records
    requires ChainOk(zone, s, v0, v - 1)
    requires SectionsShape(zone, s.records[v - 1], s.records[v], ChangesOf(s, v))
    ensures ChainOk(zone, s, v0, v)
  {
    var sections, delta := Sections(s, v0, v - 1), ChangesOf(s, v);
    var dels, adds := RowsWith(delta, Del), RowsWith(delta, Add);
    RowsOfConcat(ChangesUpTo(s, v0, v - 1), delta);
    ConcatAppend(sections, [dels, adds]);
    ConcatTwo(dels, adds);
    NoLowerSoaStep(zone, s, v0, v);
    PlainInsideAppend(sections, dels, adds);
    ApplyAppend(s.records[v0], sections, dels, adds);
  }

  lemma {:induction false} ChainSteps(zone: string, s: ZoneState, v0: nat, v: nat)
    requires v0 <= v && forall u: nat {:trigger u in s.records} :: v0 <= u <= v ==> u in s.records
    requires forall u: nat {:trigger ChangesOf(s, u)} :: v0 < u <= v ==> SectionsShape(zone, RecordsOf(s, u - 1), RecordsOf(s, u), ChangesOf(s, u))
    ensures ChainOk(zone, s, v0, v)
    decreases v
  {
    if v == v0 {
      assert Sections(s, v0, v) == [] && ChangesUpTo(s, v0, v) == [];
    } else {
      ChainSteps(zone, s, v0, v - 1);
      assert SectionsShape(zone, RecordsOf(s, v - 1), RecordsOf(s, v), ChangesOf(s, v));
      ChainStep(zone, s, v0, v);
    }
  }

  lemma {:induction false} ChainHolds(zone: string, s: ZoneState, v0: nat, v: nat)
    requires ZoneInv(zone, s) && v0 in s.versions && v0 <= v <= s.row.currentVersion
    ensures v0 in s.records && v in s.records && ChainOk(zone, s, v0, v)
  {
    forall u: nat | v0 < u <= v ensures SectionsShape(zone, RecordsOf(s, u - 1), RecordsOf(s, u), ChangesOf(s, u)) {
      assert u - 1 in s.versions && u in s.versions;
      VersionShape(zone, s, u);
    }
    ChainSteps(zone, s, v0, v);
  }

  /**
   A receiver that cuts the incremental stream, behind its opening SOA, at every SOA record
   gets back the deletions and additions of each version, in order, exactly when no delta
   touches an SOA record below the apex; and then applying them in turn to the snapshot of
   the version it held gives the target's snapshot.
   */
  lemma {:induction false} ReceiverRebuilds(zone: string, s: ZoneState, v0: nat, stream: seq<Row>)
    requires ZoneInv(zone, s) && v0 in s.versions
    requires stream != [] && stream[1..] == RowsOf(ChangesUpTo(s, v0, s.row.currentVersion))
    ensures v0 in s.records
    ensures Split(stream[1..], IsSoaRow()) == Sections(s, v0, s.row.currentVersion)
        <==> NoLowerSoa(zone, s, v0, s.row.currentVersion)
    ensures NoLowerSoa(zone, s, v0, s.row.currentVersion) ==>
              ApplySections(s.records[v0], Split(stream[1..], IsSoaRow())) == RecordsOf(s, s.row.currentVersion)
  {
    var v := s.row.currentVersion;
    ChainHolds(zone, s, v0, v);
    SplitRecoversIff(Sections(s, v0, v), IsSoaRow());
  }
}
