/**
 What a publish writes for a new version (app/storage.py, `_materialize`): the snapshot, by
 copying the old one and replacing the changed RRsets, and the ordered delta that IXFR
 streams. And what a receiver makes of such a delta.
 */
module Delta {
  import opened Ordering
  import opened Records

  datatype Verb = Del | Add

  /** A row of the changes table; `seq` counts from 1 within a version. */
  datatype ChangeRow = ChangeRow(seqNo: nat, verb: Verb, row: Row)

  // ---------------------------------------------------------------------------
  // Specification: snapshot and delta of a publish
  // ---------------------------------------------------------------------------

  /** The old rows of the unchanged keys and the new rows of the changed ones. */
  function Patch(before: Snapshot, m: RRsets, changed: set<Key>): Snapshot {
    (set r | r in before && r.key !in changed) + (set k, e | k in changed && k in m && e in m[k].entries :: Row(k, m[k].ttl, e))
  }

  /** Order of the changed keys in a delta: the apex SOA first, then by name and type. */
  function ChangedOrder(zone: string): Key -> SortKey {
    (k: Key) => SortKey(if k == Key(zone, SOA) then 0 else 1, k.name, k.rtype.Rank(), "", "")
  }

  lemma {:induction false} ChangedOrderInjective(zone: string, keys: set<Key>)
    ensures Injective(keys, ChangedOrder(zone))
  {
  }

  function Gather(f: Key -> seq<Row>, keys: seq<Key>): seq<Row> {
    if keys == [] then []
    else Gather(f, keys[..|keys| - 1]) + f(keys[|keys| - 1])
  }

  lemma {:induction false} GatherHead(f: Key -> seq<Row>, keys: seq<Key>)
    requires keys != []
    ensures Gather(f, keys) == f(keys[0]) + Gather(f, keys[1..])
    decreases |keys|
  {
    var n := |keys| - 1;
    if n > 0 {
      var front, tail := keys[..n], keys[1..];
      GatherHead(f, front);
      assert front[1..] == tail[..n - 1] && tail[n - 1] == keys[n];
    } else {
      assert keys[..0] == [] && keys[1..] == [];
    }
  }

  /** The rows at a key in text order. */
  ghost function RowsInOrder(rows: Snapshot): Key -> seq<Row> {
    (k: Key) => Enumerate(RowsAt(rows, k), RowKey)
  }

  /** The rows of the given keys, key by key, each RRset in text order. */
  ghost function Listing(rows: Snapshot, keys: seq<Key>): seq<Row> {
    Gather(RowsInOrder(rows), keys)
  }

  function Numbered(verb: Verb, rows: seq<Row>, first: nat): seq<ChangeRow> {
    seq(|rows|, i requires 0 <= i < |rows| => ChangeRow(first + i, verb, rows[i]))
  }

  /** The delta between two snapshots over the changed keys: deletions, then additions. */
  ghost function DeltaOf(zone: string, before: Snapshot, after: Snapshot, changed: set<Key>): seq<ChangeRow> {
    var keys := Enumerate(changed, ChangedOrder(zone));
    var dels, adds := Listing(before, keys), Listing(after, keys);
    Numbered(Del, dels, 1) + Numbered(Add, adds, 1 + |dels|)
  }

  /** Keys outside the changed set hold in the map what the snapshot holds. */
  ghost predicate AsLoaded(before: Snapshot, m: RRsets, changed: set<Key>) {
    && (forall k :: k !in changed ==> (k in m <==> k in Load(before)))
    && (forall k :: k !in changed && k in m ==> m[k] == Load(before)[k])
  }

  /**
   Copying the old snapshot and replacing only the changed keys is the same as rewriting the
   whole zone from the final RRset map, provided the other keys are as they were loaded.
   */
  lemma {:induction false} CopyAndPatchRefinesRewrite(before: Snapshot, m: RRsets, changed: set<Key>)
    requires SnapshotOk(before) && AsLoaded(before, m, changed)
    ensures Patch(before, m, changed) == Flatten(m)
  {
    FlattenLoad(before);
    forall r | r in before && r.key !in changed ensures r in Flatten(m) {
      assert r in Flatten(Load(before));
    }
    forall r | r in Flatten(m) ensures r in Patch(before, m, changed) {
      if r.key !in changed {
        assert r in Flatten(Load(before));
      }
    }
  }

  // ---------------------------------------------------------------------------
  // The statements of the source
  // ---------------------------------------------------------------------------

  /** DELETE ... WHERE name=? AND rtype=?, then INSERT the new entries one by one. */
  method ReplaceKey(rows: Snapshot, m: RRsets, k: Key) returns (r: Snapshot)
    ensures r == (set x | x in rows && x.key != k) + (if k in m then RRsetRows(k, m[k]) else {})
  {
    r := set x | x in rows && x.key != k;
    if k in m {
      var entries := m[k].entries;
      var i := 0;
      ghost var kept := r;
      while i < |entries|
        invariant 0 <= i <= |entries|
        invariant r == kept + RRsetRows(k, RRset(m[k].ttl, entries[..i]))
      {
        assert entries[..i + 1] == entries[..i] + [entries[i]];
        r := r + {Row(k, m[k].ttl, entries[i])};
        i := i + 1;
      }
      assert entries[..i] == entries;
    }
  }

  method CopyAndPatch(before: Snapshot, m: RRsets, changed: set<Key>) returns (r: Snapshot)
    ensures r == Patch(before, m, changed)
  {
    r := before;
    var todo := changed;
    while todo != {}
      invariant todo <= changed
      invariant r == Patch(before, m, changed - todo)
      decreases |todo|
    {
      var k :| k in todo;
      ghost var done := changed - todo;
      r := ReplaceKey(r, m, k);
      PatchOneMore(before, m, done, k);
      assert changed - (todo - {k}) == done + {k};
      todo := todo - {k};
    }
    assert changed - todo == changed;
  }

  lemma {:induction false} PatchOneMore(before: Snapshot, m: RRsets, done: set<Key>, k: Key)
    requires k !in done
    ensures Patch(before, m, done + {k})
         == (set x | x in Patch(before, m, done) && x.key != k) + (if k in m then RRsetRows(k, m[k]) else {})
  {
  }

  /** The entries of an RRset as rows, sorted by text. */
  method SortedEntries(k: Key, rrset: RRset) returns (rows: seq<Row>)
    requires DistinctTexts(rrset.entries)
    ensures rows == Enumerate(RRsetRows(k, rrset), RowKey)
  {
    var table := RRsetRows(k, rrset);
    forall a, b | a in table && b in table && RowKey(a) == RowKey(b) ensures a == b {
      var i :| 0 <= i < |rrset.entries| && rrset.entries[i] == a.rdata;
      var j :| 0 <= j < |rrset.entries| && rrset.entries[j] == b.rdata;
      assert i == j;
    }
    rows := Select(table, RowKey);
  }

  /** Deleted and added rows, key by key in delta order. */
  method CollectRows(before: Snapshot, m: RRsets, keys: seq<Key>) returns (deletes: seq<Row>, adds: seq<Row>)
    requires SnapshotOk(before) && RRsetsOk(m)
    ensures deletes == Listing(before, keys)
    ensures adds == Listing(Flatten(m), keys)
  {
    deletes, adds := [], [];
    FlattenOk(m);
    var i := 0;
    while i < |keys|
      invariant 0 <= i <= |keys|
      invariant deletes == Listing(before, keys[..i])
      invariant adds == Listing(Flatten(m), keys[..i])
    {
      var k := keys[i];
      assert keys[..i + 1][..i] == keys[..i];
      RowsAtOk(before, k);
      var gone := Select(RowsAt(before, k), RowKey);
      deletes := deletes + gone;
      if k in m {
        var come := SortedEntries(k, m[k]);
        adds := adds + come;
      } else {
        assert RowsAt(Flatten(m), k) == {};
      }
      i := i + 1;
    }
    assert keys[..i] == keys;
  }

  /** The numbered rows of the changes table. */
  method NumberRows(deletes: seq<Row>, adds: seq<Row>) returns (delta: seq<ChangeRow>)
    ensures delta == Numbered(Del, deletes, 1) + Numbered(Add, adds, 1 + |deletes|)
  {
    delta := [];
    var seqNo := 0;
    for j := 0 to |deletes|
      invariant seqNo == j && delta == Numbered(Del, deletes[..j], 1)
    {
      seqNo := seqNo + 1;
      delta := delta + [ChangeRow(seqNo, Del, deletes[j])];
    }
    assert deletes[..|deletes|] == deletes;
    for j := 0 to |adds|
      invariant seqNo == |deletes| + j
      invariant delta == Numbered(Del, deletes, 1) + Numbered(Add, adds[..j], 1 + |deletes|)
    {
      seqNo := seqNo + 1;
      assert Numbered(Add, adds[..j + 1], 1 + |deletes|) == Numbered(Add, adds[..j], 1 + |deletes|) + [ChangeRow(seqNo, Add, adds[j])];
      delta := delta + [ChangeRow(seqNo, Add, adds[j])];
    }
    assert adds[..|adds|] == adds;
  }

  /** Snapshot and delta of a new version, written as the source writes them. */
  method Materialize(zone: string, before: Snapshot, m: RRsets, changed: set<Key>)
    returns (rows: Snapshot, delta: seq<ChangeRow>)
    requires SnapshotOk(before) && RRsetsOk(m) && AsLoaded(before, m, changed)
    ensures rows == Flatten(m)
    ensures delta == DeltaOf(zone, before, Flatten(m), changed)
  {
    rows := CopyAndPatch(before, m, changed);
    CopyAndPatchRefinesRewrite(before, m, changed);
    ChangedOrderInjective(zone, changed);
    var keys := Select(changed, ChangedOrder(zone));
    var deletes, adds := CollectRows(before, m, keys);
    delta := NumberRows(deletes, adds);
  }

  // ---------------------------------------------------------------------------
  // What a receiver makes of a delta
  // ---------------------------------------------------------------------------

  /** Deletions take records out of the receiver's copy, additions put them in. */
  function Replay(rows: Snapshot, delta: seq<ChangeRow>): Snapshot
    decreases |delta|
  {
    if delta == [] then rows
    else
      var c := delta[0];
      Replay(if c.verb == Del then rows - {c.row} else rows + {c.row}, delta[1..])
  }

  lemma {:induction false} ReplayConcat(rows: Snapshot, a: seq<ChangeRow>, b: seq<ChangeRow>)
    ensures Replay(rows, a + b) == Replay(Replay(rows, a), b)
    decreases |a|
  {
    if a == [] {
      assert a + b == b;
    } else {
      assert (a + b)[1..] == a[1..] + b;
      var c := a[0];
      ReplayConcat(if c.verb == Del then rows - {c.row} else rows + {c.row}, a[1..], b);
    }
  }

  function RowSet(list: seq<Row>): Snapshot {
    set r | r in list
  }

  lemma {:induction false} ReplayNumbered(rows: Snapshot, verb: Verb, list: seq<Row>, first: nat)
    ensures Replay(rows, Numbered(verb, list, first)) == if verb == Del then rows - RowSet(list) else rows + RowSet(list)
    decreases |list|
  {
    if list != [] {
      assert Numbered(verb, list, first)[1..] == Numbered(verb, list[1..], first + 1);
      ReplayNumbered(if verb == Del then rows - {list[0]} else rows + {list[0]}, verb, list[1..], first + 1);
      assert RowSet(list) == {list[0]} + RowSet(list[1..]);
    } else {
      assert Numbered(verb, list, first) == [];
    }
  }

  lemma {:induction false} ListingElements(rows: Snapshot, keys: seq<Key>)
    ensures forall r :: r in Listing(rows, keys) <==> r in rows && r.key in keys
  {
    if keys != [] {
      ListingElements(rows, keys[..|keys| - 1]);
      assert keys == keys[..|keys| - 1] + [keys[|keys| - 1]];
    }
  }

  /** Outside the changed keys the two snapshots agree. */
  ghost predicate AgreeOutside(before: Snapshot, after: Snapshot, changed: set<Key>) {
    forall r: Row :: r.key !in changed ==> (r in before <==> r in after)
  }

  /** Replaying the delta of two snapshots over the first gives the second. */
  lemma {:induction false} ReplayDelta(zone: string, before: Snapshot, after: Snapshot, changed: set<Key>)
    requires AgreeOutside(before, after, changed)
    ensures Replay(before, DeltaOf(zone, before, after, changed)) == after
  {
    var keys := Enumerate(changed, ChangedOrder(zone));
    var dels, adds := Listing(before, keys), Listing(after, keys);
    ReplayConcat(before, Numbered(Del, dels, 1), Numbered(Add, adds, 1 + |dels|));
    ReplayNumbered(before, Del, dels, 1);
    ReplayNumbered(before - RowSet(dels), Add, adds, 1 + |dels|);
    RowsExchanged(before, after, changed, keys);
  }

  lemma {:induction false} RowsExchanged(before: Snapshot, after: Snapshot, changed: set<Key>, keys: seq<Key>)
    requires AgreeOutside(before, after, changed) && forall k :: k in keys <==> k in changed
    ensures before - RowSet(Listing(before, keys)) + RowSet(Listing(after, keys)) == after
  {
    ListingElements(before, keys);
    ListingElements(after, keys);
    forall r ensures r in before - RowSet(Listing(before, keys)) + RowSet(Listing(after, keys)) <==> r in after {
      assert r.key !in changed ==> (r in before <==> r in after);
    }
  }

  // ---------------------------------------------------------------------------
  // Framing
  // ---------------------------------------------------------------------------

  /**
   The shape of one version's delta: old apex SOA, other deletions, new apex SOA, other
   additions, numbered from 1 without gaps.
   */
  ghost predicate Framed(zone: string, delta: seq<ChangeRow>, oldSoa: Row, dels: seq<Row>, newSoa: Row, adds: seq<Row>) {
    && delta == Numbered(Del, [oldSoa] + dels, 1) + Numbered(Add, [newSoa] + adds, 2 + |dels|)
    && oldSoa.key == newSoa.key == Key(zone, SOA)
    && (forall r :: r in dels || r in adds ==> r.key != Key(zone, SOA))
  }

  /** The listing of keys that start with the apex SOA starts with the only row there. */
  lemma {:induction false} ListingOfSoa(rows: Snapshot, keys: seq<Key>, soa: Row)
    requires keys != [] && RowsAt(rows, keys[0]) == {soa}
    requires keys[0] !in keys[1..]
    ensures Listing(rows, keys) == [soa] + Listing(rows, keys[1..])
    ensures soa.key == keys[0]
    ensures forall r :: r in Listing(rows, keys[1..]) ==> r.key != keys[0]
  {
    GatherHead(RowsInOrder(rows), keys);
    ListingElements(rows, keys[1..]);
    assert soa in RowsAt(rows, keys[0]);
    var head := Enumerate(RowsAt(rows, keys[0]), RowKey);
    assert |head| == 1 && head[0] in head;
  }

  lemma {:induction false} SoaIsFirst(zone: string, changed: set<Key>)
    requires Key(zone, SOA) in changed
    ensures var keys := Enumerate(changed, ChangedOrder(zone));
            keys != [] && keys[0] == Key(zone, SOA) && keys[0] !in keys[1..]
  {
  }

  /** When the apex SOA is among the changed keys, the delta is framed by both versions' SOAs. */
  lemma {:induction false} DeltaIsFramed(zone: string, before: Snapshot, after: Snapshot, changed: set<Key>, oldSoa: Row, newSoa: Row)
    requires Key(zone, SOA) in changed
    requires RowsAt(before, Key(zone, SOA)) == {oldSoa} && RowsAt(after, Key(zone, SOA)) == {newSoa}
    ensures exists dels, adds :: Framed(zone, DeltaOf(zone, before, after, changed), oldSoa, dels, newSoa, adds)
  {
    var keys := Enumerate(changed, ChangedOrder(zone));
    SoaIsFirst(zone, changed);
    ListingOfSoa(before, keys, oldSoa);
    ListingOfSoa(after, keys, newSoa);
    assert Framed(zone, DeltaOf(zone, before, after, changed), oldSoa, Listing(before, keys[1..]), newSoa, Listing(after, keys[1..]));
  }
}
