/**
 What a transfer delivers: the choice between incremental and full, the agreement of the two,
 and the framing by which a receiver finds its way in an incremental stream.
 */
module TransferFacts {
  import opened Basics
  import opened Ordering
  import opened Records
  import opened Changeset
  import opened Delta
  import opened Serial
  import opened Packing
  import opened Store
  import opened History
  import opened Transfer

  // ---------------------------------------------------------------------------
  // The decision
  // ---------------------------------------------------------------------------

  lemma {:induction false} IntervalSize(lo: nat, hi: nat, s: set<nat>)
    requires lo <= hi && forall v :: v in s <==> lo < v <= hi
    ensures |s| == hi - lo
    decreases hi - lo
  {
    if lo == hi {
      assert s == {};
    } else {
      IntervalSize(lo, hi - 1, s - {hi});
    }
  }

  lemma {:induction false} SerialsUnique(cur: nat, currentSerial: int, versions: map<nat, VersionRow>, u: nat, v: nat, serial: int)
    requires SerialsOk(cur, currentSerial, versions)
    requires HasSerial(versions, u, serial) && HasSerial(versions, v, serial)
    ensures u == v
  {
    assert Has(versions, u) && Has(versions, v);
  }

  /**
   An incremental answer is chosen exactly when the client's serial is retained and compares
   equal or greater; the tests for a version ahead of the target and for a gap in the history
   are never what turns it down.
   */
  lemma {:induction false} DecisionIsExact(cur: nat, currentSerial: int, versions: map<nat, VersionRow>, records: set<nat>,
                                           changes: map<nat, seq<ChangeRow>>, client: int)
    requires HistoryShape(cur, versions.Keys, records, changes) && SerialsOk(cur, currentSerial, versions) && IsU32(client)
    ensures DecideIxfr(versions, cur, currentSerial, Some(client)) == Ixfr
        <==> Compare(client, currentSerial) in {Equal, Greater} && exists v :: HasSerial(versions, v, client)
    ensures Compare(client, currentSerial) == Greater ==>
              forall v0: nat :: HasSerial(versions, v0, client) ==> v0 < cur && |Between(versions, v0, cur)| == cur - v0
  {
    assert Has(versions, cur);
    if Compare(client, currentSerial) == Equal {
      assert client == currentSerial;
      assert HasSerial(versions, cur, client);
    }
    forall v0: nat | HasSerial(versions, v0, client) && Compare(client, currentSerial) == Greater
      ensures v0 < cur && |Between(versions, v0, cur)| == cur - v0
    {
      IntervalSize(v0, cur, Between(versions, v0, cur));
    }
    if exists v :: HasSerial(versions, v, client) {
      var v0 := VersionBySerial(versions, client).value;
      assert HasSerial(versions, v0, client);
    }
  }

  /** The serials of versions `v` to `v` + `n`. */
  function SerialsFrom(versions: map<nat, VersionRow>, v: nat, n: nat): seq<int>
    requires forall i :: v <= i <= v + n ==> i in versions
  {
    seq(n + 1, i requires 0 <= i <= n => versions[v + i].serial)
  }

  lemma {:induction false} RetainedChain(cur: nat, currentSerial: int, versions: map<nat, VersionRow>, v: nat)
    requires SerialsOk(cur, currentSerial, versions) && v <= cur
    requires forall i :: v <= i <= cur ==> i in versions
    ensures IsForwardChain(SerialsFrom(versions, v, cur - v))
    ensures SerialsFrom(versions, v, cur - v)[0] == versions[v].serial
    ensures SerialsFrom(versions, v, cur - v)[cur - v] == currentSerial
  {
    var chain := SerialsFrom(versions, v, cur - v);
    forall i | 0 <= i < |chain| ensures IsU32(chain[i]) {
      assert Has(versions, v + i);
    }
    forall i | 0 < i < |chain| ensures Compare(chain[i - 1], chain[i]) == Greater {
      assert Has(versions, v + i - 1) && Has(versions, v + i);
    }
  }

  /**
   For a client that holds an older retained version, the answer is incremental exactly when
   the distance its serials travelled since, reduced modulo 2^32, is below 2^31; a client
   further behind gets a full transfer although the deltas are there.
   */
  lemma {:induction false} IxfrWindow(cur: nat, currentSerial: int, versions: map<nat, VersionRow>, records: set<nat>,
                                      changes: map<nat, seq<ChangeRow>>, v: nat)
    requires HistoryShape(cur, versions.Keys, records, changes) && SerialsOk(cur, currentSerial, versions)
    requires v in versions && v < cur
    ensures DecideIxfr(versions, cur, currentSerial, Some(versions[v].serial)) == Ixfr
        <==> 0 < Travelled(SerialsFrom(versions, v, cur - v)) % MOD < HALF
  {
    var serial := versions[v].serial;
    OlderSerialDiffers(cur, currentSerial, versions, v);
    DecisionIsExact(cur, currentSerial, versions, records, changes, serial);
    CompareFlips(serial, currentSerial);
    RetainedChain(cur, currentSerial, versions, v);
    ChainCompares(SerialsFrom(versions, v, cur - v), cur - v, serial, currentSerial);
  }

  lemma {:induction false} OlderSerialDiffers(cur: nat, currentSerial: int, versions: map<nat, VersionRow>, v: nat)
    requires SerialsOk(cur, currentSerial, versions) && cur in versions && v in versions && v < cur
    ensures HasSerial(versions, v, versions[v].serial) && versions[v].serial != currentSerial
    ensures IsU32(versions[v].serial) && IsU32(currentSerial)
  {
    assert Has(versions, v) && Has(versions, cur);
  }

  lemma {:induction false} ChainCompares(chain: seq<int>, n: nat, first: int, last: int)
    requires |chain| == n + 1 && IsForwardChain(chain) && chain[0] == first && chain[n] == last
    ensures Compare(first, last) == Greater <==> 0 < Travelled(chain) % MOD < HALF
  {
    ForwardChainCompares(chain);
  }

  // ---------------------------------------------------------------------------
  // Incremental equals full
  // ---------------------------------------------------------------------------

  /** Related deltas lead a receiver from one snapshot to the next. */
  ghost predicate Replays(related: (Snapshot, Snapshot, seq<ChangeRow>) -> bool) {
    forall before, after, delta {:trigger related(before, after, delta)} :: related(before, after, delta) ==> Replay(before, delta) == after
  }

  lemma {:induction false} DeltasReplay(zone: string)
    ensures Replays(DeltaRelation(zone))
  {
    forall before, after, delta | DeltaRelation(zone)(before, after, delta) ensures Replay(before, delta) == after {
      assert DeltaBetween(zone, before, after, delta);
      var changed: set<Key> :|
        Key(zone, SOA) in changed && AgreeOutside(before, after, changed) && delta == DeltaOf(zone, before, after, changed);
      ReplayDelta(zone, before, after, changed);
    }
  }

  lemma {:induction false} LinkAt(records: map<nat, Snapshot>, changes: map<nat, seq<ChangeRow>>,
                                  related: (Snapshot, Snapshot, seq<ChangeRow>) -> bool, v: nat)
    requires Linked(records, changes, related) && v > 0 && v - 1 in records && v in records && v in changes
    ensures related(records[v - 1], records[v], changes[v])
  {
    assert Has(records, v - 1) && Has(changes, v);
  }

  /** Replaying the streamed deltas over the client's snapshot gives the target's snapshot. */
  lemma {:induction false} ReplayUpTo(s: ZoneState, related: (Snapshot, Snapshot, seq<ChangeRow>) -> bool, v0: nat, v: nat)
    requires HistoryShape(s.row.currentVersion, s.versions.Keys, s.records.Keys, s.changes)
    requires Linked(s.records, s.changes, related) && Replays(related)
    requires v0 in s.records && v0 <= v <= s.row.currentVersion
    ensures v in s.records && Replay(s.records[v0], ChangesUpTo(s, v0, v)) == s.records[v]
    decreases v
  {
    assert v in s.versions;
    if v > v0 {
      assert v in s.changes && v - 1 in s.versions;
      ReplayUpTo(s, related, v0, v - 1);
      LinkAt(s.records, s.changes, related, v);
      assert related(s.records[v - 1], s.records[v], s.changes[v]);
      ReplayConcat(s.records[v0], ChangesUpTo(s, v0, v - 1), s.changes[v]);
    }
  }

  lemma {:induction false} WithoutElements(rows: seq<Row>, skipped: Row -> bool)
    ensures forall r :: r in Without(rows, skipped) <==> r in rows && !skipped(r)
  {
    if rows != [] {
      WithoutElements(rows[1..], skipped);
    }
  }

  lemma {:induction false} WithoutSorted(rows: seq<Row>, skipped: Row -> bool, key: Row -> SortKey)
    requires StrictlySorted(rows, key)
    ensures StrictlySorted(Without(rows, skipped), key)
  {
    if rows != [] {
      WithoutSorted(rows[1..], skipped, key);
      WithoutElements(rows[1..], skipped);
      var rest := Without(rows[1..], skipped);
      forall j | 0 <= j < |rest| ensures Ordering.Less(key(rows[0]), key(rest[j])) {
        assert rest[j] in rest;
      }
    }
  }

  lemma {:induction false} ApexSoa(zone: string, rows: Snapshot, serial: int) returns (soa: Row)
    requires ZoneSnapshot(zone, rows, serial)
    ensures IsApexSoa(zone, rows, soa) && soa in rows && soa.key == Key(zone, SOA) && soa.rdata.serial == serial
    ensures FetchSoa(zone, rows) == Some(soa)
  {
    soa :| IsApexSoa(zone, rows, soa) && soa.rdata.serial == serial;
    assert soa in RowsAt(rows, Key(zone, SOA));
  }

  /** A full transfer: the snapshot, all of it and nothing else, between two copies of its SOA. */
  lemma {:induction false} AxfrIsSnapshot(zone: string, rows: Snapshot, serial: int)
    requires ZoneSnapshot(zone, rows, serial)
    ensures AxfrRows(zone, rows).Some?
    ensures var list := AxfrRows(zone, rows).value;
            && |list| >= 2 && list[0] == list[|list| - 1]
            && list[0].key == Key(zone, SOA) && list[0].rdata.serial == serial
            && RowSet(list) == rows
            && (forall i :: 0 < i < |list| - 1 ==> list[i].key != Key(zone, SOA))
  {
    var soa := ApexSoa(zone, rows, serial);
    var middle := Without(Enumerate(rows, RowKey), IsApex(zone));
    WithoutElements(Enumerate(rows, RowKey), IsApex(zone));
    var list := [soa] + middle + [soa];
    assert AxfrRows(zone, rows) == Some(list);
    forall i | 0 < i < |list| - 1 ensures list[i].key != Key(zone, SOA) {
      assert list[i] == middle[i - 1] && middle[i - 1] in middle;
    }
    forall r | r in rows ensures r in list {
      if r.key == Key(zone, SOA) {
        assert r in RowsAt(rows, Key(zone, SOA));
      } else {
        assert r in middle;
      }
    }
    forall r | r in list ensures r in rows {
      assert r == soa || r in middle;
    }
  }

  /** Between its SOAs a full transfer sends each other row once, by name, type and text. */
  lemma {:induction false} AxfrIsOrdered(zone: string, rows: Snapshot, serial: int)
    requires ZoneSnapshot(zone, rows, serial)
    ensures AxfrRows(zone, rows).Some? && |AxfrRows(zone, rows).value| == |rows| + 1
    ensures var list := AxfrRows(zone, rows).value; StrictlySorted(list[1..|list| - 1], RowKey)
  {
    var soa := ApexSoa(zone, rows, serial);
    var cursor := Enumerate(rows, RowKey);
    var middle := Without(cursor, IsApex(zone));
    EnumerateSorted(rows, RowKey);
    WithoutSorted(cursor, IsApex(zone), RowKey);
    WithoutElements(cursor, IsApex(zone));
    assert AxfrRows(zone, rows) == Some([soa] + middle + [soa]);
    assert ([soa] + middle + [soa])[1..|middle| + 1] == middle;
    SortedCount(middle, RowKey);
    assert (set r | r in middle) == rows - {soa} by {
      OnlyApexSoa(zone, rows, soa);
    }
  }

  lemma {:induction false} OnlyApexSoa(zone: string, rows: Snapshot, soa: Row)
    requires IsApexSoa(zone, rows, soa)
    ensures forall r :: r in rows ==> (r.key == Key(zone, SOA) <==> r == soa)
  {
    forall r | r in rows ensures r.key == Key(zone, SOA) <==> r == soa {
      assert soa in RowsAt(rows, Key(zone, SOA));
      assert r.key == Key(zone, SOA) ==> r in RowsAt(rows, Key(zone, SOA));
    }
  }

  lemma {:induction false} SortedCount(list: seq<Row>, key: Row -> SortKey)
    requires StrictlySorted(list, key)
    ensures |set r | r in list| == |list|
  {
    if list != [] {
      SortedCount(list[1..], key);
      assert (set r | r in list) == {list[0]} + set r | r in list[1..];
      if list[0] in list[1..] {
        var j :| 0 < j < |list| && list[j] == list[0];
        Trichotomy(key(list[0]), key(list[j]));
        assert false;
      }
    }
  }

  /**
   Incremental and full transfers agree: for every retained version the client may hold, the
   deltas replayed over its snapshot give the very set of records a full transfer sends.
   */
  lemma {:induction false} IxfrEqualsAxfr(zone: string, s: ZoneState, v0: nat)
    requires ZoneInv(zone, s) && v0 in s.versions
    ensures v0 in s.records && AxfrRows(zone, RecordsOf(s, s.row.currentVersion)).Some?
    ensures Replay(s.records[v0], ChangesUpTo(s, v0, s.row.currentVersion))
         == RowSet(AxfrRows(zone, RecordsOf(s, s.row.currentVersion)).value)
  {
    CurrentSnapshot(zone, s);
    DeltasReplay(zone);
    ReplayUpTo(s, DeltaRelation(zone), v0, s.row.currentVersion);
    AxfrIsSnapshot(zone, RecordsOf(s, s.row.currentVersion), s.row.currentSerial);
  }

  // ---------------------------------------------------------------------------
  // Splitting a stream
  // ---------------------------------------------------------------------------

  /** Cuts a list in front of every element that starts a section. */
  function Split<T>(items: seq<T>, starts: T -> bool): (chunks: seq<seq<T>>)
    ensures items == [] <==> chunks == []
    ensures forall i :: 0 <= i < |chunks| ==> chunks[i] != []
  {
    if items == [] then []
    else if |items| == 1 || starts(items[1]) then [[items[0]]] + Split(items[1..], starts)
    else
      var rest := Split(items[1..], starts);
      [[items[0]] + rest[0]] + rest[1..]
  }

  /** Every chunk starts a section, with its first element. */
  ghost predicate Headed<T>(chunks: seq<seq<T>>, starts: T -> bool) {
    forall i :: 0 <= i < |chunks| ==> chunks[i] != [] && starts(chunks[i][0])
  }

  /** No element but a chunk's first starts a section. */
  ghost predicate PlainInside<T>(chunk: seq<T>, starts: T -> bool) {
    forall j :: 0 < j < |chunk| ==> !starts(chunk[j])
  }

  ghost predicate AllPlainInside<T>(chunks: seq<seq<T>>, starts: T -> bool) {
    forall i :: 0 <= i < |chunks| ==> PlainInside(chunks[i], starts)
  }

  lemma {:induction false} SplitPlainInside<T>(items: seq<T>, starts: T -> bool)
    ensures AllPlainInside(Split(items, starts), starts)
  {
    if items != [] {
      SplitPlainInside(items[1..], starts);
      if |items| > 1 && !starts(items[1]) {
        var rest := Split(items[1..], starts);
        SplitHead(items[1..], starts);
        assert PlainInside(rest[0], starts);
        assert PlainInside([items[0]] + rest[0], starts);
      }
    }
  }

  lemma {:induction false} SplitHead<T>(items: seq<T>, starts: T -> bool)
    requires items != []
    ensures Split(items, starts)[0] != [] && Split(items, starts)[0][0] == items[0]
  {
  }

  lemma {:induction false} SplitOneChunk<T>(chunk: seq<T>, rest: seq<T>, starts: T -> bool)
    requires chunk != [] && PlainInside(chunk, starts) && (rest != [] ==> starts(rest[0]))
    ensures Split(chunk + rest, starts) == [chunk] + Split(rest, starts)
    decreases |chunk|
  {
    var items := chunk + rest;
    if |chunk| == 1 {
      assert items[1..] == rest;
      assert chunk == [chunk[0]];
    } else {
      var tail := chunk[1..];
      assert items[1..] == tail + rest;
      assert forall j :: 0 < j < |tail| ==> tail[j] == chunk[j + 1];
      SplitOneChunk(tail, rest, starts);
      assert items[1] == chunk[1];
      assert ([tail] + Split(rest, starts))[1..] == Split(rest, starts);
      assert chunk == [chunk[0]] + tail;
    }
  }

  lemma {:induction false} SplitRecovers<T>(chunks: seq<seq<T>>, starts: T -> bool)
    requires Headed(chunks, starts) && AllPlainInside(chunks, starts)
    ensures Split(Concat(chunks), starts) == chunks
  {
    if chunks != [] {
      var rest := chunks[1..];
      assert Headed(rest, starts) && AllPlainInside(rest, starts) by {
        assert forall i :: 0 <= i < |rest| ==> rest[i] == chunks[i + 1];
      }
      SplitRecovers(rest, starts);
      assert PlainInside(chunks[0], starts);
      if Concat(rest) != [] {
        assert rest != [] && Concat(rest)[0] == rest[0][0];
      }
      SplitOneChunk(chunks[0], Concat(rest), starts);
      assert chunks == [chunks[0]] + rest;
    }
  }

  /** Splitting recovers headed chunks exactly when nothing inside them looks like a head. */
  lemma {:induction false} SplitRecoversIff<T>(chunks: seq<seq<T>>, starts: T -> bool)
    requires Headed(chunks, starts)
    ensures Split(Concat(chunks), starts) == chunks <==> AllPlainInside(chunks, starts)
  {
    if AllPlainInside(chunks, starts) {
      SplitRecovers(chunks, starts);
    }
    SplitPlainInside(Concat(chunks), starts);
  }
}
