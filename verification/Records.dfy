/**
 Resource records in the two shapes the store moves between: the rows of a stored snapshot
 (migrations/0001_init.sql) and the in-memory RRset map of a publish (app/storage.py).
 */
module Records {
  import opened Basics
  import opened Ordering

  /** The supported types; `Rank` is their alphabetical order, which sorting by type name uses. */
  datatype RType = A | AAAA | CNAME | MX | NS | SOA | TXT {
    function Rank(): int {
      match this
      case A => 0 case AAAA => 1 case CNAME => 2 case MX => 3 case NS => 4 case SOA => 5 case TXT => 6
    }

    function Text(): string {
      match this
      case A => "A" case AAAA => "AAAA" case CNAME => "CNAME" case MX => "MX" case NS => "NS" case SOA => "SOA" case TXT => "TXT"
    }

    /** The type's number on the wire. */
    function Value(): int {
      match this
      case A => 1 case AAAA => 28 case CNAME => 5 case MX => 15 case NS => 2 case SOA => 6 case TXT => 16
    }
  }

  /**
   One canonical RDATA value: its JSON text, its wire octets, and the number the text holds
   under "serial" (meaningful for SOA only).
   */
  datatype Rdata = Rdata(text: string, wire: Bytes, serial: int)

  datatype Key = Key(name: string, rtype: RType)

  datatype RRset = RRset(ttl: int, entries: seq<Rdata>)

  /** The nested dictionary name -> type -> (ttl, entries), as one map over both keys. */
  type RRsets = map<Key, RRset>

  /** A row of the records table within one version of one zone. */
  datatype Row = Row(key: Key, ttl: int, rdata: Rdata)

  type Snapshot = set<Row>

  /** The primary key of a row, in the order in which snapshots are read. */
  function RowKey(r: Row): SortKey {
    SortKey(0, r.key.name, r.key.rtype.Rank(), r.rdata.text, "")
  }

  /** The supported type of this name, if it names one. */
  function TypeNamed(text: string): (r: Option<RType>)
    ensures match r case Some(t) => t.Text() == text case None => forall t: RType :: t.Text() != text
  {
    if text == "A" then Some(A)
    else if text == "AAAA" then Some(AAAA)
    else if text == "CNAME" then Some(CNAME)
    else if text == "MX" then Some(MX)
    else if text == "NS" then Some(NS)
    else if text == "SOA" then Some(SOA)
    else if text == "TXT" then Some(TXT)
    else None
  }

  lemma {:induction false} TypeOfText(t: RType)
    ensures TypeNamed(t.Text()) == Some(t)
  {
  }

  /** Sorting by rank is sorting by type name. */
  lemma {:induction false} RankIsAlphabetical(s: RType, t: RType)
    ensures s.Rank() < t.Rank() <==> StrLess(s.Text(), t.Text())
  {
    StrTrichotomy(s.Text(), s.Text());
    assert "A"[1..] == "" && "AAAA"[1..] == "AAA";
  }

  lemma {:induction false} RankInjective(s: RType, t: RType)
    requires s.Rank() == t.Rank()
    ensures s == t
  {
  }

  lemma {:induction false} RowKeyEqual(a: Row, b: Row)
    ensures RowKey(a) == RowKey(b) <==> a.key == b.key && a.rdata.text == b.rdata.text
  {
  }

  // ---------------------------------------------------------------------------
  // Well-formedness of the two shapes
  // ---------------------------------------------------------------------------

  ghost predicate UniformTtl(rows: Snapshot) {
    forall a, b :: a in rows && b in rows && a.key == b.key ==> a.ttl == b.ttl
  }

  /** No primary key twice, one TTL per RRset. */
  ghost predicate SnapshotOk(rows: Snapshot) {
    Injective(rows, RowKey) && UniformTtl(rows)
  }

  predicate DistinctTexts(entries: seq<Rdata>) {
    forall i, j :: 0 <= i < j < |entries| ==> entries[i].text != entries[j].text
  }

  /** No empty RRset, no RDATA text twice in one. */
  predicate RRsetsOk(m: RRsets) {
    forall k :: k in m ==> m[k].entries != [] && DistinctTexts(m[k].entries)
  }

  function KeysOf(rows: Snapshot): set<Key> {
    set r | r in rows :: r.key
  }

  function RowsAt(rows: Snapshot, k: Key): Snapshot {
    set r | r in rows && r.key == k
  }

  function RRsetRows(k: Key, rrset: RRset): Snapshot {
    set e | e in rrset.entries :: Row(k, rrset.ttl, e)
  }

  /** The rows an RRset map stands for. */
  function Flatten(m: RRsets): Snapshot {
    set k, e | k in m && e in m[k].entries :: Row(k, m[k].ttl, e)
  }

  function RdataOf(rows: seq<Row>): seq<Rdata> {
    seq(|rows|, i requires 0 <= i < |rows| => rows[i].rdata)
  }

  /** The RRset at a key of a snapshot: TTL of its first row, entries in text order. */
  ghost function RRsetAt(rows: Snapshot, k: Key): RRset
    requires k in KeysOf(rows)
  {
    var listing := Enumerate(RowsAt(rows, k), RowKey);
    assert listing != [] by {
      var r :| r in rows && r.key == k;
      assert r in listing;
    }
    RRset(listing[0].ttl, RdataOf(listing))
  }

  /** The RRset map of a snapshot. */
  ghost function Load(rows: Snapshot): RRsets {
    map k | k in KeysOf(rows) :: RRsetAt(rows, k)
  }

  lemma {:induction false} RowsAtOk(rows: Snapshot, k: Key)
    requires SnapshotOk(rows)
    ensures SnapshotOk(RowsAt(rows, k))
    ensures StrictlySorted(Enumerate(RowsAt(rows, k), RowKey), RowKey)
  {
    EnumerateSorted(RowsAt(rows, k), RowKey);
  }

  /** A sorted listing of one RRset's rows, read back as TTL and entries, gives those rows. */
  lemma {:induction false} ListingRows(listing: seq<Row>, k: Key, ttl: int)
    requires forall r :: r in listing ==> r.key == k && r.ttl == ttl
    ensures RRsetRows(k, RRset(ttl, RdataOf(listing))) == set r | r in listing
  {
    var entries := RdataOf(listing);
    forall r | r in listing ensures r in RRsetRows(k, RRset(ttl, entries)) {
      var i :| 0 <= i < |listing| && listing[i] == r;
      assert entries[i] in entries;
    }
    forall e | e in entries ensures Row(k, ttl, e) in listing {
      var i :| 0 <= i < |entries| && entries[i] == e;
      assert listing[i] in listing;
    }
  }

  lemma {:induction false} ListingTexts(listing: seq<Row>, k: Key)
    requires StrictlySorted(listing, RowKey)
    requires forall r :: r in listing ==> r.key == k
    ensures DistinctTexts(RdataOf(listing))
  {
    forall i, j | 0 <= i < j < |listing| ensures listing[i].rdata.text != listing[j].rdata.text {
      assert listing[i] in listing && listing[j] in listing;
      Trichotomy(RowKey(listing[i]), RowKey(listing[j]));
      RowKeyEqual(listing[i], listing[j]);
    }
  }

  lemma {:induction false} LoadAt(rows: Snapshot, k: Key)
    requires SnapshotOk(rows) && k in KeysOf(rows)
    ensures RRsetRows(k, RRsetAt(rows, k)) == RowsAt(rows, k)
    ensures RRsetAt(rows, k).entries != [] && DistinctTexts(RRsetAt(rows, k).entries)
  {
    var listing := Enumerate(RowsAt(rows, k), RowKey);
    RowsAtOk(rows, k);
    var r :| r in rows && r.key == k;
    assert r in listing;
    assert listing[0] in listing;
    ListingRows(listing, k, listing[0].ttl);
    ListingTexts(listing, k);
    assert (set x | x in listing) == RowsAt(rows, k);
  }

  /** Loading a snapshot loses nothing: flattening the loaded map gives the snapshot back. */
  lemma {:induction false} FlattenLoad(rows: Snapshot)
    requires SnapshotOk(rows)
    ensures Flatten(Load(rows)) == rows
    ensures RRsetsOk(Load(rows))
  {
    var m := Load(rows);
    forall k | k in m ensures RRsetRows(k, m[k]) == RowsAt(rows, k) && m[k].entries != [] && DistinctTexts(m[k].entries) {
      LoadAt(rows, k);
      assert m[k] == RRsetAt(rows, k);
    }
    forall r | r in Flatten(m) ensures r in rows {
      assert r in RRsetRows(r.key, m[r.key]);
    }
    forall r | r in rows ensures r in Flatten(m) {
      assert r.key in KeysOf(rows);
      assert r in RowsAt(rows, r.key);
      assert r in RRsetRows(r.key, m[r.key]);
    }
  }

  /** The rows of a proper RRset map form a proper snapshot with the same keys. */
  lemma {:induction false} FlattenOk(m: RRsets)
    requires RRsetsOk(m)
    ensures SnapshotOk(Flatten(m)) && KeysOf(Flatten(m)) == m.Keys
    ensures forall k :: k in m ==> RowsAt(Flatten(m), k) == RRsetRows(k, m[k])
  {
    var rows := Flatten(m);
    forall a, b | a in rows && b in rows && RowKey(a) == RowKey(b) ensures a == b {
      RowKeyEqual(a, b);
      var i :| 0 <= i < |m[a.key].entries| && m[a.key].entries[i] == a.rdata;
      var j :| 0 <= j < |m[a.key].entries| && m[a.key].entries[j] == b.rdata;
      assert i == j;
    }
    forall k | k in m ensures k in KeysOf(rows) {
      var e := m[k].entries[0];
      assert Row(k, m[k].ttl, e) in rows;
    }
  }

  // ---------------------------------------------------------------------------
  // Loading, row by row
  // ---------------------------------------------------------------------------

  /** The rows with one key, in the order in which they were read. */
  function Matching(rows: seq<Row>, k: Key): seq<Row> {
    if rows == [] then []
    else
      var n := |rows| - 1;
      Matching(rows[..n], k) + if rows[n].key == k then [rows[n]] else []
  }

  lemma {:induction false} MatchingElements(rows: seq<Row>, k: Key)
    ensures forall r :: r in Matching(rows, k) <==> r in rows && r.key == k
  {
    if rows != [] {
      var n := |rows| - 1;
      MatchingElements(rows[..n], k);
      assert rows == rows[..n] + [rows[n]];
    }
  }

  /** What ORDER BY rdata promises: texts ascend; rows with equal texts come in any order. */
  ghost predicate TextAscending(rows: seq<Row>) {
    forall i, j :: 0 <= i < j < |rows| ==> rows[i] != rows[j] && !StrLess(rows[j].rdata.text, rows[i].rdata.text)
  }

  lemma {:induction false} LaterRowIsGreater(rows: seq<Row>, p: nat, q: nat)
    requires p < q < |rows| && rows[p].key == rows[q].key
    requires TextAscending(rows) && Injective((set r | r in rows), RowKey)
    ensures Less(RowKey(rows[p]), RowKey(rows[q]))
  {
    assert rows[p] in rows && rows[q] in rows;
    RowKeyEqual(rows[p], rows[q]);
    StrTrichotomy(rows[p].rdata.text, rows[q].rdata.text);
  }

  lemma {:induction false} MatchingSorted(rows: seq<Row>, n: nat, k: Key)
    requires n <= |rows| && TextAscending(rows) && Injective((set r | r in rows), RowKey)
    ensures StrictlySorted(Matching(rows[..n], k), RowKey)
  {
    if n > 0 {
      var front := rows[..n - 1];
      assert rows[..n][..n - 1] == front;
      MatchingSorted(rows, n - 1, k);
      MatchingElements(front, k);
      forall x | x in Matching(front, k) && rows[n - 1].key == k ensures Less(RowKey(x), RowKey(rows[n - 1])) {
        var p :| 0 <= p < n - 1 && front[p] == x;
        LaterRowIsGreater(rows, p, n - 1);
      }
    }
  }

  method LoadRRsets(rows: seq<Row>) returns (m: RRsets)
    requires TextAscending(rows) && SnapshotOk(set r | r in rows)
    ensures m == Load(set r | r in rows)
  {
    m := map[];
    var i := 0;
    while i < |rows|
      invariant 0 <= i <= |rows|
      invariant Grouped(rows[..i], m)
    {
      var r := rows[i];
      var found := if r.key in m then m[r.key] else RRset(r.ttl, []);
      GroupedStep(rows[..i], m, r);
      assert rows[..i + 1] == rows[..i] + [r];
      m := m[r.key := RRset(found.ttl, found.entries + [r.rdata])];
      i := i + 1;
    }
    assert rows[..i] == rows;
    GroupedIsLoad(rows, m);
  }

  /** The map built from a prefix of the rows. */
  ghost predicate Grouped(rows: seq<Row>, m: RRsets) {
    && (forall k :: k in m <==> Matching(rows, k) != [])
    && (forall k :: k in m ==> m[k] == RRset(Matching(rows, k)[0].ttl, RdataOf(Matching(rows, k))))
  }

  lemma {:induction false} GroupedStep(rows: seq<Row>, m: RRsets, r: Row)
    requires Grouped(rows, m)
    ensures var found := if r.key in m then m[r.key] else RRset(r.ttl, []);
            Grouped(rows + [r], m[r.key := RRset(found.ttl, found.entries + [r.rdata])])
  {
  }

  lemma {:induction false} GroupedIsLoad(rows: seq<Row>, m: RRsets)
    requires TextAscending(rows) && SnapshotOk(set r | r in rows)
    requires Grouped(rows, m)
    ensures m == Load(set r | r in rows)
  {
    var all := set r | r in rows;
    forall k ensures k in m <==> k in KeysOf(all) {
      MatchingIsKnown(rows, all, k);
    }
    forall k | k in m ensures m[k] == RRsetAt(all, k) {
      MatchingIsListing(rows, all, k);
    }
  }

  lemma {:induction false} MatchingIsKnown(rows: seq<Row>, all: Snapshot, k: Key)
    requires all == set r | r in rows
    ensures Matching(rows, k) != [] <==> k in KeysOf(all)
  {
    MatchingElements(rows, k);
    assert Matching(rows, k) != [] ==> Matching(rows, k)[0] in Matching(rows, k);
  }

  lemma {:induction false} MatchingIsListing(rows: seq<Row>, all: Snapshot, k: Key)
    requires all == set r | r in rows
    requires TextAscending(rows) && SnapshotOk(all)
    ensures Matching(rows, k) == Enumerate(RowsAt(all, k), RowKey)
  {
    MatchingElements(rows, k);
    assert rows[..|rows|] == rows;
    MatchingSorted(rows, |rows|, k);
    ListingIsEnumerate(Matching(rows, k), RowsAt(all, k), RowKey);
  }

  // ---------------------------------------------------------------------------
  // Counting
  // ---------------------------------------------------------------------------

  lemma {:induction false} EntryCount(k: Key, rrset: RRset)
    requires DistinctTexts(rrset.entries)
    ensures |RRsetRows(k, rrset)| == |rrset.entries|
    decreases |rrset.entries|
  {
    var n := |rrset.entries|;
    if n > 0 {
      var front := RRset(rrset.ttl, rrset.entries[..n - 1]);
      EntryCount(k, front);
      var last := Row(k, rrset.ttl, rrset.entries[n - 1]);
      assert rrset.entries == front.entries + [rrset.entries[n - 1]];
      assert RRsetRows(k, rrset) == RRsetRows(k, front) + {last};
      assert last !in RRsetRows(k, front);
    }
  }

  lemma {:induction false} FlattenExtend(m: RRsets, k: Key, rrset: RRset)
    requires k !in m
    ensures Flatten(m[k := rrset]) == Flatten(m) + RRsetRows(k, rrset)
    ensures Flatten(m) !! RRsetRows(k, rrset)
  {
    var m' := m[k := rrset];
    forall r | r in Flatten(m) + RRsetRows(k, rrset) ensures r in Flatten(m') {
      assert r.key in m' && r.rdata in m'[r.key].entries;
    }
  }

  /** The record total as the code adds it up, RRset by RRset. */
  method CountRecords(m: RRsets) returns (total: nat)
    requires RRsetsOk(m)
    ensures total == |Flatten(m)|
  {
    total := 0;
    var todo := m.Keys;
    ghost var counted: RRsets := map[];
    while todo != {}
      invariant todo <= m.Keys
      invariant counted == map k | k in m && k !in todo :: m[k]
      invariant total == |Flatten(counted)|
      decreases |todo|
    {
      var k :| k in todo;
      EntryCount(k, m[k]);
      FlattenExtend(counted, k, m[k]);
      counted := counted[k := m[k]];
      total := total + |m[k].entries|;
      todo := todo - {k};
    }
    assert counted == m;
  }
}
