/**
 The request fingerprint (app/api.py, `canonical_fingerprint`) sorts a changeset before it
 hashes it, while a publish applies the changeset in request order. This module shows what the
 fingerprint of a request determines, and exactly when requests with one fingerprint agree.
 */
module Fingerprint {
  import opened Basics
  import opened Errors
  import opened Names
  import opened Ordering
  import opened Records
  import opened Changeset

  // ---------------------------------------------------------------------------
  // The payload
  // ---------------------------------------------------------------------------

  datatype NormValue = NormValue(ttl: int, texts: seq<string>)

  /** What is hashed of an operation; a replacement's RDATA by its canonical texts. */
  datatype NormOp = NormOp(action: string, name: string, typeName: string, value: Option<NormValue>)

  /** The hashed payload. */
  datatype Payload = Payload(baseSerial: int, nextSerial: int, ops: seq<NormOp>)

  /** Sort key of a normalized operation: owner name, type, action. */
  function NormOrder(n: NormOp): SortKey {
    SortKey(0, n.name, 0, n.typeName, n.action)
  }

  function Prepend<T>(front: seq<T>, r: Result<seq<T>, ErrorCode>): Result<seq<T>, ErrorCode> {
    match r case Err(code) => Err(code) case Ok(rest) => Ok(front + rest)
  }

  lemma {:induction false} PrependNothing<T>(r: Result<seq<T>, ErrorCode>)
    ensures Prepend([], r) == r
  {
    assert r.Ok? ==> [] + r.value == r.value;
  }

  lemma {:induction false} PrependTwice<T>(front: seq<T>, x: T, r: Result<seq<T>, ErrorCode>)
    ensures Prepend(front, Prepend([x], r)) == Prepend(front + [x], r)
  {
    assert r.Ok? ==> front + ([x] + r.value) == (front + [x]) + r.value;
  }

  function NormRecord(typeName: string, record: Result<Rdata, ErrorCode>): Result<string, ErrorCode> {
    if TypeNamed(typeName).None? then Err(ValidationError)
    else match record case Err(code) => Err(code) case Ok(rdata) => Ok(rdata.text)
  }

  function NormRecords(typeName: string, records: seq<Result<Rdata, ErrorCode>>): Result<seq<string>, ErrorCode> {
    if records == [] then Ok([])
    else
      match NormRecord(typeName, records[0])
      case Err(code) => Err(code)
      case Ok(text) => Prepend([text], NormRecords(typeName, records[1..]))
  }

  /** Actions and types need not be supported ones here, nor RDATA distinct or of bearable size. */
  function NormalizeRaw(zone: string, raw: RawOp): Result<NormOp, ErrorCode> {
    if raw.NotAnObject? then Err(ValidationError)
    else
      match CanonicalName(raw.name, zone)
      case Err(code) => Err(code)
      case Ok(name) =>
        if raw.action != "replace" then Ok(NormOp(raw.action, name, raw.typeName, None))
        else if raw.ttl.None? || !Serial.IsU32(raw.ttl.value) then Err(ValidationError)
        else if raw.records.None? then Err(ValidationError)
        else
          match NormRecords(raw.typeName, raw.records.value)
          case Err(code) => Err(code)
          case Ok(texts) => Ok(NormOp(raw.action, name, raw.typeName, Some(NormValue(raw.ttl.value, texts))))
  }

  function NormalizeAll(zone: string, raws: seq<RawOp>): Result<seq<NormOp>, ErrorCode> {
    if raws == [] then Ok([])
    else
      match NormalizeRaw(zone, raws[0])
      case Err(code) => Err(code)
      case Ok(n) => Prepend([n], NormalizeAll(zone, raws[1..]))
  }

  /** The payload of a request, or the first failure of building it, which ends the request. */
  function PayloadOf(zone: string, baseSerial: int, nextSerial: int, raws: seq<RawOp>): Result<Payload, ErrorCode> {
    match NormalizeAll(zone, raws)
    case Err(code) => Err(code)
    case Ok(norms) => Ok(Payload(baseSerial, nextSerial, StableSort(norms, NormOrder)))
  }

  /** The payload as the code builds it: append each normalized entry, then sort in place. */
  method CanonicalPayload(zone: string, baseSerial: int, nextSerial: int, raws: seq<RawOp>)
    returns (r: Result<Payload, ErrorCode>)
    ensures r == PayloadOf(zone, baseSerial, nextSerial, raws)
  {
    var norms: seq<NormOp> := [];
    var i := 0;
    assert raws[0..] == raws;
    PrependNothing(NormalizeAll(zone, raws));
    while i < |raws|
      invariant 0 <= i <= |raws|
      invariant NormalizeAll(zone, raws) == Prepend(norms, NormalizeAll(zone, raws[i..]))
    {
      assert raws[i..][1..] == raws[i + 1..];
      var entry := NormalizeOne(zone, raws[i]);
      if entry.Err? {
        return Err(entry.error);
      }
      PrependTwice(norms, entry.value, NormalizeAll(zone, raws[i + 1..]));
      norms := norms + [entry.value];
      i := i + 1;
    }
    assert norms + [] == norms;
    r := Ok(Payload(baseSerial, nextSerial, StableSort(norms, NormOrder)));
  }

  method NormalizeOne(zone: string, raw: RawOp) returns (r: Result<NormOp, ErrorCode>)
    ensures r == NormalizeRaw(zone, raw)
  {
    if raw.NotAnObject? {
      return Err(ValidationError);
    }
    var named := CanonicalName(raw.name, zone);
    if named.Err? {
      return Err(named.error);
    }
    var entry := NormOp(raw.action, named.value, raw.typeName, None);
    if raw.action == "replace" {
      if raw.ttl.None? || !Serial.IsU32(raw.ttl.value) {
        return Err(ValidationError);
      }
      if raw.records.None? {
        return Err(ValidationError);
      }
      var texts := ReadTexts(raw.typeName, raw.records.value);
      if texts.Err? {
        return Err(texts.error);
      }
      entry := entry.(value := Some(NormValue(raw.ttl.value, texts.value)));
    }
    r := Ok(entry);
  }

  method ReadTexts(typeName: string, records: seq<Result<Rdata, ErrorCode>>) returns (r: Result<seq<string>, ErrorCode>)
    ensures r == NormRecords(typeName, records)
  {
    var texts: seq<string> := [];
    var i := 0;
    assert records[0..] == records;
    PrependNothing(NormRecords(typeName, records));
    while i < |records|
      invariant 0 <= i <= |records|
      invariant NormRecords(typeName, records) == Prepend(texts, NormRecords(typeName, records[i..]))
    {
      assert records[i..][1..] == records[i + 1..];
      var text := NormRecord(typeName, records[i]);
      if text.Err? {
        return Err(text.error);
      }
      PrependTwice(texts, text.value, NormRecords(typeName, records[i + 1..]));
      texts := texts + [text.value];
      i := i + 1;
    }
    assert texts + [] == texts;
    r := Ok(texts);
  }

  /** Sort key of a checked operation: the one of its normal form. */
  function OpOrder(op: Op): SortKey {
    SortKey(0, op.key.name, 0, op.key.rtype.Text(), if op.Delete? then "delete" else "replace")
  }

  // ---------------------------------------------------------------------------
  // One key at a time
  // ---------------------------------------------------------------------------

  /** All that an operation on one key reads and writes. */
  datatype Cell = Cell(stored: Option<RRset>, changed: bool)

  function CellAt(w: Working, k: Key): Cell {
    Cell(if k in w.rrsets then Some(w.rrsets[k]) else None, k in w.changed)
  }

  function Written(rrset: RRset): Option<RRset> {
    if rrset.entries != [] then Some(rrset) else None
  }

  function StepCell(op: Op, c: Cell): Cell {
    match op
    case Delete(_) => if c.stored.Some? && !c.changed then Cell(None, true) else c
    case Replace(_, rrset) => Cell(Written(rrset), c.changed || c.stored != Some(rrset))
  }

  function FoldCell(ops: seq<Op>, c: Cell): Cell
    decreases |ops|
  {
    if ops == [] then c else FoldCell(ops[1..], StepCell(ops[0], c))
  }

  function OpsFor(ops: seq<Op>, k: Key): seq<Op> {
    if ops == [] then []
    else if ops[0].key == k then [ops[0]] + OpsFor(ops[1..], k)
    else OpsFor(ops[1..], k)
  }

  /** Operations on different keys do not interfere. */
  lemma {:induction false} KeysAreIndependent(ops: seq<Op>, w: Working, k: Key)
    ensures CellAt(ApplyAll(ops, w), k) == FoldCell(OpsFor(ops, k), CellAt(w, k))
    decreases |ops|
  {
    if ops != [] {
      var w1 := ApplyOp(ops[0], w);
      KeysAreIndependent(ops[1..], w1, k);
      if ops[0].key == k {
        assert CellAt(w1, k) == StepCell(ops[0], CellAt(w, k));
        assert OpsFor(ops, k)[1..] == OpsFor(ops[1..], k);
      } else {
        assert CellAt(w1, k) == CellAt(w, k);
      }
    }
  }

  lemma {:induction false} CellsDetermine(a: Working, b: Working)
    ensures a == b <==> forall k :: CellAt(a, k) == CellAt(b, k)
  {
    if forall k :: CellAt(a, k) == CellAt(b, k) {
      forall k ensures k in a.rrsets <==> k in b.rrsets {
        assert CellAt(a, k) == CellAt(b, k);
      }
      forall k | k in a.rrsets ensures a.rrsets[k] == b.rrsets[k] {
        assert CellAt(a, k) == CellAt(b, k);
      }
      forall k ensures k in a.changed <==> k in b.changed {
        assert CellAt(a, k) == CellAt(b, k);
      }
    }
  }

  // ---------------------------------------------------------------------------
  // What sorting does to the operations on one key
  // ---------------------------------------------------------------------------

  function Deletes(ops: seq<Op>): seq<Op> {
    if ops == [] then []
    else if ops[0].Delete? then [ops[0]] + Deletes(ops[1..])
    else Deletes(ops[1..])
  }

  function Replaces(ops: seq<Op>): seq<Op> {
    if ops == [] then []
    else if ops[0].Replace? then [ops[0]] + Replaces(ops[1..])
    else Replaces(ops[1..])
  }

  lemma {:induction false} OpsForMembers(ops: seq<Op>, k: Key)
    ensures forall op :: op in OpsFor(ops, k) <==> op in ops && op.key == k
    decreases |ops|
  {
    if ops != [] {
      OpsForMembers(ops[1..], k);
      assert ops == [ops[0]] + ops[1..];
    }
  }

  lemma {:induction false} InsertFiltered(op: Op, ops: seq<Op>, k: Key)
    requires Sorted(ops, OpOrder)
    ensures OpsFor(Insert(op, ops, OpOrder), k)
         == if op.key == k then Insert(op, OpsFor(ops, k), OpOrder) else OpsFor(ops, k)
    decreases |ops|
  {
    if ops == [] {
      assert Insert(op, ops, OpOrder) == [op];
      assert [op][1..] == [];
    } else if Leq(OpOrder(op), OpOrder(ops[0])) {
      assert Insert(op, ops, OpOrder)[1..] == ops;
      var mine := OpsFor(ops, k);
      if op.key == k && mine != [] {
        OpsForMembers(ops, k);
        assert mine[0] in mine;
        var j :| 0 <= j < |ops| && ops[j] == mine[0];
        if j > 0 {
          LeqTransitive(OpOrder(op), OpOrder(ops[0]), OpOrder(ops[j]));
        }
      }
    } else {
      InsertFiltered(op, ops[1..], k);
      var r := Insert(op, ops, OpOrder);
      assert r[0] == ops[0] && r[1..] == Insert(op, ops[1..], OpOrder);
      if op.key == k && ops[0].key == k {
        assert OpsFor(ops, k)[1..] == OpsFor(ops[1..], k);
      } else if op.key == k {
        assert OpsFor(ops, k) == OpsFor(ops[1..], k);
      }
    }
  }

  lemma {:induction false} DeleteIsLeast(op: Op, other: Op)
    requires op.Delete? && other.key == op.key
    ensures Leq(OpOrder(op), OpOrder(other))
  {
    Trichotomy(OpOrder(op), OpOrder(other));
    if other.Replace? {
      assert Less(OpOrder(op), OpOrder(other));
    } else {
      assert OpOrder(op) == OpOrder(other);
    }
  }

  lemma {:induction false} ReplaceIsBehind(op: Op, other: Op)
    requires op.Replace? && other.key == op.key
    ensures Leq(OpOrder(op), OpOrder(other)) <==> other.Replace?
  {
    Trichotomy(OpOrder(op), OpOrder(other));
    if other.Delete? {
      assert Less(OpOrder(other), OpOrder(op));
    } else {
      assert OpOrder(op) == OpOrder(other);
    }
  }

  /** Inserting into "deletions, then replacements" of one key keeps that shape. */
  lemma {:induction false} InsertOneKey(op: Op, dels: seq<Op>, reps: seq<Op>)
    requires forall o :: o in dels ==> o.Delete? && o.key == op.key
    requires forall o :: o in reps ==> o.Replace? && o.key == op.key
    ensures Insert(op, dels + reps, OpOrder) == if op.Delete? then [op] + (dels + reps) else dels + ([op] + reps)
  {
    var ops, n := dels + reps, if op.Delete? then 0 else |dels|;
    forall i | 0 <= i < |ops| ensures Leq(OpOrder(op), OpOrder(ops[i])) <==> i >= n {
      if i < |dels| {
        assert ops[i] == dels[i] && dels[i] in dels;
      } else {
        assert ops[i] == reps[i - |dels|] && reps[i - |dels|] in reps;
      }
      if op.Delete? {
        DeleteIsLeast(op, ops[i]);
      } else {
        ReplaceIsBehind(op, ops[i]);
      }
    }
    InsertAt(op, ops, OpOrder, n);
    assert ops[..n] == (if op.Delete? then [] else dels) && ops[n..] == (if op.Delete? then ops else reps);
    assert [] + ([op] + ops) == [op] + ops;
  }

  /** After the stable sort a key's deletions come first; its replacements keep their order. */
  lemma {:induction false} SortedOpsFor(ops: seq<Op>, k: Key)
    ensures OpsFor(StableSort(ops, OpOrder), k) == Deletes(OpsFor(ops, k)) + Replaces(OpsFor(ops, k))
    decreases |ops|
  {
    if ops != [] {
      SortedOpsFor(ops[1..], k);
      StableSortSorts(ops[1..], OpOrder);
      var rest := StableSort(ops[1..], OpOrder);
      InsertFiltered(ops[0], rest, k);
      var mine := OpsFor(ops[1..], k);
      if ops[0].key == k {
        OpsForMembers(ops[1..], k);
        SplitMembers(mine);
        InsertOneKey(ops[0], Deletes(mine), Replaces(mine));
        assert OpsFor(ops, k)[1..] == mine;
      }
    }
  }

  lemma {:induction false} SplitMembers(ops: seq<Op>)
    ensures forall o :: o in Deletes(ops) <==> o in ops && o.Delete?
    ensures forall o :: o in Replaces(ops) <==> o in ops && o.Replace?
    decreases |ops|
  {
    if ops != [] {
      SplitMembers(ops[1..]);
      assert ops == [ops[0]] + ops[1..];
    }
  }

  // ---------------------------------------------------------------------------
  // When the two orders agree
  // ---------------------------------------------------------------------------

  /**
   One key's operations first write back what is stored, at least once, and then delete it:
   in request order the deletion wins, in sorted order the replacement does.
   */
  ghost predicate RestoresThenDeletes(ops: seq<Op>, stored: RRset) {
    && |ops| >= 2 && ops[0].Replace? && ops[|ops| - 1].Delete?
    && (forall op :: op in ops && op.Replace? ==> op.rrset == stored)
    && (forall i, j :: 0 <= i < j < |ops| && ops[i].Delete? ==> ops[j].Delete?)
  }

  /** What the last replacement leaves, or `base` when there is none. */
  function LastWritten(ops: seq<Op>, base: Option<RRset>): Option<RRset>
    decreases |ops|
  {
    if ops == [] then base
    else LastWritten(ops[1..], if ops[0].Replace? then Written(ops[0].rrset) else base)
  }

  /** On a key already counted as changed, deletions do nothing. */
  lemma {:induction false} FoldChanged(ops: seq<Op>, stored: Option<RRset>)
    ensures FoldCell(ops, Cell(stored, true)) == Cell(LastWritten(ops, stored), true)
    decreases |ops|
  {
    if ops != [] {
      FoldChanged(ops[1..], if ops[0].Replace? then Written(ops[0].rrset) else stored);
    }
  }

  lemma {:induction false} LastWrittenOfReplaces(ops: seq<Op>, base: Option<RRset>)
    ensures LastWritten(Replaces(ops), base) == LastWritten(ops, base)
    ensures Replaces(ops) != [] ==> forall other :: LastWritten(ops, other) == LastWritten(ops, base)
    decreases |ops|
  {
    if ops != [] {
      var next := if ops[0].Replace? then Written(ops[0].rrset) else base;
      LastWrittenOfReplaces(ops[1..], next);
      if ops[0].Replace? {
        assert Replaces(ops)[1..] == Replaces(ops[1..]);
      }
    }
  }

  lemma {:induction false} FoldSplit(a: seq<Op>, b: seq<Op>, c: Cell)
    ensures FoldCell(a + b, c) == FoldCell(b, FoldCell(a, c))
    decreases |a|
  {
    if a == [] {
      assert a + b == b;
    } else {
      assert (a + b)[1..] == a[1..] + b;
      FoldSplit(a[1..], b, StepCell(a[0], c));
    }
  }

  lemma {:induction false} FoldDeletesOnAbsent(dels: seq<Op>)
    requires forall o :: o in dels ==> o.Delete?
    ensures FoldCell(dels, Cell(None, false)) == Cell(None, false)
    decreases |dels|
  {
    if dels != [] {
      assert dels[0] in dels;
      FoldDeletesOnAbsent(dels[1..]);
    }
  }

  /** A key that is not stored: both orders give the same. */
  lemma {:induction false} AbsentKeyAgrees(ops: seq<Op>)
    ensures FoldCell(ops, Cell(None, false)) == FoldCell(Deletes(ops) + Replaces(ops), Cell(None, false))
    decreases |ops|
  {
    SplitMembers(ops);
    FoldSplit(Deletes(ops), Replaces(ops), Cell(None, false));
    FoldDeletesOnAbsent(Deletes(ops));
    if ops != [] {
      if ops[0].Delete? {
        AbsentKeyAgrees(ops[1..]);
        SplitMembers(ops[1..]);
        FoldSplit(Deletes(ops[1..]), Replaces(ops[1..]), Cell(None, false));
        FoldDeletesOnAbsent(Deletes(ops[1..]));
      } else {
        var w := Written(ops[0].rrset);
        FoldChanged(ops[1..], w);
        LastWrittenOfReplaces(ops[1..], w);
        assert Replaces(ops)[1..] == Replaces(ops[1..]);
        FoldChanged(Replaces(ops[1..]), w);
      }
    }
  }

  /** A stored key with at least one deletion, in request order. */
  lemma {:induction false} StoredInRequestOrder(ops: seq<Op>, stored: RRset)
    requires stored.entries != [] && Deletes(ops) != []
    ensures FoldCell(ops, Cell(Some(stored), false))
         == Cell(if RestoresThenDeletes(ops, stored) then None else LastWritten(ops, None), true)
    decreases |ops|
  {
    var rest := ops[1..];
    assert ops == [ops[0]] + rest;
    if ops[0].Delete? {
      FoldChanged(rest, None);
    } else if ops[0].rrset != stored {
      assert ops[0] in ops;
      FoldChanged(rest, Written(ops[0].rrset));
    } else {
      StoredInRequestOrder(rest, stored);
      LastWrittenOfReplaces(rest, None);
      SplitMembers(rest);
      if Replaces(rest) == [] {
        forall i | 0 <= i < |rest| ensures rest[i].Delete? {
          assert rest[i] in rest;
        }
        assert rest != [];
        assert RestoresThenDeletes(ops, stored);
      } else {
        var r := Replaces(rest)[0];
        assert r in Replaces(rest);
        var p :| 0 <= p < |rest| && rest[p] == r;
        RestoringTail(ops, stored, p);
      }
    }
  }

  lemma {:induction false} RestoringTail(ops: seq<Op>, stored: RRset, p: nat)
    requires |ops| > 0 && ops[0].Replace? && ops[0].rrset == stored
    requires p < |ops[1..]| && ops[1..][p].Replace?
    ensures RestoresThenDeletes(ops, stored) <==> RestoresThenDeletes(ops[1..], stored)
  {
  }

  /** A stored key with at least one deletion, in sorted order. */
  lemma {:induction false} StoredInSortedOrder(ops: seq<Op>, stored: RRset)
    requires Deletes(ops) != []
    ensures FoldCell(Deletes(ops) + Replaces(ops), Cell(Some(stored), false)) == Cell(LastWritten(ops, None), true)
  {
    var dels := Deletes(ops);
    SplitMembers(ops);
    assert dels[0] in dels;
    FoldSplit(dels, Replaces(ops), Cell(Some(stored), false));
    FoldChanged(dels[1..], None);
    assert forall o :: o in dels[1..] ==> o in dels;
    LastWrittenOfDeletes(dels[1..], None);
    FoldChanged(Replaces(ops), None);
    LastWrittenOfReplaces(ops, None);
  }

  lemma {:induction false} LastWrittenOfDeletes(dels: seq<Op>, base: Option<RRset>)
    requires forall o :: o in dels ==> o.Delete?
    ensures LastWritten(dels, base) == base
    decreases |dels|
  {
    if dels != [] {
      assert dels[0] in dels;
      LastWrittenOfDeletes(dels[1..], base);
    }
  }

  lemma {:induction false} LastWrittenOfRestoring(ops: seq<Op>, stored: RRset, base: Option<RRset>)
    requires stored.entries != []
    requires forall op :: op in ops && op.Replace? ==> op.rrset == stored
    requires base == Some(stored) || (ops != [] && ops[0].Replace?)
    ensures LastWritten(ops, base) == Some(stored)
    decreases |ops|
  {
    if ops != [] {
      assert ops[0] in ops;
      LastWrittenOfRestoring(ops[1..], stored, Some(stored));
    }
  }

  lemma {:induction false} NoDeletesMeansAllReplaces(ops: seq<Op>)
    requires Deletes(ops) == []
    ensures Replaces(ops) == ops
    decreases |ops|
  {
    if ops != [] {
      NoDeletesMeansAllReplaces(ops[1..]);
    }
  }

  /** One key: the two orders differ exactly on "write back, then delete". */
  lemma {:induction false} OneKeyAgrees(ops: seq<Op>, stored: Option<RRset>)
    requires stored.Some? ==> stored.value.entries != []
    ensures FoldCell(Deletes(ops) + Replaces(ops), Cell(stored, false)) == FoldCell(ops, Cell(stored, false))
       <==> (stored.None? || !RestoresThenDeletes(ops, stored.value))
  {
    if stored.None? {
      AbsentKeyAgrees(ops);
    } else if Deletes(ops) == [] {
      NoDeletesMeansAllReplaces(ops);
      SplitMembers(ops);
      assert Deletes(ops) + Replaces(ops) == ops;
      assert |ops| >= 2 ==> ops[|ops| - 1] in Replaces(ops);
    } else {
      StoredInRequestOrder(ops, stored.value);
      StoredInSortedOrder(ops, stored.value);
      if RestoresThenDeletes(ops, stored.value) {
        LastWrittenOfRestoring(ops, stored.value, None);
      }
    }
  }

  lemma {:induction false} AbsentOutcome(ops: seq<Op>)
    ensures FoldCell(ops, Cell(None, false)) == Cell(LastWritten(ops, None), Replaces(ops) != [])
    decreases |ops|
  {
    if ops != [] {
      if ops[0].Delete? {
        AbsentOutcome(ops[1..]);
      } else {
        FoldChanged(ops[1..], Written(ops[0].rrset));
      }
    }
  }

  lemma {:induction false} ReplacedOutcome(ops: seq<Op>, stored: RRset)
    requires stored.entries != [] && Deletes(ops) == []
    ensures FoldCell(ops, Cell(Some(stored), false))
         == Cell(LastWritten(ops, Some(stored)), exists op :: op in ops && op.Replace? && op.rrset != stored)
    decreases |ops|
  {
    NoDeletesMeansAllReplaces(ops);
    if ops != [] {
      assert ops == [ops[0]] + ops[1..];
      if ops[0].rrset == stored {
        ReplacedOutcome(ops[1..], stored);
      } else {
        assert ops[0] in ops;
        FoldChanged(ops[1..], Written(ops[0].rrset));
      }
    }
  }

  /**
   What a changeset makes of one key. The last replacement wins over whatever else is asked for,
   with one exception: if the stored RRset is first only written back and then deleted, it is
   gone. Without a replacement a deletion takes the stored RRset away. The key counts as changed
   unless nothing but the stored RRset is written to it, or deletions meet no stored RRset.
   */
  lemma {:induction false} KeyOutcome(ops: seq<Op>, loaded: RRsets, k: Key)
    requires RRsetsOk(loaded)
    ensures var mine, cell := OpsFor(ops, k), CellAt(ApplyAll(ops, Working(loaded, {})), k);
            && (k !in loaded ==> cell == Cell(LastWritten(mine, None), Replaces(mine) != []))
            && (k in loaded && Deletes(mine) == [] ==>
                  cell == Cell(LastWritten(mine, Some(loaded[k])), exists op :: op in mine && op.Replace? && op.rrset != loaded[k]))
            && (k in loaded && Deletes(mine) != [] ==>
                  cell == Cell(if RestoresThenDeletes(mine, loaded[k]) then None else LastWritten(mine, None), true))
  {
    var mine := OpsFor(ops, k);
    KeysAreIndependent(ops, Working(loaded, {}), k);
    if k !in loaded {
      AbsentOutcome(mine);
    } else if Deletes(mine) == [] {
      ReplacedOutcome(mine, loaded[k]);
    } else {
      StoredInRequestOrder(mine, loaded[k]);
    }
  }

  /**
   Applying a changeset in request order and in the fingerprint's order gives the same RRset
   map and the same changed keys if and only if no stored key's operations first write back
   the stored RRset and then delete it.
   */
  lemma {:induction false} SortedOrderAgrees(ops: seq<Op>, loaded: RRsets)
    requires RRsetsOk(loaded)
    ensures ApplyAll(StableSort(ops, OpOrder), Working(loaded, {})) == ApplyAll(ops, Working(loaded, {}))
       <==> forall k :: k in loaded ==> !RestoresThenDeletes(OpsFor(ops, k), loaded[k])
  {
    var w := Working(loaded, {});
    var sorted := StableSort(ops, OpOrder);
    CellsDetermine(ApplyAll(sorted, w), ApplyAll(ops, w));
    forall k ensures CellAt(ApplyAll(sorted, w), k) == CellAt(ApplyAll(ops, w), k)
                <==> (k in loaded ==> !RestoresThenDeletes(OpsFor(ops, k), loaded[k])) {
      KeysAreIndependent(sorted, w, k);
      KeysAreIndependent(ops, w, k);
      SortedOpsFor(ops, k);
      OneKeyAgrees(OpsFor(ops, k), CellAt(w, k).stored);
    }
  }

  /** A changeset that never both deletes and replaces one key is in the safe case. */
  lemma {:induction false} DisjointActionsAgree(ops: seq<Op>, loaded: RRsets)
    requires RRsetsOk(loaded)
    requires forall d, r :: d in ops && r in ops && d.Delete? && r.Replace? ==> d.key != r.key
    ensures ApplyAll(StableSort(ops, OpOrder), Working(loaded, {})) == ApplyAll(ops, Working(loaded, {}))
  {
    forall k | k in loaded ensures !RestoresThenDeletes(OpsFor(ops, k), loaded[k]) {
      var mine := OpsFor(ops, k);
      OpsForMembers(ops, k);
      if |mine| >= 2 {
        assert mine[0] in mine && mine[|mine| - 1] in mine;
      }
    }
    SortedOrderAgrees(ops, loaded);
  }

  // ---------------------------------------------------------------------------
  // Equal payloads, on checked operations
  // ---------------------------------------------------------------------------

  /** Two changesets with the same sorted form. */
  ghost predicate SameSorted(a: seq<Op>, b: seq<Op>) {
    StableSort(a, OpOrder) == StableSort(b, OpOrder)
  }

  /**
   Changesets with one sorted form have the same effect exactly if the same keys are written
   back and then deleted in both.
   */
  lemma {:induction false} SameSortedAgreeIff(a: seq<Op>, b: seq<Op>, loaded: RRsets)
    requires RRsetsOk(loaded) && SameSorted(a, b)
    ensures ApplyAll(a, Working(loaded, {})) == ApplyAll(b, Working(loaded, {}))
       <==> forall k :: k in loaded ==> (RestoresThenDeletes(OpsFor(a, k), loaded[k]) <==> RestoresThenDeletes(OpsFor(b, k), loaded[k]))
  {
    var w := Working(loaded, {});
    CellsDetermine(ApplyAll(a, w), ApplyAll(b, w));
    forall k ensures CellAt(ApplyAll(a, w), k) == CellAt(ApplyAll(b, w), k)
                <==> (k in loaded ==> (RestoresThenDeletes(OpsFor(a, k), loaded[k]) <==> RestoresThenDeletes(OpsFor(b, k), loaded[k]))) {
      KeysAreIndependent(a, w, k);
      KeysAreIndependent(b, w, k);
      SameSortedAt(a, b, k);
      OneKeyAgreesIff(OpsFor(a, k), OpsFor(b, k), CellAt(w, k).stored);
    }
  }

  lemma {:induction false} SplitConcat(a: seq<Op>, b: seq<Op>)
    ensures Deletes(a + b) == Deletes(a) + Deletes(b) && Replaces(a + b) == Replaces(a) + Replaces(b)
    decreases |a|
  {
    if a == [] {
      assert a + b == b;
    } else {
      assert (a + b)[1..] == a[1..] + b;
      SplitConcat(a[1..], b);
    }
  }

  lemma {:induction false} AllDeletes(ops: seq<Op>)
    requires forall o :: o in ops ==> o.Delete?
    ensures Deletes(ops) == ops && Replaces(ops) == []
    decreases |ops|
  {
    if ops != [] {
      assert ops[0] in ops;
      AllDeletes(ops[1..]);
    }
  }

  lemma {:induction false} AllReplaces(ops: seq<Op>)
    requires forall o :: o in ops ==> o.Replace?
    ensures Deletes(ops) == [] && Replaces(ops) == ops
    decreases |ops|
  {
    if ops != [] {
      assert ops[0] in ops;
      AllReplaces(ops[1..]);
    }
  }

  lemma {:induction false} SplitTwice(ops: seq<Op>)
    ensures Deletes(Deletes(ops)) == Deletes(ops) && Replaces(Deletes(ops)) == []
    ensures Deletes(Replaces(ops)) == [] && Replaces(Replaces(ops)) == Replaces(ops)
  {
    SplitMembers(ops);
    AllDeletes(Deletes(ops));
    AllReplaces(Replaces(ops));
  }

  lemma {:induction false} SplitOfSplit(ops: seq<Op>)
    ensures var d, r := Deletes(ops), Replaces(ops);
            && Deletes(d + r) == Deletes(r + d) == d && Replaces(d + r) == Replaces(r + d) == r
  {
    var d, r := Deletes(ops), Replaces(ops);
    SplitConcat(d, r);
    SplitConcat(r, d);
    SplitTwice(ops);
  }

  lemma {:induction false} SameSortedAt(a: seq<Op>, b: seq<Op>, k: Key)
    requires SameSorted(a, b)
    ensures Deletes(OpsFor(a, k)) == Deletes(OpsFor(b, k)) && Replaces(OpsFor(a, k)) == Replaces(OpsFor(b, k))
  {
    SortedOpsFor(a, k);
    SortedOpsFor(b, k);
    SplitOfSplit(OpsFor(a, k));
    SplitOfSplit(OpsFor(b, k));
  }

  /** What one key's operations leave, in any order with these deletions and replacements. */
  lemma {:induction false} OneKeyOutcome(ops: seq<Op>, stored: Option<RRset>)
    requires stored.Some? ==> stored.value.entries != []
    ensures FoldCell(ops, Cell(stored, false))
         == if stored.Some? && RestoresThenDeletes(ops, stored.value) then Cell(None, true)
            else FoldCell(Deletes(ops) + Replaces(ops), Cell(stored, false))
  {
    OneKeyAgrees(ops, stored);
    if stored.Some? && RestoresThenDeletes(ops, stored.value) {
      LastIsDelete(ops);
      StoredInRequestOrder(ops, stored.value);
    }
  }

  lemma {:induction false} LastIsDelete(ops: seq<Op>)
    requires |ops| > 0 && ops[|ops| - 1].Delete?
    ensures Deletes(ops) != []
  {
    SplitMembers(ops);
    assert ops[|ops| - 1] in Deletes(ops);
  }

  lemma {:induction false} OneKeyAgreesIff(a: seq<Op>, b: seq<Op>, stored: Option<RRset>)
    requires stored.Some? ==> stored.value.entries != []
    requires Deletes(a) == Deletes(b) && Replaces(a) == Replaces(b)
    ensures FoldCell(a, Cell(stored, false)) == FoldCell(b, Cell(stored, false))
       <==> (stored.Some? ==> (RestoresThenDeletes(a, stored.value) <==> RestoresThenDeletes(b, stored.value)))
  {
    OneKeyOutcome(a, stored);
    OneKeyOutcome(b, stored);
    OneKeyAgrees(a, stored);
    OneKeyAgrees(b, stored);
  }

  /** Where just one of two changesets with one sorted form deletes last, the other restores. */
  lemma {:induction false} DeletedOrRestored(a: seq<Op>, b: seq<Op>, loaded: RRsets, k: Key)
    requires RRsetsOk(loaded) && SameSorted(a, b) && k in loaded
    requires RestoresThenDeletes(OpsFor(a, k), loaded[k]) && !RestoresThenDeletes(OpsFor(b, k), loaded[k])
    ensures k !in ApplyAll(a, Working(loaded, {})).rrsets
    ensures k in ApplyAll(b, Working(loaded, {})).rrsets && ApplyAll(b, Working(loaded, {})).rrsets[k] == loaded[k]
  {
    var w, mine, theirs := Working(loaded, {}), OpsFor(a, k), OpsFor(b, k);
    KeysAreIndependent(a, w, k);
    KeysAreIndependent(b, w, k);
    SameSortedAt(a, b, k);
    OneKeyOutcome(mine, Some(loaded[k]));
    OneKeyOutcome(theirs, Some(loaded[k]));
    LastIsDelete(mine);
    StoredInSortedOrder(mine, loaded[k]);
    LastWrittenOfRestoring(mine, loaded[k], None);
  }

  // ---------------------------------------------------------------------------
  // All requests with one payload
  // ---------------------------------------------------------------------------

  /** The key is deleted, and otherwise only ever written back as it is stored. */
  ghost predicate OnlyRestored(ops: seq<Op>, stored: RRset) {
    && Deletes(ops) != [] && Replaces(ops) != []
    && forall op :: op in ops && op.Replace? ==> op.rrset == stored
  }

  /** Every order of the changeset that leads to the same payload has the effect of this one. */
  ghost predicate OrderIsFree(a: seq<Op>, w: Working) {
    forall b {:trigger SameSorted(a, b)} :: SameSorted(a, b) ==> ApplyAll(b, w) == ApplyAll(a, w)
  }

  /** The order matters to no one exactly if no stored key is deleted and otherwise only restored. */
  lemma {:induction false} OrderIsFreeIff(a: seq<Op>, loaded: RRsets)
    requires RRsetsOk(loaded)
    ensures OrderIsFree(a, Working(loaded, {})) <==> forall k :: k in loaded ==> !OnlyRestored(OpsFor(a, k), loaded[k])
  {
    var w := Working(loaded, {});
    if k :| k in loaded && OnlyRestored(OpsFor(a, k), loaded[k]) {
      var late, early := Replaces(a) + Deletes(a), Deletes(a) + Replaces(a);
      BothOrders(a);
      BothOrdersAt(a, k, loaded[k]);
      SameSortedAgreeIff(early, late, loaded);
      assert ApplyAll(early, w) != ApplyAll(late, w);
      assert SameSorted(a, early) && SameSorted(a, late);
    } else {
      forall b | SameSorted(a, b) ensures ApplyAll(b, w) == ApplyAll(a, w) {
        forall k | k in loaded
          ensures !RestoresThenDeletes(OpsFor(a, k), loaded[k]) && !RestoresThenDeletes(OpsFor(b, k), loaded[k])
        {
          NeverMisled(a, b, k, loaded[k]);
        }
        SameSortedAgreeIff(a, b, loaded);
      }
    }
  }

  lemma {:induction false} NeverMisled(a: seq<Op>, b: seq<Op>, k: Key, stored: RRset)
    requires SameSorted(a, b) && !OnlyRestored(OpsFor(a, k), stored)
    ensures !RestoresThenDeletes(OpsFor(a, k), stored) && !RestoresThenDeletes(OpsFor(b, k), stored)
  {
    SameSortedAt(a, b, k);
    RestoringIsOnlyRestored(OpsFor(a, k), OpsFor(a, k), stored);
    RestoringIsOnlyRestored(OpsFor(b, k), OpsFor(a, k), stored);
  }

  lemma {:induction false} RestoringIsOnlyRestored(ops: seq<Op>, other: seq<Op>, stored: RRset)
    requires Deletes(ops) == Deletes(other) && Replaces(ops) == Replaces(other)
    ensures RestoresThenDeletes(ops, stored) ==> OnlyRestored(other, stored)
  {
    SplitMembers(ops);
    SplitMembers(other);
    if RestoresThenDeletes(ops, stored) {
      LastIsDelete(ops);
      assert ops[0] in ops && ops[0] in Replaces(ops);
      forall op | op in other && op.Replace? ensures op.rrset == stored {
        assert op in Replaces(ops);
      }
    }
  }

  lemma {:induction false} OpsForConcat(a: seq<Op>, b: seq<Op>, k: Key)
    ensures OpsFor(a + b, k) == OpsFor(a, k) + OpsFor(b, k)
    decreases |a|
  {
    if a == [] {
      assert a + b == b;
    } else {
      assert (a + b)[1..] == a[1..] + b;
      OpsForConcat(a[1..], b, k);
    }
  }

  lemma {:induction false} SplitOpsFor(ops: seq<Op>, k: Key)
    ensures OpsFor(Deletes(ops), k) == Deletes(OpsFor(ops, k)) && OpsFor(Replaces(ops), k) == Replaces(OpsFor(ops, k))
    decreases |ops|
  {
    if ops != [] {
      SplitOpsFor(ops[1..], k);
      assert Deletes(ops) != [] && ops[0].Delete? ==> Deletes(ops)[1..] == Deletes(ops[1..]);
      assert Replaces(ops) != [] && ops[0].Replace? ==> Replaces(ops)[1..] == Replaces(ops[1..]);
      assert ops[0].key == k ==> OpsFor(ops, k)[1..] == OpsFor(ops[1..], k);
    }
  }

  lemma {:induction false} SplitSorted(ops: seq<Op>, d: seq<Op>, r: seq<Op>, k: Key)
    requires d == Deletes(ops) && r == Replaces(ops)
    ensures OpsFor(StableSort(d + r, OpOrder), k) == OpsFor(StableSort(r + d, OpOrder), k) == OpsFor(StableSort(ops, OpOrder), k)
  {
    SortedOpsFor(ops, k);
    SortedOpsFor(d + r, k);
    SortedOpsFor(r + d, k);
    OpsForConcat(d, r, k);
    OpsForConcat(r, d, k);
    SplitOpsFor(ops, k);
    SplitOfSplit(OpsFor(ops, k));
  }

  /** Deletions first or replacements first, the payload is the same. */
  lemma {:induction false} BothOrders(a: seq<Op>)
    ensures SameSorted(a, Deletes(a) + Replaces(a)) && SameSorted(a, Replaces(a) + Deletes(a))
  {
    var d, r := Deletes(a), Replaces(a);
    var x, y, z := StableSort(a, OpOrder), StableSort(d + r, OpOrder), StableSort(r + d, OpOrder);
    forall k ensures OpsFor(x, k) == OpsFor(y, k) && OpsFor(x, k) == OpsFor(z, k) {
      SplitSorted(a, d, r, k);
    }
    StableSortSorts(a, OpOrder);
    StableSortSorts(d + r, OpOrder);
    StableSortSorts(r + d, OpOrder);
    SortedByParts(x, y);
    SortedByParts(x, z);
  }

  lemma {:induction false} BothOrdersAt(a: seq<Op>, k: Key, stored: RRset)
    requires OnlyRestored(OpsFor(a, k), stored)
    ensures !RestoresThenDeletes(OpsFor(Deletes(a) + Replaces(a), k), stored)
    ensures RestoresThenDeletes(OpsFor(Replaces(a) + Deletes(a), k), stored)
  {
    var mine := OpsFor(a, k);
    OpsForConcat(Deletes(a), Replaces(a), k);
    OpsForConcat(Replaces(a), Deletes(a), k);
    SplitOpsFor(a, k);
    SplitMembers(mine);
    var d, r := Deletes(mine), Replaces(mine);
    assert d[0] in d && r[0] in r && d[|d| - 1] in d;
    var late := r + d;
    forall i | 0 <= i < |r| ensures late[i].Replace? {
      assert late[i] in r;
    }
    forall i, j | 0 <= i < j < |late| && late[i].Delete? ensures late[j].Delete? {
      assert late[j] in d;
    }
    forall op | op in late && op.Replace? ensures op.rrset == stored {
      assert op in r || op in d;
    }
  }

  lemma {:induction false} SameOrderSameKey(p: Op, q: Op)
    requires OpOrder(p) == OpOrder(q)
    ensures p.key == q.key
  {
    TypeOfText(p.key.rtype);
    TypeOfText(q.key.rtype);
  }

  lemma {:induction false} HeadIsIn(x: seq<Op>, y: seq<Op>)
    requires x != [] && Sorted(y, OpOrder) && OpsFor(x, x[0].key) == OpsFor(y, x[0].key)
    ensures y != [] && Leq(OpOrder(y[0]), OpOrder(x[0]))
  {
    OpsForMembers(y, x[0].key);
    assert OpsFor(x, x[0].key)[0] == x[0];
    assert x[0] in OpsFor(y, x[0].key);
    var j :| 0 <= j < |y| && y[j] == x[0];
    Trichotomy(OpOrder(x[0]), OpOrder(x[0]));
  }

  lemma {:induction false} SameHeads(x: seq<Op>, y: seq<Op>)
    requires x != [] && y != [] && Sorted(x, OpOrder) && Sorted(y, OpOrder)
    requires OpsFor(x, x[0].key) == OpsFor(y, x[0].key) && OpsFor(x, y[0].key) == OpsFor(y, y[0].key)
    ensures x[0] == y[0]
  {
    HeadIsIn(x, y);
    HeadIsIn(y, x);
    Trichotomy(OpOrder(x[0]), OpOrder(y[0]));
    SameOrderSameKey(x[0], y[0]);
    assert OpsFor(x, x[0].key)[0] == x[0] && OpsFor(y, x[0].key)[0] == y[0];
  }

  lemma {:induction false} SameTails(x: seq<Op>, y: seq<Op>, k: Key)
    requires x != [] && y != [] && x[0] == y[0] && OpsFor(x, k) == OpsFor(y, k)
    ensures OpsFor(x[1..], k) == OpsFor(y[1..], k)
  {
    assert k == x[0].key ==> OpsFor(x, k)[1..] == OpsFor(x[1..], k) && OpsFor(y, k)[1..] == OpsFor(y[1..], k);
  }

  /** A sorted changeset is determined by what it does to each key. */
  lemma {:induction false} SortedByParts(x: seq<Op>, y: seq<Op>)
    requires Sorted(x, OpOrder) && Sorted(y, OpOrder)
    requires forall k :: OpsFor(x, k) == OpsFor(y, k)
    ensures x == y
    decreases |x|
  {
    if x != [] {
      HeadIsIn(x, y);
      SameHeads(x, y);
      forall k ensures OpsFor(x[1..], k) == OpsFor(y[1..], k) {
        SameTails(x, y, k);
      }
      SortedByParts(x[1..], y[1..]);
      assert x == [x[0]] + x[1..] && y == [y[0]] + y[1..];
    } else {
      assert y != [] ==> OpsFor(y, y[0].key) != [];
    }
  }

  // ---------------------------------------------------------------------------
  // From requests to checked operations
  // ---------------------------------------------------------------------------

  function Texts(entries: seq<Rdata>): seq<string> {
    seq(|entries|, i requires 0 <= i < |entries| => entries[i].text)
  }

  function Normal(op: Op): NormOp {
    match op
    case Delete(k) => NormOp("delete", k.name, k.rtype.Text(), None)
    case Replace(k, rrset) => NormOp("replace", k.name, k.rtype.Text(), Some(NormValue(rrset.ttl, Texts(rrset.entries))))
  }

  function Normals(ops: seq<Op>): seq<NormOp> {
    seq(|ops|, i requires 0 <= i < |ops| => Normal(ops[i]))
  }

  lemma {:induction false} CheckedTexts(name: string, typeName: string, records: seq<Result<Rdata, ErrorCode>>, seen: set<string>)
    requires TypeNamed(typeName).Some? && CheckRecords(name, records, seen).Ok?
    ensures NormRecords(typeName, records) == Ok(Texts(CheckRecords(name, records, seen).value))
  {
    if records != [] {
      var rdata := CheckRecord(name, records[0], seen).value;
      CheckedTexts(name, typeName, records[1..], seen + {rdata.text});
      var rest := CheckRecords(name, records[1..], seen + {rdata.text}).value;
      assert Texts([rdata] + rest) == [rdata.text] + Texts(rest);
    } else {
      assert Texts([]) == [];
    }
  }

  /** An operation that a publish accepts is hashed as what it does. */
  lemma {:induction false} CheckedIsNormal(zone: string, raw: RawOp)
    requires CheckOp(zone, raw).Ok?
    ensures NormalizeRaw(zone, raw) == Ok(Normal(CheckOp(zone, raw).value))
  {
    if raw.action == "replace" {
      CheckedTexts(CanonicalName(raw.name, zone).value, raw.typeName, raw.records.value, {});
    }
  }

  lemma {:induction false} CheckedAreNormal(zone: string, raws: seq<RawOp>)
    requires AllChecked(zone, raws)
    ensures NormalizeAll(zone, raws) == Ok(Normals(Checked(zone, raws)))
  {
    if raws != [] {
      CheckedIsNormal(zone, raws[0]);
      CheckedAreNormal(zone, raws[1..]);
      assert Normals(Checked(zone, raws)) == [Normal(CheckOp(zone, raws[0]).value)] + Normals(Checked(zone, raws[1..]));
    } else {
      assert Normals(Checked(zone, raws)) == [];
    }
  }

  lemma {:induction false} SortCommutes(ops: seq<Op>)
    ensures StableSort(Normals(ops), NormOrder) == Normals(StableSort(ops, OpOrder))
    decreases |ops|
  {
    if ops != [] {
      SortCommutes(ops[1..]);
      assert Normals(ops)[1..] == Normals(ops[1..]);
      InsertCommutes(ops[0], StableSort(ops[1..], OpOrder));
    } else {
      assert Normals(ops) == [];
    }
  }

  lemma {:induction false} NormalsCons(op: Op, ops: seq<Op>)
    ensures Normals([op] + ops) == [Normal(op)] + Normals(ops)
    ensures ops != [] ==> Normals(ops) != [] && Normals(ops)[0] == Normal(ops[0]) && Normals(ops)[1..] == Normals(ops[1..])
  {
  }

  lemma {:induction false} InsertCommutes(op: Op, ops: seq<Op>)
    ensures Insert(Normal(op), Normals(ops), NormOrder) == Normals(Insert(op, ops, OpOrder))
    decreases |ops|
  {
    NormalsCons(op, ops);
    assert NormOrder(Normal(op)) == OpOrder(op);
    if ops != [] && !Leq(OpOrder(op), OpOrder(ops[0])) {
      assert NormOrder(Normal(ops[0])) == OpOrder(ops[0]);
      InsertCommutes(op, ops[1..]);
      NormalsCons(ops[0], Insert(op, ops[1..], OpOrder));
    }
  }

  lemma {:induction false} PayloadOfChecked(zone: string, baseSerial: int, nextSerial: int, raws: seq<RawOp>)
    requires AllChecked(zone, raws)
    ensures PayloadOf(zone, baseSerial, nextSerial, raws)
         == Ok(Payload(baseSerial, nextSerial, Normals(StableSort(Checked(zone, raws), OpOrder))))
  {
    CheckedAreNormal(zone, raws);
    SortCommutes(Checked(zone, raws));
  }

  /** Reads RDATA back from its type and canonical text, as canonicalization is deterministic. */
  type Reader = (string, string) -> Rdata

  predicate RecordRead(read: Reader, typeName: string, record: Result<Rdata, ErrorCode>) {
    record.Ok? ==> record.value == read(typeName, record.value.text)
  }

  predicate OpRead(read: Reader, raw: RawOp) {
    raw.RawOp? && raw.records.Some? ==>
      forall j :: 0 <= j < |raw.records.value| ==> RecordRead(read, raw.typeName, raw.records.value[j])
  }

  predicate AllRead(read: Reader, raws: seq<RawOp>) {
    forall i :: 0 <= i < |raws| ==> OpRead(read, raws[i])
  }

  lemma {:induction false} TextsAt(typeName: string, records: seq<Result<Rdata, ErrorCode>>, j: nat)
    requires NormRecords(typeName, records).Ok? && j < |records|
    ensures |NormRecords(typeName, records).value| == |records|
    ensures records[j].Ok? && records[j].value.text == NormRecords(typeName, records).value[j]
    decreases |records|
  {
    if |records| > 1 {
      TextsAt(typeName, records[1..], if j > 0 then j - 1 else 0);
    }
  }

  lemma {:induction false} SameTexts(read: Reader, typeName: string, a: seq<Result<Rdata, ErrorCode>>, b: seq<Result<Rdata, ErrorCode>>)
    requires NormRecords(typeName, a).Ok? && NormRecords(typeName, a) == NormRecords(typeName, b)
    requires forall j :: 0 <= j < |a| ==> RecordRead(read, typeName, a[j])
    requires forall j :: 0 <= j < |b| ==> RecordRead(read, typeName, b[j])
    ensures a == b
  {
    if a != [] {
      TextsAt(typeName, a, 0);
    }
    if b != [] {
      TextsAt(typeName, b, 0);
    }
    forall j | 0 <= j < |a| ensures a[j] == b[j] {
      TextsAt(typeName, a, j);
      TextsAt(typeName, b, j);
      assert RecordRead(read, typeName, a[j]) && RecordRead(read, typeName, b[j]);
    }
  }

  /** What is hashed of an operation determines how a publish reads it. */
  lemma {:induction false} SameNormalSameCheck(zone: string, read: Reader, p: RawOp, q: RawOp)
    requires NormalizeRaw(zone, p).Ok? && NormalizeRaw(zone, p) == NormalizeRaw(zone, q)
    requires OpRead(read, p) && OpRead(read, q)
    ensures CheckOp(zone, p) == CheckOp(zone, q)
  {
    if p.action == "replace" {
      SameTexts(read, p.typeName, p.records.value, q.records.value);
    }
  }

  lemma {:induction false} NormalAt(zone: string, raws: seq<RawOp>, i: nat)
    requires NormalizeAll(zone, raws).Ok? && i < |raws|
    ensures |NormalizeAll(zone, raws).value| == |raws|
    ensures NormalizeRaw(zone, raws[i]) == Ok(NormalizeAll(zone, raws).value[i])
    decreases |raws|
  {
    if |raws| > 1 {
      NormalAt(zone, raws[1..], if i > 0 then i - 1 else 0);
    }
  }

  /** Each operation of a request is hashed, in some place, by any other with the same payload. */
  lemma {:induction false} SamePayloadMember(zone: string, base: int, next: int, a: seq<RawOp>, base': int, next': int, b: seq<RawOp>, i: nat)
    returns (j: nat)
    requires PayloadOf(zone, base, next, a).Ok? && PayloadOf(zone, base, next, a) == PayloadOf(zone, base', next', b)
    requires i < |b|
    ensures j < |a| && NormalizeRaw(zone, a[j]) == NormalizeRaw(zone, b[i]) && NormalizeRaw(zone, b[i]).Ok?
  {
    var na, nb := NormalizeAll(zone, a).value, NormalizeAll(zone, b).value;
    NormalAt(zone, b, i);
    StableSortSorts(na, NormOrder);
    StableSortSorts(nb, NormOrder);
    assert nb[i] in multiset(nb);
    assert nb[i] in na;
    j :| 0 <= j < |na| && na[j] == nb[i];
    if a != [] {
      NormalAt(zone, a, 0);
      NormalAt(zone, a, j);
    }
  }

  /** With one request also every other of the same payload passes the checks of its operations. */
  lemma {:induction false} SamePayloadChecked(zone: string, read: Reader, base: int, next: int, a: seq<RawOp>, base': int, next': int, b: seq<RawOp>)
    requires AllRead(read, a) && AllRead(read, b) && AllChecked(zone, a)
    requires PayloadOf(zone, base, next, a) == PayloadOf(zone, base', next', b)
    ensures AllChecked(zone, b)
  {
    CheckedAreNormal(zone, a);
    forall i | 0 <= i < |b| ensures CheckOp(zone, b[i]).Ok? {
      var j := SamePayloadMember(zone, base, next, a, base', next', b, i);
      SameNormalSameCheck(zone, read, a[j], b[i]);
    }
  }

  /** The checked operation stands somewhere in the request. */
  predicate Stands(zone: string, read: Reader, op: Op, raws: seq<RawOp>) {
    exists i :: 0 <= i < |raws| && OpRead(read, raws[i]) && CheckOp(zone, raws[i]) == Ok(op)
  }

  lemma {:induction false} SortedStands(zone: string, read: Reader, raws: seq<RawOp>, op: Op)
    requires AllChecked(zone, raws) && AllRead(read, raws)
    requires op in StableSort(Checked(zone, raws), OpOrder)
    ensures Stands(zone, read, op, raws)
  {
    var ops := Checked(zone, raws);
    StableSortSorts(ops, OpOrder);
    assert op in multiset(StableSort(ops, OpOrder));
    assert op in ops;
    var i :| 0 <= i < |ops| && ops[i] == op;
    assert OpRead(read, raws[i]);
  }

  lemma {:induction false} SameNormalSameOp(zone: string, read: Reader, a: seq<RawOp>, p: Op, b: seq<RawOp>, q: Op)
    requires Stands(zone, read, p, a) && Stands(zone, read, q, b) && Normal(p) == Normal(q)
    ensures p == q
  {
    var i :| 0 <= i < |a| && OpRead(read, a[i]) && CheckOp(zone, a[i]) == Ok(p);
    var j :| 0 <= j < |b| && OpRead(read, b[j]) && CheckOp(zone, b[j]) == Ok(q);
    CheckedIsNormal(zone, a[i]);
    CheckedIsNormal(zone, b[j]);
    SameNormalSameCheck(zone, read, a[i], b[j]);
  }

  /** Of two requests that pass the checks, equal payloads mean the same serials and sorted form. */
  lemma {:induction false} SamePayloadSameSorted(zone: string, read: Reader, base: int, next: int, a: seq<RawOp>, base': int, next': int, b: seq<RawOp>)
    requires AllRead(read, a) && AllRead(read, b) && AllChecked(zone, a) && AllChecked(zone, b)
    ensures PayloadOf(zone, base, next, a) == PayloadOf(zone, base', next', b)
       <==> base == base' && next == next' && SameSorted(Checked(zone, a), Checked(zone, b))
  {
    PayloadOfChecked(zone, base, next, a);
    PayloadOfChecked(zone, base', next', b);
    var sa, sb := StableSort(Checked(zone, a), OpOrder), StableSort(Checked(zone, b), OpOrder);
    if Normals(sa) == Normals(sb) {
      assert |sa| == |Normals(sa)| == |Normals(sb)| == |sb|;
      forall i | 0 <= i < |sa| ensures sa[i] == sb[i] {
        assert Normals(sa)[i] == Normals(sb)[i];
        SortedStands(zone, read, a, sa[i]);
        SortedStands(zone, read, b, sb[i]);
        SameNormalSameOp(zone, read, a, sa[i], b, sb[i]);
      }
    }
  }
}
