/**
 A publish request's operations and their effect on the in-memory RRset map
 (app/storage.py, `_apply_ops` and `_validate_zone_invariants`).
 */
module Changeset {
  import opened Basics
  import opened Errors
  import opened Names
  import opened NameCodec
  import opened Records
  import opened Serial

  const MAX_TCP_MESSAGE := 65535
  /** Longest resource record accepted for storage. */
  const RR_LIMIT := MAX_TCP_MESSAGE - 700

  /**
   One element of the request's list of changes. `action` is lower-cased, `name` lower-cased and
   stripped, `typeName` upper-cased; `ttl` is the TTL as an integer, if it is one, and `records`
   the outcome of canonicalizing each RDATA value, if they are a list.
   */
  datatype RawOp =
    | NotAnObject
    | RawOp(action: string, name: string, typeName: string, ttl: Option<int>,
            records: Option<seq<Result<Rdata, ErrorCode>>>)

  /** A change that passed every check. */
  datatype Op = Delete(key: Key) | Replace(key: Key, rrset: RRset)

  /** The state a publish edits: the RRset map and the keys it counts as changed. */
  datatype Working = Working(rrsets: RRsets, changed: set<Key>)

  // ---------------------------------------------------------------------------
  // Checking one operation
  // ---------------------------------------------------------------------------

  /** Encoded owner name, the ten fixed octets, and the RDATA. */
  function RrLength(name: string, rdata: Rdata): Option<nat> {
    match EncodeName(name)
    case Ok(wire) => Some(|wire| + 10 + |rdata.wire|)
    case Err(_) => None
  }

  function CheckRecord(name: string, record: Result<Rdata, ErrorCode>, seen: set<string>): Result<Rdata, ErrorCode> {
    match record
    case Err(code) => Err(code)
    case Ok(rdata) =>
      match RrLength(name, rdata)
      case None => Err(Internal)
      case Some(length) =>
        if length > RR_LIMIT then Err(LimitExceeded)
        else if rdata.text in seen then Err(ChangesetInvalid)
        else Ok(rdata)
  }

  function CheckRecords(name: string, records: seq<Result<Rdata, ErrorCode>>, seen: set<string>)
    : Result<seq<Rdata>, ErrorCode>
  {
    if records == [] then Ok([])
    else
      match CheckRecord(name, records[0], seen)
      case Err(code) => Err(code)
      case Ok(rdata) =>
        match CheckRecords(name, records[1..], seen + {rdata.text})
        case Err(code) => Err(code)
        case Ok(rest) => Ok([rdata] + rest)
  }

  function CheckOp(zone: string, raw: RawOp): Result<Op, ErrorCode> {
    if raw.NotAnObject? then Err(ValidationError)
    else
      match CanonicalName(raw.name, zone)
      case Err(code) => Err(code)
      case Ok(name) =>
        var rtype := TypeNamed(raw.typeName);
        if rtype.None? then Err(ValidationError)
        else
          var key := Key(name, rtype.value);
          if raw.action == "delete" then Ok(Delete(key))
          else if raw.action == "replace" then
            if raw.ttl.None? || !IsU32(raw.ttl.value) then Err(ValidationError)
            else if raw.records.None? then Err(ValidationError)
            else
              match CheckRecords(name, raw.records.value, {})
              case Err(code) => Err(code)
              case Ok(entries) => Ok(Replace(key, RRset(raw.ttl.value, entries)))
          else Err(ValidationError)
  }

  ghost predicate OpOk(zone: string, op: Op) {
    && IsCanonical(op.key.name) && IsSubname(op.key.name, zone)
    && (op.Replace? ==> IsU32(op.rrset.ttl) && DistinctTexts(op.rrset.entries))
    && (op.Replace? ==> forall e :: e in op.rrset.entries ==> |op.key.name| + 11 + |e.wire| <= RR_LIMIT)
  }

  lemma {:induction false} CheckRecordsSound(name: string, records: seq<Result<Rdata, ErrorCode>>, seen: set<string>)
    requires IsCanonical(name)
    ensures var r := CheckRecords(name, records, seen);
            r.Ok? ==>
              && DistinctTexts(r.value)
              && (forall e :: e in r.value ==> e.text !in seen && |name| + 11 + |e.wire| <= RR_LIMIT)
  {
    if records != [] && CheckRecords(name, records, seen).Ok? {
      var rdata := CheckRecord(name, records[0], seen).value;
      CanonicalEncodes(name);
      CheckRecordsSound(name, records[1..], seen + {rdata.text});
      var rest := CheckRecords(name, records[1..], seen + {rdata.text}).value;
      forall i, j | 0 <= i < j < |rest| + 1 ensures ([rdata] + rest)[i].text != ([rdata] + rest)[j].text {
        assert ([rdata] + rest)[j] == rest[j - 1] && rest[j - 1] in rest;
      }
    }
  }

  /** Every accepted operation names a canonical owner in the zone and fits a signed message. */
  lemma {:induction false} CheckOpSound(zone: string, raw: RawOp)
    requires IsCanonical(zone) && CheckOp(zone, raw).Ok?
    ensures OpOk(zone, CheckOp(zone, raw).value)
  {
    var name := CanonicalName(raw.name, zone).value;
    assert IsCanonical(name) && IsSubname(name, zone) by {
      CanonicalNameInZone(raw.name, zone);
    }
    var op := CheckOp(zone, raw).value;
    assert op.key.name == name;
    if op.Replace? {
      CheckRecordsSound(name, raw.records.value, {});
      assert CheckRecords(name, raw.records.value, {}) == Ok(op.rrset.entries);
    }
  }

  // ---------------------------------------------------------------------------
  // Applying operations
  // ---------------------------------------------------------------------------

  function ApplyOp(op: Op, w: Working): Working {
    match op
    case Delete(k) =>
      if k in w.rrsets && k !in w.changed then Working(w.rrsets - {k}, w.changed + {k}) else w
    case Replace(k, rrset) =>
      Working(if rrset.entries != [] then w.rrsets[k := rrset] else w.rrsets - {k},
              if k !in w.rrsets || w.rrsets[k] != rrset then w.changed + {k} else w.changed)
  }

  function ApplyAll(ops: seq<Op>, w: Working): Working {
    if ops == [] then w else ApplyAll(ops[1..], ApplyOp(ops[0], w))
  }

  /** Check and apply in one pass; the first failing operation decides the error. */
  function ApplyRaw(zone: string, raws: seq<RawOp>, w: Working): Result<Working, ErrorCode> {
    if raws == [] then Ok(w)
    else
      match CheckOp(zone, raws[0])
      case Err(code) => Err(code)
      case Ok(op) => ApplyRaw(zone, raws[1..], ApplyOp(op, w))
  }

  function ApplyChanges(zone: string, changes: Option<seq<RawOp>>, w: Working): Result<Working, ErrorCode> {
    if changes.None? || changes.value == [] then Err(ChangesetInvalid)
    else ApplyRaw(zone, changes.value, w)
  }

  predicate AllChecked(zone: string, raws: seq<RawOp>) {
    forall i :: 0 <= i < |raws| ==> CheckOp(zone, raws[i]).Ok?
  }

  function Checked(zone: string, raws: seq<RawOp>): seq<Op>
    requires AllChecked(zone, raws)
  {
    seq(|raws|, i requires 0 <= i < |raws| => CheckOp(zone, raws[i]).value)
  }

  lemma {:induction false} ApplyRawIsApplyAll(zone: string, raws: seq<RawOp>, w: Working)
    ensures ApplyRaw(zone, raws, w).Ok? <==> AllChecked(zone, raws)
    ensures ApplyRaw(zone, raws, w).Ok? ==> ApplyRaw(zone, raws, w).value == ApplyAll(Checked(zone, raws), w)
  {
    if raws != [] && CheckOp(zone, raws[0]).Ok? {
      var w' := ApplyOp(CheckOp(zone, raws[0]).value, w);
      ApplyRawIsApplyAll(zone, raws[1..], w');
      if ApplyRaw(zone, raws[1..], w').Ok? {
        forall i | 0 <= i < |raws| ensures CheckOp(zone, raws[i]).Ok? {
          if i > 0 { assert raws[i] == raws[1..][i - 1]; }
        }
        assert Checked(zone, raws)[1..] == Checked(zone, raws[1..]);
      } else {
        var i :| 0 <= i < |raws[1..]| && !CheckOp(zone, raws[1..][i]).Ok?;
        assert raws[i + 1] == raws[1..][i];
      }
    }
  }

  /**
   Every key that is not counted as changed still has the RRset that was loaded, for every
   list of operations, repeated keys and no-op replacements included.
   */
  lemma {:induction false} UnchangedKeysAreAsLoaded(ops: seq<Op>, w: Working)
    requires RRsetsOk(w.rrsets)
    requires forall op :: op in ops && op.Replace? ==> DistinctTexts(op.rrset.entries)
    ensures var r := ApplyAll(ops, w);
            && RRsetsOk(r.rrsets) && w.changed <= r.changed
            && (forall k :: k !in r.changed ==> (k in r.rrsets <==> k in w.rrsets))
            && (forall k :: k !in r.changed && k in w.rrsets ==> r.rrsets[k] == w.rrsets[k])
  {
    if ops != [] {
      assert ops[0] in ops;
      var w1 := ApplyOp(ops[0], w);
      assert RRsetsOk(w1.rrsets);
      UnchangedKeysAreAsLoaded(ops[1..], w1);
    }
  }

  /** Only keys that some operation names are ever counted as changed. */
  lemma {:induction false} ChangedKeysAreNamed(ops: seq<Op>, w: Working)
    ensures forall k :: k in ApplyAll(ops, w).changed ==> k in w.changed || exists op :: op in ops && op.key == k
    ensures forall k :: k in ApplyAll(ops, w).rrsets ==> k in w.rrsets || exists op :: op in ops && op.key == k
  {
    if ops != [] {
      var w1 := ApplyOp(ops[0], w);
      assert ops[0] in ops;
      ChangedKeysAreNamed(ops[1..], w1);
      forall k | k in ApplyAll(ops, w).changed && k !in w.changed ensures exists op :: op in ops && op.key == k {
        if k != ops[0].key {
          var op :| op in ops[1..] && op.key == k;
        }
      }
      forall k | k in ApplyAll(ops, w).rrsets && k !in w.rrsets ensures exists op :: op in ops && op.key == k {
        if k != ops[0].key {
          var op :| op in ops[1..] && op.key == k;
        }
      }
    }
  }

  /** The loop of the source: dictionary and set are edited in place, operation by operation. */
  method ApplyOps(zone: string, changes: Option<seq<RawOp>>, loaded: RRsets)
    returns (r: Result<Working, ErrorCode>)
    ensures r == ApplyChanges(zone, changes, Working(loaded, {}))
  {
    if changes.None? || changes.value == [] {
      return Err(ChangesetInvalid);
    }
    var ops := changes.value;
    var rrsets, changed := loaded, {};
    var i := 0;
    assert ops[0..] == ops;
    while i < |ops|
      invariant 0 <= i <= |ops|
      invariant ApplyRaw(zone, ops, Working(loaded, {})) == ApplyRaw(zone, ops[i..], Working(rrsets, changed))
    {
      assert ops[i..][1..] == ops[i + 1..];
      var raw := ops[i];
      if raw.NotAnObject? {
        return Err(ValidationError);
      }
      var named := CanonicalName(raw.name, zone);
      if named.Err? {
        return Err(named.error);
      }
      var rtype := TypeNamed(raw.typeName);
      if rtype.None? {
        return Err(ValidationError);
      }
      var key := Key(named.value, rtype.value);
      if raw.action == "delete" {
        if key in rrsets && key !in changed {
          changed := changed + {key};
          rrsets := rrsets - {key};
        }
      } else if raw.action == "replace" {
        if raw.ttl.None? || !IsU32(raw.ttl.value) {
          return Err(ValidationError);
        }
        if raw.records.None? {
          return Err(ValidationError);
        }
        var checked := ReadRecords(named.value, raw.records.value);
        if checked.Err? {
          return Err(checked.error);
        }
        var replacement := RRset(raw.ttl.value, checked.value);
        if key !in rrsets || rrsets[key] != replacement {
          changed := changed + {key};
        }
        if checked.value != [] {
          rrsets := rrsets[key := replacement];
        } else {
          rrsets := rrsets - {key};
        }
      } else {
        return Err(ValidationError);
      }
      i := i + 1;
    }
    r := Ok(Working(rrsets, changed));
  }

  method ReadRecords(name: string, records: seq<Result<Rdata, ErrorCode>>)
    returns (r: Result<seq<Rdata>, ErrorCode>)
    ensures r == CheckRecords(name, records, {})
  {
    var entries: seq<Rdata> := [];
    var seen: set<string> := {};
    var i := 0;
    assert records[0..] == records;
    assert forall rest: seq<Rdata> :: entries + rest == rest;
    while i < |records|
      invariant 0 <= i <= |records|
      invariant match CheckRecords(name, records[i..], seen)
                case Ok(rest) => CheckRecords(name, records, {}) == Ok(entries + rest)
                case Err(code) => CheckRecords(name, records, {}) == Err(code)
    {
      assert records[i..][1..] == records[i + 1..];
      var checked := CheckRecord(name, records[i], seen);
      if checked.Err? {
        return Err(checked.error);
      }
      assert forall rest: seq<Rdata> :: entries + ([checked.value] + rest) == (entries + [checked.value]) + rest;
      seen := seen + {checked.value.text};
      entries := entries + [checked.value];
      i := i + 1;
    }
    assert entries + [] == entries;
    r := Ok(entries);
  }

  // ---------------------------------------------------------------------------
  // Zone invariants
  // ---------------------------------------------------------------------------

  predicate CnameConflict(m: RRsets) {
    exists k, k' :: k in m && k' in m && k.rtype == CNAME && k'.name == k.name && k' != k
  }

  predicate CnameMultiple(m: RRsets) {
    exists k :: k in m && k.rtype == CNAME && |m[k].entries| > 1
  }

  /** None when the zone may be published under `serial`, else the failure the code raises. */
  function Validate(zone: string, m: RRsets, serial: int): Option<ErrorCode> {
    var soa, ns := Key(zone, SOA), Key(zone, NS);
    if soa !in m || |m[soa].entries| != 1 then Some(ZoneInvalid)
    else if m[soa].entries[0].serial != serial then Some(SerialInvalid)
    else if ns !in m || m[ns].entries == [] then Some(ZoneInvalid)
    else if CnameConflict(m) || CnameMultiple(m) then Some(ZoneInvalid)
    else None
  }

  /**
   A servable snapshot: one SOA at the apex, carrying the version's serial; an apex NS; an
   owner with a CNAME holds that single record and nothing else; no duplicate RDATA and one
   TTL in each RRset.
   */
  ghost predicate ZoneSnapshot(zone: string, rows: Snapshot, serial: int) {
    && SnapshotOk(rows)
    && (exists soa :: IsApexSoa(zone, rows, soa) && soa.rdata.serial == serial)
    && (exists r :: r in rows && r.key == Key(zone, NS))
    && (forall c, r :: c in rows && r in rows && c.key.rtype == CNAME && r.key.name == c.key.name ==> r == c)
  }

  /** `soa` is the only SOA row at the apex. */
  ghost predicate IsApexSoa(zone: string, rows: Snapshot, soa: Row) {
    RowsAt(rows, Key(zone, SOA)) == {soa}
  }

  lemma {:induction false} FlattenIsZoneSnapshot(zone: string, m: RRsets, serial: int)
    requires RRsetsOk(m)
    ensures Validate(zone, m, serial).None? <==> ZoneSnapshot(zone, Flatten(m), serial)
  {
    var rows := Flatten(m);
    FlattenOk(m);
    var soa, ns := Key(zone, SOA), Key(zone, NS);
    if soa in m {
      SingleEntry(soa, m[soa]);
    }
    if ns in m {
      assert Row(ns, m[ns].ttl, m[ns].entries[0]) in rows;
    }
    CnameRows(m);
    if exists s :: IsApexSoa(zone, rows, s) {
      var s :| IsApexSoa(zone, rows, s);
      assert s in RowsAt(rows, soa);
    }
  }

  lemma {:induction false} SingleEntry(k: Key, rrset: RRset)
    requires DistinctTexts(rrset.entries)
    ensures forall r :: RRsetRows(k, rrset) == {r} ==> |rrset.entries| == 1
    ensures |rrset.entries| == 1 ==> RRsetRows(k, rrset) == {Row(k, rrset.ttl, rrset.entries[0])}
  {
    EntryCount(k, rrset);
    if |rrset.entries| == 1 {
      assert rrset.entries == [rrset.entries[0]];
    }
    forall r | RRsetRows(k, rrset) == {r} ensures |rrset.entries| == 1 {
      assert |{r}| == 1;
    }
  }

  lemma {:induction false} CnameRows(m: RRsets)
    requires RRsetsOk(m)
    ensures !CnameConflict(m) && !CnameMultiple(m) <==>
            forall c, r :: c in Flatten(m) && r in Flatten(m) && c.key.rtype == CNAME && r.key.name == c.key.name ==> r == c
  {
    var rows := Flatten(m);
    if CnameConflict(m) {
      var k, k' :| k in m && k' in m && k.rtype == CNAME && k'.name == k.name && k' != k;
      assert Row(k, m[k].ttl, m[k].entries[0]) in rows && Row(k', m[k'].ttl, m[k'].entries[0]) in rows;
    }
    if CnameMultiple(m) {
      var k :| k in m && k.rtype == CNAME && |m[k].entries| > 1;
      assert Row(k, m[k].ttl, m[k].entries[0]) in rows && Row(k, m[k].ttl, m[k].entries[1]) in rows;
    }
    if !CnameConflict(m) && !CnameMultiple(m) {
      forall c, r | c in rows && r in rows && c.key.rtype == CNAME && r.key.name == c.key.name ensures r == c {
        assert r.key == c.key;
        assert |m[c.key].entries| == 1;
      }
    }
  }
}
