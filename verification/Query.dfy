/** The query parser of the name server (app/dnswire.py, `parse_query`). */
module QueryParser {
  import opened Basics
  import opened Names
  import opened NameCodec
  import opened Serial
  import opened Wire

  /** A TSIG record as found in a message; `offset` is where it starts. */
  datatype Tsig = Tsig(name: string, data: TsigData, offset: nat)

  datatype Query = Query(id: int, flags: int, qname: string, qtype: int, qclass: int, rawQuestion: Bytes,
                         tsig: Option<Tsig>, arcount: int, raw: Bytes, clientSerial: Option<int>)

  /**
   The serial of the SOA record `rr`, or `before` when the record is no usable SOA. Malformed
   names inside are forgiven; an undecodable label octet is not.
   */
  function SoaSerial(buf: Bytes, rr: RrHead, before: Option<int>): Result<Option<int>, WireFailure>
    requires rr.rstart + rr.rdlen <= |buf|
  {
    if rr.rtype != TYPE_SOA || rr.rdlen < 22 then Ok(before)
    else
      match DecodeName(buf, rr.rstart)
      case Err(e) => if e == Malformed then Ok(before) else Err(e)
      case Ok((_, p)) =>
        match DecodeName(buf, p)
        case Err(e) => if e == Malformed then Ok(before) else Err(e)
        case Ok((_, q)) => if q + 20 <= rr.rstart + rr.rdlen then Ok(Some(ReadU32(buf, q))) else Ok(before)
  }

  /** One authority record: the offset behind it and the client's serial so far. */
  function AuthorityRecord(buf: Bytes, off: nat, serial: Option<int>): Result<(nat, Option<int>), WireFailure> {
    match ReadRrHead(buf, off, Malformed)
    case Err(e) => Err(e)
    case Ok(rr) =>
      if rr.rstart + rr.rdlen > |buf| then Err(Malformed)
      else
        match SoaSerial(buf, rr, serial)
        case Err(e) => Err(e)
        case Ok(s) => Ok((rr.rstart + rr.rdlen, s))
  }

  function AuthorityStep(buf: Bytes): (nat, Option<int>) -> Result<(nat, Option<int>), WireFailure> {
    (off: nat, serial: Option<int>) => AuthorityRecord(buf, off, serial)
  }

  /** One additional record: the TSIG record if it is one, else what was found before. */
  function TsigOf(buf: Bytes, off: nat, rr: RrHead, tsig: Option<Tsig>): Result<Option<Tsig>, WireFailure> {
    if rr.rtype != TYPE_TSIG then Ok(tsig)
    else if tsig.Some? then Err(Malformed)
    else
      match ParseTsigRdata(buf, rr.rstart, rr.rdlen)
      case Err(e) => Err(e)
      case Ok(data) => Ok(Some(Tsig(rr.name, data, off)))
  }

  function AdditionalRecord(buf: Bytes, off: nat, tsig: Option<Tsig>): Result<(nat, Option<Tsig>), WireFailure> {
    match ReadRrHead(buf, off, Malformed)
    case Err(e) => Err(e)
    case Ok(rr) =>
      if rr.rstart + rr.rdlen > |buf| then Err(Malformed)
      else
        match TsigOf(buf, off, rr, tsig)
        case Err(e) => Err(e)
        case Ok(t) => Ok((rr.rstart + rr.rdlen, t))
  }

  function AdditionalStep(buf: Bytes): (nat, Option<Tsig>) -> Result<(nat, Option<Tsig>), WireFailure> {
    (off: nat, tsig: Option<Tsig>) => AdditionalRecord(buf, off, tsig)
  }

  /** The message behind the question section, which ends at `end`. */
  function ReadSections(buf: Bytes, qname: string, end: nat): Result<Query, WireFailure>
    requires 16 <= end <= |buf|
  {
    match ReadRecords(AuthorityStep(buf), end, ReadU16(buf, 8), None)
    case Err(e) => Err(e)
    case Ok((off, serial)) =>
      match ReadRecords(AdditionalStep(buf), off, ReadU16(buf, 10), None)
      case Err(e) => Err(e)
      case Ok((last, tsig)) =>
        if last != |buf| then Err(Malformed)
        else Ok(Query(ReadU16(buf, 0), ReadU16(buf, 2), qname, ReadU16(buf, end - 4), ReadU16(buf, end - 2),
                      buf[12..end], tsig, ReadU16(buf, 10), buf, serial))
  }

  function ParseQuery(buf: Bytes): Result<Query, WireFailure> {
    if |buf| < 12 then Err(Malformed)
    else if ReadU16(buf, 2) >= FLAG_QR then Err(Malformed)
    else if ReadU16(buf, 4) != 1 || ReadU16(buf, 6) != 0 then Err(Malformed)
    else
      match DecodeName(buf, 12)
      case Err(e) => Err(e)
      case Ok((qname, p)) => if p + 4 > |buf| then Err(Malformed) else ReadSections(buf, qname, p + 4)
  }

  /** The parser as the code runs it: an offset that moves through the message, section by section. */
  method ParseQueryLoop(buf: Bytes) returns (r: Result<Query, WireFailure>)
    ensures r == ParseQuery(buf)
  {
    if |buf| < 12 {
      return Err(Malformed);
    }
    if ReadU16(buf, 2) >= FLAG_QR {
      return Err(Malformed);
    }
    if ReadU16(buf, 4) != 1 || ReadU16(buf, 6) != 0 {
      return Err(Malformed);
    }
    var named := DecodeNameLoop(buf, 12);
    if named.Err? {
      return Err(named.error);
    }
    var end: nat := named.value.1 + 4;
    if end > |buf| {
      return Err(Malformed);
    }
    r := SectionsLoop(buf, named.value.0, end);
  }

  method SectionsLoop(buf: Bytes, qname: string, end: nat) returns (r: Result<Query, WireFailure>)
    requires 16 <= end <= |buf|
    ensures r == ReadSections(buf, qname, end)
  {
    var authority := ReadRecordsLoop(AuthorityStep(buf), end, ReadU16(buf, 8), None);
    if authority.Err? {
      return Err(authority.error);
    }
    var additional := ReadRecordsLoop(AdditionalStep(buf), authority.value.0, ReadU16(buf, 10), None);
    if additional.Err? {
      return Err(additional.error);
    }
    if additional.value.0 != |buf| {
      return Err(Malformed);
    }
    r := Ok(Query(ReadU16(buf, 0), ReadU16(buf, 2), qname, ReadU16(buf, end - 4), ReadU16(buf, end - 2),
                  buf[12..end], additional.value.1, ReadU16(buf, 10), buf, authority.value.1));
  }

  // ---------------------------------------------------------------------------
  // What the parser guarantees
  // ---------------------------------------------------------------------------

  lemma {:induction false} WalkNeverUnpacks(buf: Bytes, cur: nat, seen: set<nat>)
    ensures Walk(buf, cur, seen) != Err(StructError)
    decreases Unseen(buf, seen), |buf| - cur
  {
    if cur < |buf| && buf[cur] != 0 {
      if buf[cur] >= 192 {
        if cur + 1 < |buf| {
          var ptr := PointerTarget(buf[cur], buf[cur + 1]);
          if ptr !in seen && ptr < cur {
            assert ptr in Unseen(buf, seen) && ptr !in Unseen(buf, seen + {ptr});
            WalkNeverUnpacks(buf, ptr, seen + {ptr});
          }
        }
      } else if buf[cur] < 64 && cur + 1 + buf[cur] <= |buf| {
        WalkNeverUnpacks(buf, cur + 1 + buf[cur], seen);
      }
    }
  }

  /** What the fields of a TSIG record found in a query satisfy, and where the record starts. */
  predicate TsigFound(buf: Bytes, tsig: Option<Tsig>) {
    tsig.Some? ==>
      && 12 <= tsig.value.offset < |buf|
      && IsU16(tsig.value.data.fudge) && IsU16(tsig.value.data.error)
      && IsU16(|tsig.value.data.mac|) && IsU16(|tsig.value.data.other|)
  }

  lemma {:induction false} TsigDataSound(buf: Bytes, off: nat, rdlen: nat)
    requires off + rdlen <= |buf|
    ensures var r := ParseTsigRdata(buf, off, rdlen);
            && r != Err(StructError)
            && (r.Ok? ==> IsU16(r.value.fudge) && IsU16(r.value.error) && IsU16(|r.value.mac|) && IsU16(|r.value.other|))
  {
    WalkNeverUnpacks(buf, off, {});
  }

  lemma {:induction false} SoaSerialSound(buf: Bytes, rr: RrHead, serial: Option<int>)
    requires rr.rstart + rr.rdlen <= |buf| && (serial.Some? ==> IsU32(serial.value))
    ensures var r := SoaSerial(buf, rr, serial);
            r != Err(StructError) && (r.Ok? && r.value.Some? ==> IsU32(r.value.value))
  {
    WalkNeverUnpacks(buf, rr.rstart, {});
    var first := DecodeName(buf, rr.rstart);
    if first.Ok? {
      WalkNeverUnpacks(buf, first.value.1, {});
    }
  }

  lemma {:induction false} AuthorityRecordSound(buf: Bytes, off: nat, serial: Option<int>)
    requires serial.Some? ==> IsU32(serial.value)
    ensures var r := AuthorityRecord(buf, off, serial);
            && r != Err(StructError)
            && (r.Ok? ==> off <= r.value.0 <= |buf| && (r.value.1.Some? ==> IsU32(r.value.1.value)))
  {
    WalkNeverUnpacks(buf, off, {});
    var head := ReadRrHead(buf, off, Malformed);
    if head.Ok? && head.value.rstart + head.value.rdlen <= |buf| {
      SoaSerialSound(buf, head.value, serial);
    }
  }

  ghost function AuthorityRule(buf: Bytes): (nat, Option<int>) -> bool {
    (off: nat, serial: Option<int>) => 12 <= off <= |buf| && (serial.Some? ==> IsU32(serial.value))
  }

  lemma {:induction false} AuthoritySound(buf: Bytes, off: nat, count: nat)
    requires 12 <= off <= |buf|
    ensures match ReadRecords(AuthorityStep(buf), off, count, None)
            case Ok((next, serial)) => 12 <= next <= |buf| && (serial.Some? ==> IsU32(serial.value))
            case Err(e) => e != StructError
  {
    forall o: nat, s | AuthorityRule(buf)(o, s)
      ensures match AuthorityStep(buf)(o, s)
              case Ok((next, more)) => AuthorityRule(buf)(next, more)
              case Err(e) => e != StructError
    {
      AuthorityRecordSound(buf, o, s);
    }
    RecordsKeep(AuthorityStep(buf), off, count, None, AuthorityRule(buf));
  }

  lemma {:induction false} AdditionalRecordSound(buf: Bytes, off: nat, tsig: Option<Tsig>)
    requires 12 <= off && TsigFound(buf, tsig)
    ensures var r := AdditionalRecord(buf, off, tsig);
            && r != Err(StructError)
            && (r.Ok? ==> off <= r.value.0 <= |buf| && TsigFound(buf, r.value.1))
  {
    WalkNeverUnpacks(buf, off, {});
    var head := ReadRrHead(buf, off, Malformed);
    if head.Ok? && head.value.rstart + head.value.rdlen <= |buf| {
      TsigDataSound(buf, head.value.rstart, head.value.rdlen);
    }
  }

  ghost function AdditionalRule(buf: Bytes): (nat, Option<Tsig>) -> bool {
    (off: nat, tsig: Option<Tsig>) => 12 <= off <= |buf| && TsigFound(buf, tsig)
  }

  lemma {:induction false} AdditionalRuleHolds(buf: Bytes, off: nat, tsig: Option<Tsig>)
    requires 12 <= off <= |buf| && TsigFound(buf, tsig)
    ensures AdditionalRule(buf)(off, tsig)
  {
  }

  lemma {:induction false} AdditionalSound(buf: Bytes, off: nat, count: nat)
    requires 12 <= off <= |buf|
    ensures match ReadRecords(AdditionalStep(buf), off, count, None)
            case Ok((next, tsig)) => 12 <= next <= |buf| && TsigFound(buf, tsig)
            case Err(e) => e != StructError
  {
    forall o: nat, t | AdditionalRule(buf)(o, t)
      ensures match AdditionalStep(buf)(o, t)
              case Ok((next, more)) => AdditionalRule(buf)(next, more)
              case Err(e) => e != StructError
    {
      AdditionalRecordSound(buf, o, t);
    }
    AdditionalRuleHolds(buf, off, None);
    RecordsKeep(AdditionalStep(buf), off, count, None, AdditionalRule(buf));
  }

  /**
   The bounds tests of the parser are complete: no input makes it unpack a number from a
   slice that is too short. What it returns keeps every field in its wire range.
   */
  lemma {:induction false} ParseQuerySound(buf: Bytes)
    ensures ParseQuery(buf) != Err(StructError)
    ensures ParseQuery(buf).Ok? ==>
              var q := ParseQuery(buf).value;
              && q.raw == buf && IsU16(q.id) && IsU16(q.arcount)
              && TsigFound(buf, q.tsig)
              && (q.clientSerial.Some? ==> IsU32(q.clientSerial.value))
  {
    WalkNeverUnpacks(buf, 12, {});
    if |buf| >= 12 && DecodeName(buf, 12).Ok? {
      var end := DecodeName(buf, 12).value.1 + 4;
      if end <= |buf| {
        AuthoritySound(buf, end, ReadU16(buf, 8));
        var authority := ReadRecords(AuthorityStep(buf), end, ReadU16(buf, 8), None);
        if authority.Ok? {
          AdditionalSound(buf, authority.value.0, ReadU16(buf, 10));
        }
      }
    }
  }
}
