/**
 Messages on the wire (app/dnswire.py): big-endian numbers, the header, resource records,
 the TSIG record, and the parser for queries.
 */
module Wire {
  import opened Basics
  import opened Names
  import opened NameCodec
  import opened Serial

  const TYPE_SOA := 6
  const TYPE_TSIG := 250
  const TYPE_IXFR := 251
  const TYPE_AXFR := 252
  const CLASS_IN := 1
  const CLASS_ANY := 255
  const FLAG_QR := 0x8000
  const FLAG_AA := 0x0400

  // ---------------------------------------------------------------------------
  // Numbers
  // ---------------------------------------------------------------------------

  predicate IsU16(n: int) {
    0 <= n < 0x10000
  }

  function U16(n: int): (bs: Bytes)
    requires IsU16(n)
    ensures |bs| == 2
  {
    [n / 256, n % 256]
  }

  function U32(n: int): (bs: Bytes)
    requires IsU32(n)
    ensures |bs| == 4
  {
    U16(n / 0x10000) + U16(n % 0x10000)
  }

  /** A time in seconds, reduced to 48 bits. */
  function U48(n: int): (bs: Bytes)
    ensures |bs| == 6
  {
    U16((n / 0x1_0000_0000) % 0x10000) + U32(n % 0x1_0000_0000)
  }

  function ReadU16(buf: Bytes, off: nat): (n: int)
    requires off + 2 <= |buf|
    ensures IsU16(n)
  {
    var hi: int, lo: int := buf[off], buf[off + 1];
    hi * 256 + lo
  }

  function ReadU32(buf: Bytes, off: nat): (n: int)
    requires off + 4 <= |buf|
    ensures IsU32(n)
  {
    ReadU16(buf, off) * 0x10000 + ReadU16(buf, off + 2)
  }

  function ReadU48(buf: Bytes, off: nat): int
    requires off + 6 <= |buf|
  {
    ReadU16(buf, off) * 0x1_0000_0000 + ReadU32(buf, off + 2)
  }

  lemma {:induction false} ReadsU16(buf: Bytes, off: nat, n: int)
    requires IsU16(n) && At(buf, off, U16(n))
    ensures off + 2 <= |buf| && ReadU16(buf, off) == n
  {
    AtIndex(buf, off, U16(n), 0);
    AtIndex(buf, off, U16(n), 1);
  }

  lemma {:induction false} ReadsU32(buf: Bytes, off: nat, n: int)
    requires IsU32(n) && At(buf, off, U32(n))
    ensures off + 4 <= |buf| && ReadU32(buf, off) == n
  {
    AtConcat(buf, off, U16(n / 0x10000), U16(n % 0x10000));
    ReadsU16(buf, off, n / 0x10000);
    ReadsU16(buf, off + 2, n % 0x10000);
  }

  lemma {:induction false} ReadsU48(buf: Bytes, off: nat, n: int)
    requires 0 <= n < 0x1_0000_0000_0000 && At(buf, off, U48(n))
    ensures off + 6 <= |buf| && ReadU48(buf, off) == n
  {
    var hi, lo := n / 0x1_0000_0000, n % 0x1_0000_0000;
    assert 0 <= hi < 0x10000 && hi % 0x10000 == hi;
    AtConcat(buf, off, U16(hi), U32(lo));
    ReadsU16(buf, off, hi);
    ReadsU32(buf, off + 2, lo);
  }

  /** A slice that stops at the end of the buffer, as the host language cuts it. */
  function Slice(buf: Bytes, lo: nat, hi: nat): Bytes {
    var a, b := if lo <= |buf| then lo else |buf|, if hi <= |buf| then hi else |buf|;
    if a <= b then buf[a..b] else []
  }

  // ---------------------------------------------------------------------------
  // Header
  // ---------------------------------------------------------------------------

  function Header(id: int, flags: int, qd: int, an: int, ns: int, ar: int): (bs: Bytes)
    requires IsU16(id) && IsU16(flags) && IsU16(qd) && IsU16(an) && IsU16(ns) && IsU16(ar)
    ensures |bs| == 12
  {
    (U16(id) + U16(flags)) + (U16(qd) + U16(an)) + (U16(ns) + U16(ar))
  }

  lemma {:induction false} ReadsHeader(buf: Bytes, id: int, flags: int, qd: int, an: int, ns: int, ar: int)
    requires IsU16(id) && IsU16(flags) && IsU16(qd) && IsU16(an) && IsU16(ns) && IsU16(ar)
    requires At(buf, 0, Header(id, flags, qd, an, ns, ar))
    ensures 12 <= |buf|
    ensures ReadU16(buf, 0) == id && ReadU16(buf, 2) == flags && ReadU16(buf, 4) == qd
    ensures ReadU16(buf, 6) == an && ReadU16(buf, 8) == ns && ReadU16(buf, 10) == ar
  {
    var a, b, c := U16(id) + U16(flags), U16(qd) + U16(an), U16(ns) + U16(ar);
    AtConcat(buf, 0, a + b, c);
    AtConcat(buf, 0, a, b);
    AtConcat(buf, 0, U16(id), U16(flags));
    AtConcat(buf, 4, U16(qd), U16(an));
    AtConcat(buf, 8, U16(ns), U16(ar));
    ReadsU16(buf, 0, id);
    ReadsU16(buf, 2, flags);
    ReadsU16(buf, 4, qd);
    ReadsU16(buf, 6, an);
    ReadsU16(buf, 8, ns);
    ReadsU16(buf, 10, ar);
  }

  /** The message with the count of additional records overwritten. */
  function PatchArcount(msg: Bytes, arcount: int): Bytes
    requires IsU16(arcount)
  {
    Slice(msg, 0, 10) + U16(arcount) + Slice(msg, 12, |msg|)
  }

  /** Patching a message that starts with a header replaces the header's last field. */
  lemma {:induction false} PatchHeader(id: int, flags: int, qd: int, an: int, ns: int, ar: int, body: Bytes, arcount: int)
    requires IsU16(id) && IsU16(flags) && IsU16(qd) && IsU16(an) && IsU16(ns) && IsU16(ar) && IsU16(arcount)
    ensures PatchArcount(Header(id, flags, qd, an, ns, ar) + body, arcount) == Header(id, flags, qd, an, ns, arcount) + body
  {
  }

  // ---------------------------------------------------------------------------
  // Resource records
  // ---------------------------------------------------------------------------

  /** The ten octets between owner name and RDATA. */
  function Fixed(rtype: int, rclass: int, ttl: int, rdlen: int): (bs: Bytes)
    requires IsU16(rtype) && IsU16(rclass) && IsU32(ttl) && IsU16(rdlen)
    ensures |bs| == 10
  {
    (U16(rtype) + U16(rclass)) + (U32(ttl) + U16(rdlen))
  }

  /** A record whose owner name is already in wire form. */
  function Assemble(owner: Bytes, rtype: int, rclass: int, ttl: int, rdata: Bytes): (bs: Bytes)
    requires IsU16(rtype) && IsU16(rclass) && IsU32(ttl) && IsU16(|rdata|)
    ensures |bs| == |owner| + 10 + |rdata|
  {
    owner + (Fixed(rtype, rclass, ttl, |rdata|) + rdata)
  }

  function PackRr(name: string, rtype: int, rclass: int, ttl: int, rdata: Bytes): (bs: Bytes)
    requires IsCanonical(name) && IsU16(rtype) && IsU16(rclass) && IsU32(ttl) && IsU16(|rdata|)
    ensures |bs| == |name| + 11 + |rdata|
  {
    Assemble(Encoded(name), rtype, rclass, ttl, rdata)
  }

  /** Owner, type, class, TTL and RDATA position of a record that starts somewhere in a message. */
  datatype RrHead = RrHead(name: string, rtype: int, rclass: int, ttl: int, rstart: nat, rdlen: nat)

  /** The rest of a record's head, once its owner name is decoded. */
  function HeadAfter(buf: Bytes, owner: Result<(string, nat), WireFailure>, short: WireFailure): (r: Result<RrHead, WireFailure>)
    ensures r.Ok? ==> owner.Ok? && owner.value.1 + 10 == r.value.rstart <= |buf|
  {
    match owner
    case Err(e) => Err(e)
    case Ok((name, p)) =>
      if p + 10 > |buf| then Err(short)
      else Ok(RrHead(name, ReadU16(buf, p), ReadU16(buf, p + 2), ReadU32(buf, p + 4), p + 10, ReadU16(buf, p + 8)))
  }

  /** `short` is the failure when the buffer ends within the ten fixed octets. */
  function ReadRrHead(buf: Bytes, off: nat, short: WireFailure): (r: Result<RrHead, WireFailure>)
    ensures r.Ok? ==> off + 10 < r.value.rstart <= |buf|
  {
    HeadAfter(buf, DecodeName(buf, off), short)
  }

  lemma {:induction false} ReadsFixed(buf: Bytes, off: nat, rtype: int, rclass: int, ttl: int, rdlen: int)
    requires IsU16(rtype) && IsU16(rclass) && IsU32(ttl) && IsU16(rdlen)
    requires At(buf, off, Fixed(rtype, rclass, ttl, rdlen))
    ensures off + 10 <= |buf|
    ensures ReadU16(buf, off) == rtype && ReadU16(buf, off + 2) == rclass
    ensures ReadU32(buf, off + 4) == ttl && ReadU16(buf, off + 8) == rdlen
  {
    AtConcat(buf, off, U16(rtype) + U16(rclass), U32(ttl) + U16(rdlen));
    AtConcat(buf, off, U16(rtype), U16(rclass));
    AtConcat(buf, off + 4, U32(ttl), U16(rdlen));
    ReadsU16(buf, off, rtype);
    ReadsU16(buf, off + 2, rclass);
    ReadsU32(buf, off + 4, ttl);
    ReadsU16(buf, off + 8, rdlen);
  }

  lemma {:induction false} ReadsHeadAfter(buf: Bytes, p: nat, name: string, rtype: int, rclass: int, ttl: int, rdata: Bytes, short: WireFailure)
    requires IsU16(rtype) && IsU16(rclass) && IsU32(ttl) && IsU16(|rdata|)
    requires At(buf, p, Fixed(rtype, rclass, ttl, |rdata|) + rdata)
    ensures HeadAfter(buf, Ok((name, p)), short) == Ok(RrHead(name, rtype, rclass, ttl, p + 10, |rdata|))
    ensures At(buf, p + 10, rdata)
  {
    AtConcat(buf, p, Fixed(rtype, rclass, ttl, |rdata|), rdata);
    ReadsFixed(buf, p, rtype, rclass, ttl, |rdata|);
  }

  /** A record reads back from any place in any message. */
  lemma {:induction false} ReadsRr(buf: Bytes, off: nat, owner: Bytes, name: string,
                                   rtype: int, rclass: int, ttl: int, rdata: Bytes, short: WireFailure)
    requires Denotes(owner, name) && IsU16(rtype) && IsU16(rclass) && IsU32(ttl) && IsU16(|rdata|)
    requires At(buf, off, Assemble(owner, rtype, rclass, ttl, rdata))
    ensures ReadRrHead(buf, off, short) == Ok(RrHead(name, rtype, rclass, ttl, off + |owner| + 10, |rdata|))
    ensures At(buf, off + |owner| + 10, rdata)
  {
    var rest := Fixed(rtype, rclass, ttl, |rdata|) + rdata;
    AtConcat(buf, off, owner, rest);
    ReadsHeadAfter(buf, off + |owner|, name, rtype, rclass, ttl, rdata, short);
  }

  // ---------------------------------------------------------------------------
  // Sections
  // ---------------------------------------------------------------------------

  /**
   `count` records one after the other from `off` on. `step` reads one record: from its offset
   and what was collected before, to the offset behind it and what is collected now.
   */
  function ReadRecords<A>(step: (nat, A) -> Result<(nat, A), WireFailure>, off: nat, count: nat, found: A)
    : Result<(nat, A), WireFailure>
    decreases count
  {
    if count == 0 then Ok((off, found))
    else
      match step(off, found)
      case Err(e) => Err(e)
      case Ok((next, more)) => ReadRecords(step, next, count - 1, more)
  }

  /** The loop over a section as the code runs it. */
  method ReadRecordsLoop<A>(step: (nat, A) -> Result<(nat, A), WireFailure>, start: nat, count: nat, none: A)
    returns (r: Result<(nat, A), WireFailure>)
    ensures r == ReadRecords(step, start, count, none)
  {
    var off: nat := start;
    var found := none;
    for i := 0 to count
      invariant ReadRecords(step, start, count, none) == ReadRecords(step, off, count - i, found)
    {
      var record := step(off, found);
      if record.Err? {
        return Err(record.error);
      }
      off, found := record.value.0, record.value.1;
    }
    r := Ok((off, found));
  }

  /** What every record keeps, the whole section keeps; and if no record is cut short, the section is not. */
  lemma {:induction false} RecordsKeep<A(!new)>(step: (nat, A) -> Result<(nat, A), WireFailure>, off: nat, count: nat, found: A,
                                                keeps: (nat, A) -> bool)
    requires keeps(off, found)
    requires forall o: nat, a: A {:trigger step(o, a)} :: keeps(o, a) ==>
               match step(o, a)
               case Ok((next, more)) => keeps(next, more)
               case Err(e) => e != StructError
    ensures match ReadRecords(step, off, count, found)
            case Ok((next, more)) => keeps(next, more)
            case Err(e) => e != StructError
    decreases count
  {
    if count > 0 {
      var record := step(off, found);
      if record.Ok? {
        RecordsKeep(step, record.value.0, count - 1, record.value.1, keeps);
      }
    }
  }

  // ---------------------------------------------------------------------------
  // The TSIG record
  // ---------------------------------------------------------------------------

  const ALGORITHM_LABEL := "hmac-sha256"
  const ALGORITHM_NAME := ALGORITHM_LABEL + "."

  /** Octet count and letters of the algorithm's one label, and the closing zero. */
  const ALGORITHM_WIRE: Bytes := [11, 104, 109, 97, 99, 45, 115, 104, 97, 50, 53, 54, 0]

  datatype TsigData = TsigData(algorithm: string, time: int, fudge: int, mac: Bytes, origId: int, error: int, other: Bytes)

  /** What follows the algorithm name in the RDATA of a TSIG record. */
  function TsigFields(when: int, fudge: int, mac: Bytes, origId: int, error: int, other: Bytes): (bs: Bytes)
    requires IsU16(fudge) && IsU16(|mac|) && IsU16(origId) && IsU16(error) && IsU16(|other|)
    ensures |bs| == 16 + |mac| + |other|
  {
    (U48(when) + U16(fudge)) + (U16(|mac|) + (mac + ((U16(origId) + U16(error)) + (U16(|other|) + other))))
  }

  function TsigRdata(when: int, fudge: int, mac: Bytes, origId: int, error: int, other: Bytes): (bs: Bytes)
    requires IsU16(fudge) && IsU16(|mac|) && IsU16(origId) && IsU16(error) && IsU16(|other|)
    ensures |bs| == 29 + |mac| + |other|
  {
    ALGORITHM_WIRE + TsigFields(when, fudge, mac, origId, error, other)
  }

  /** The fields from offset `p` to `end`, the end of the record. */
  function ReadTsigFields(buf: Bytes, p: nat, end: nat, algorithm: string): Result<TsigData, WireFailure> {
    if p + 8 > end then Err(Malformed)
    else if p + 8 > |buf| then Err(StructError)
    else if p + 10 > end then Err(Malformed)
    else if p + 10 > |buf| then Err(StructError)
    else
      var tail := p + 10 + ReadU16(buf, p + 8);
      if tail + 6 > end then Err(Malformed)
      else if tail + 6 > |buf| then Err(StructError)
      else if tail + 6 + ReadU16(buf, tail + 4) != end then Err(Malformed)
      else Ok(TsigData(algorithm, ReadU48(buf, p), ReadU16(buf, p + 6), buf[p + 10..tail],
                       ReadU16(buf, tail), ReadU16(buf, tail + 2), Slice(buf, tail + 6, end)))
  }

  function FieldsAfter(buf: Bytes, algorithm: Result<(string, nat), WireFailure>, end: nat): Result<TsigData, WireFailure> {
    match algorithm
    case Err(e) => Err(e)
    case Ok((name, p)) => ReadTsigFields(buf, p, end, name)
  }

  function ParseTsigRdata(buf: Bytes, off: nat, rdlen: nat): Result<TsigData, WireFailure> {
    FieldsAfter(buf, DecodeName(buf, off), off + rdlen)
  }

  lemma {:induction false} SingleLabelName(lbl: string)
    requires LabelOk(lbl) && '.' !in lbl
    ensures IsCanonical(lbl + ".") && IsAscii(lbl) && Encoded(lbl + ".") == [|lbl|] + Octets(lbl) + [0]
  {
    var name := lbl + ".";
    SplitPlain(lbl);
    LabelIsWire(lbl);
    LabelTextRoundTrip(lbl);
    assert name[..|name| - 1] == lbl;
    assert NameLabels(name) == [lbl];
    assert [lbl][1..] == [];
    CanonicalEncodes(name);
    EncodeStep([lbl]);
  }

  lemma {:induction false} AlgorithmLabelOk()
    ensures LabelOk(ALGORITHM_LABEL) && '.' !in ALGORITHM_LABEL
  {
  }

  lemma {:induction false} AlgorithmOctets()
    ensures IsAscii(ALGORITHM_LABEL) && [|ALGORITHM_LABEL|] + Octets(ALGORITHM_LABEL) + [0] == ALGORITHM_WIRE
  {
  }

  lemma {:induction false} AlgorithmIsCanonical()
    ensures IsCanonical(ALGORITHM_NAME) && Encoded(ALGORITHM_NAME) == ALGORITHM_WIRE
  {
    AlgorithmLabelOk();
    AlgorithmOctets();
    SingleLabelName(ALGORITHM_LABEL);
  }

  lemma {:induction false} ReadsTsigTail(buf: Bytes, off: nat, origId: int, error: int, other: Bytes)
    requires IsU16(origId) && IsU16(error) && IsU16(|other|)
    requires At(buf, off, (U16(origId) + U16(error)) + (U16(|other|) + other))
    ensures off + 6 + |other| <= |buf|
    ensures ReadU16(buf, off) == origId && ReadU16(buf, off + 2) == error && ReadU16(buf, off + 4) == |other|
    ensures Slice(buf, off + 6, off + 6 + |other|) == other
  {
    AtConcat(buf, off, U16(origId) + U16(error), U16(|other|) + other);
    AtConcat(buf, off, U16(origId), U16(error));
    AtConcat(buf, off + 4, U16(|other|), other);
    ReadsU16(buf, off, origId);
    ReadsU16(buf, off + 2, error);
    ReadsU16(buf, off + 4, |other|);
    AtSlice(buf, off + 6, other);
  }

  lemma {:induction false} ReadsTsigFields(buf: Bytes, p: nat, algorithm: string,
                                           when: int, fudge: int, mac: Bytes, origId: int, error: int, other: Bytes)
    requires 0 <= when < 0x1_0000_0000_0000
    requires IsU16(fudge) && IsU16(|mac|) && IsU16(origId) && IsU16(error) && IsU16(|other|)
    requires At(buf, p, TsigFields(when, fudge, mac, origId, error, other))
    ensures ReadTsigFields(buf, p, p + 16 + |mac| + |other|, algorithm)
         == Ok(TsigData(algorithm, when, fudge, mac, origId, error, other))
  {
    var tail := (U16(origId) + U16(error)) + (U16(|other|) + other);
    AtConcat(buf, p, U48(when) + U16(fudge), U16(|mac|) + (mac + tail));
    AtConcat(buf, p, U48(when), U16(fudge));
    AtConcat(buf, p + 8, U16(|mac|), mac + tail);
    AtConcat(buf, p + 10, mac, tail);
    ReadsU48(buf, p, when);
    ReadsU16(buf, p + 6, fudge);
    ReadsU16(buf, p + 8, |mac|);
    AtSlice(buf, p + 10, mac);
    ReadsTsigTail(buf, p + 10 + |mac|, origId, error, other);
  }

  lemma {:induction false} AlgorithmDenotes()
    ensures Denotes(ALGORITHM_WIRE, ALGORITHM_NAME)
  {
    AlgorithmIsCanonical();
    CanonicalDenotes(ALGORITHM_NAME);
  }

  /** A TSIG record's RDATA reads back from any place in any message. */
  lemma {:induction false} ReadsTsigRdata(buf: Bytes, off: nat, when: int, fudge: int, mac: Bytes, origId: int, error: int, other: Bytes)
    requires 0 <= when < 0x1_0000_0000_0000
    requires IsU16(fudge) && IsU16(|mac|) && IsU16(origId) && IsU16(error) && IsU16(|other|)
    requires At(buf, off, TsigRdata(when, fudge, mac, origId, error, other))
    ensures ParseTsigRdata(buf, off, 29 + |mac| + |other|)
         == Ok(TsigData(ALGORITHM_NAME, when, fudge, mac, origId, error, other))
  {
    AlgorithmDenotes();
    AtConcat(buf, off, ALGORITHM_WIRE, TsigFields(when, fudge, mac, origId, error, other));
    ReadsTsigFields(buf, off + 13, ALGORITHM_NAME, when, fudge, mac, origId, error, other);
  }

  // ---------------------------------------------------------------------------
  // What is read was printed
  // ---------------------------------------------------------------------------

  lemma {:induction false} PrintsU16(buf: Bytes, off: nat)
    requires off + 2 <= |buf|
    ensures U16(ReadU16(buf, off)) == buf[off..off + 2]
  {
    var hi: int, lo: int := buf[off], buf[off + 1];
    assert (hi * 256 + lo) / 256 == hi && (hi * 256 + lo) % 256 == lo;
  }

  lemma {:induction false} Cut(buf: Bytes, a: nat, b: nat, c: nat)
    requires a <= b <= c <= |buf|
    ensures buf[a..c] == buf[a..b] + buf[b..c]
  {
  }

  lemma {:induction false} TwoHalves(hi: int, lo: int)
    requires IsU16(hi) && IsU16(lo)
    ensures U32(hi * 0x10000 + lo) == U16(hi) + U16(lo)
  {
    assert (hi * 0x10000 + lo) / 0x10000 == hi && (hi * 0x10000 + lo) % 0x10000 == lo;
  }

  lemma {:induction false} HighAndLow(hi: int, lo: int)
    requires IsU16(hi) && IsU32(lo)
    ensures 0 <= hi * 0x1_0000_0000 + lo < 0x1_0000_0000_0000
    ensures U48(hi * 0x1_0000_0000 + lo) == U16(hi) + U32(lo)
  {
    assert (hi * 0x1_0000_0000 + lo) / 0x1_0000_0000 == hi && (hi * 0x1_0000_0000 + lo) % 0x1_0000_0000 == lo;
    assert hi % 0x10000 == hi;
  }

  lemma {:induction false} PrintsU32(buf: Bytes, off: nat)
    requires off + 4 <= |buf|
    ensures U32(ReadU32(buf, off)) == buf[off..off + 4]
  {
    TwoHalves(ReadU16(buf, off), ReadU16(buf, off + 2));
    PrintsU16(buf, off);
    PrintsU16(buf, off + 2);
    Cut(buf, off, off + 2, off + 4);
  }

  lemma {:induction false} PrintsU48(buf: Bytes, off: nat)
    requires off + 6 <= |buf|
    ensures 0 <= ReadU48(buf, off) < 0x1_0000_0000_0000 && U48(ReadU48(buf, off)) == buf[off..off + 6]
  {
    HighAndLow(ReadU16(buf, off), ReadU32(buf, off + 2));
    PrintsU16(buf, off);
    PrintsU32(buf, off + 2);
    Cut(buf, off, off + 2, off + 6);
  }

  /** The fields of a TSIG record's RDATA within their wire ranges. */
  predicate TsigPrintable(t: TsigData) {
    && 0 <= t.time < 0x1_0000_0000_0000
    && IsU16(t.fudge) && IsU16(|t.mac|) && IsU16(t.origId) && IsU16(t.error) && IsU16(|t.other|)
  }

  function PrintedFields(t: TsigData): (bs: Bytes)
    requires TsigPrintable(t)
    ensures |bs| == 16 + |t.mac| + |t.other|
  {
    TsigFields(t.time, t.fudge, t.mac, t.origId, t.error, t.other)
  }

  lemma {:induction false} TsigTailPrints(buf: Bytes, tail: nat, end: nat)
    requires tail + 6 <= end <= |buf| && tail + 6 + ReadU16(buf, tail + 4) == end
    ensures (U16(ReadU16(buf, tail)) + U16(ReadU16(buf, tail + 2))) + (U16(end - tail - 6) + buf[tail + 6..end]) == buf[tail..end]
  {
    PrintsU16(buf, tail);
    PrintsU16(buf, tail + 2);
    PrintsU16(buf, tail + 4);
    Cut(buf, tail, tail + 4, end);
    Cut(buf, tail, tail + 2, tail + 4);
    Cut(buf, tail + 4, tail + 6, end);
  }

  lemma {:induction false} TsigFieldsPrint(buf: Bytes, p: nat, end: nat, algorithm: string)
    requires end <= |buf| && ReadTsigFields(buf, p, end, algorithm).Ok?
    ensures var t := ReadTsigFields(buf, p, end, algorithm).value;
            t.algorithm == algorithm && TsigPrintable(t) && p <= end && buf[p..end] == PrintedFields(t)
  {
    var tail := p + 10 + ReadU16(buf, p + 8);
    PrintsU48(buf, p);
    PrintsU16(buf, p + 6);
    PrintsU16(buf, p + 8);
    TsigTailPrints(buf, tail, end);
    Cut(buf, p, p + 8, end);
    Cut(buf, p, p + 6, p + 8);
    Cut(buf, p + 8, p + 10, end);
    Cut(buf, p + 10, tail, end);
  }

  lemma {:induction false} PrintedFieldsRead(buf: Bytes, p: nat, end: nat, t: TsigData)
    requires p <= end <= |buf| && TsigPrintable(t) && buf[p..end] == PrintedFields(t)
    ensures ReadTsigFields(buf, p, end, t.algorithm) == Ok(t)
  {
    SliceStands(buf, p, end);
    ReadsTsigFields(buf, p, t.algorithm, t.time, t.fudge, t.mac, t.origId, t.error, t.other);
  }

  lemma {:induction false} SliceStands(buf: Bytes, p: nat, end: nat)
    requires p <= end <= |buf|
    ensures At(buf, p, buf[p..end])
  {
  }

  /** The octets from `p` to `end` are a printing of the fields `t`. */
  predicate FieldsStand(buf: Bytes, p: nat, end: nat, t: TsigData)
    requires end <= |buf|
  {
    TsigPrintable(t) && p <= end && buf[p..end] == PrintedFields(t)
  }

  lemma {:induction false} TsigFieldsIff(buf: Bytes, p: nat, end: nat, algorithm: string, t: TsigData)
    requires end <= |buf|
    ensures ReadTsigFields(buf, p, end, algorithm) == Ok(t) <==> t.algorithm == algorithm && FieldsStand(buf, p, end, t)
  {
    if ReadTsigFields(buf, p, end, algorithm) == Ok(t) {
      TsigFieldsPrint(buf, p, end, algorithm);
    }
    if t.algorithm == algorithm && FieldsStand(buf, p, end, t) {
      PrintedFieldsRead(buf, p, end, t);
    }
  }

  /** The RDATA of a TSIG record is accepted exactly when, behind the algorithm name, it is a printing of fields: these. */
  lemma {:induction false} TsigRdataIff(buf: Bytes, off: nat, rdlen: nat, t: TsigData)
    requires off + rdlen <= |buf|
    ensures ParseTsigRdata(buf, off, rdlen) == Ok(t)
       <==> exists p: nat :: DecodeName(buf, off) == Ok((t.algorithm, p)) && FieldsStand(buf, p, off + rdlen, t)
  {
    var name := DecodeName(buf, off);
    if name.Ok? {
      TsigFieldsIff(buf, name.value.1, off + rdlen, name.value.0, t);
      assert t.algorithm == name.value.0 ==> DecodeName(buf, off) == Ok((t.algorithm, name.value.1));
    }
  }
}
