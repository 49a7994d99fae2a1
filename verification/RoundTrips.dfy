/**
 Both ends agree on the wire: what the client prints the server reads, what the server signs
 the client reads and accepts, and both feed the same octets to the keyed hash.
 */
module RoundTrips {
  import opened Basics
  import opened Names
  import opened NameCodec
  import opened Serial
  import opened Wire
  import opened QueryParser
  import opened Signing
  import opened Client

  // ---------------------------------------------------------------------------
  // Single records
  // ---------------------------------------------------------------------------

  /** A signing time and the fields of a TSIG record within their wire ranges. */
  predicate TsigInRange(when: int, t: TsigData) {
    && 0 <= when < 0x1_0000_0000_0000 && t.time == when
    && IsU16(t.fudge) && IsU16(t.origId) && IsU16(t.error)
    && 29 + |t.mac| + |t.other| < 0x10000
    && t.algorithm == ALGORITHM_NAME
  }

  function TsigWire(owner: Bytes, t: TsigData): Bytes
    requires IsU16(t.fudge) && IsU16(t.origId) && IsU16(t.error) && 29 + |t.mac| + |t.other| < 0x10000
  {
    TsigRr(owner, t.time, t.fudge, t.mac, t.origId, t.error, t.other)
  }

  /** Wherever these octets stand, they read as the RDATA `t`. */
  ghost predicate RdataCarries(rdata: Bytes, t: TsigData) {
    forall buf, off: nat {:trigger At(buf, off, rdata)} :: At(buf, off, rdata) ==> ParseTsigRdata(buf, off, |rdata|) == Ok(t)
  }

  function TsigRdataWire(t: TsigData): Bytes
    requires IsU16(t.fudge) && IsU16(t.origId) && IsU16(t.error) && 29 + |t.mac| + |t.other| < 0x10000
  {
    TsigRdata(t.time, t.fudge, t.mac, t.origId, t.error, t.other)
  }

  lemma {:induction false} TsigRdataCarries(t: TsigData)
    requires TsigInRange(t.time, t)
    ensures RdataCarries(TsigRdataWire(t), t)
  {
    var rdata := TsigRdataWire(t);
    forall buf, off: nat | At(buf, off, rdata) ensures ParseTsigRdata(buf, off, |rdata|) == Ok(t) {
      ReadsTsigRdata(buf, off, t.time, t.fudge, t.mac, t.origId, t.error, t.other);
    }
  }

  /** Wherever these octets stand, both ends read from them a record with this head and RDATA. */
  ghost predicate RrCarries(wire: Bytes, name: string, rtype: int, rclass: int, ttl: int, rdata: Bytes) {
    && |rdata| <= |wire|
    && forall buf, off: nat {:trigger At(buf, off, wire)} :: At(buf, off, wire) ==>
        && off + |wire| <= |buf|
        && (forall short :: ReadRrHead(buf, off, short) == Ok(RrHead(name, rtype, rclass, ttl, off + |wire| - |rdata|, |rdata|)))
        && At(buf, off + |wire| - |rdata|, rdata)
  }

  lemma {:induction false} AssembledCarries(owner: Bytes, name: string, rtype: int, rclass: int, ttl: int, rdata: Bytes)
    requires Denotes(owner, name) && IsU16(rtype) && IsU16(rclass) && IsU32(ttl) && IsU16(|rdata|)
    ensures RrCarries(Assemble(owner, rtype, rclass, ttl, rdata), name, rtype, rclass, ttl, rdata)
  {
    var wire := Assemble(owner, rtype, rclass, ttl, rdata);
    forall buf, off: nat | At(buf, off, wire)
      ensures off + |wire| <= |buf|
      ensures forall short :: ReadRrHead(buf, off, short) == Ok(RrHead(name, rtype, rclass, ttl, off + |wire| - |rdata|, |rdata|))
      ensures At(buf, off + |wire| - |rdata|, rdata)
    {
      ReadsRr(buf, off, owner, name, rtype, rclass, ttl, rdata, Malformed);
      forall short ensures ReadRrHead(buf, off, short) == Ok(RrHead(name, rtype, rclass, ttl, off + |wire| - |rdata|, |rdata|)) {
        ReadsRr(buf, off, owner, name, rtype, rclass, ttl, rdata, short);
      }
    }
  }

  lemma {:induction false} ServerTakesTsig(buf: Bytes, off: nat, name: string, rstart: nat, rdlen: nat, t: TsigData)
    requires ReadRrHead(buf, off, Malformed) == Ok(RrHead(name, TYPE_TSIG, CLASS_ANY, 0, rstart, rdlen))
    requires rstart + rdlen <= |buf| && ParseTsigRdata(buf, rstart, rdlen) == Ok(t)
    ensures AdditionalRecord(buf, off, None) == Ok((rstart + rdlen, Some(Tsig(name, t, off))))
  {
  }

  lemma {:induction false} ClientTakesTsig(buf: Bytes, off: nat, name: string, rstart: nat, rdlen: nat, t: TsigData)
    requires ReadRrHead(buf, off, StructError) == Ok(RrHead(name, TYPE_TSIG, CLASS_ANY, 0, rstart, rdlen))
    requires ParseTsigRdata(buf, rstart, rdlen) == Ok(t)
    ensures ExtraRecord(buf, off, Extras([], None)).Ok?
    ensures ExtraRecord(buf, off, Extras([], None)).value.1.tsig == Some(Tsig(name, t, off))
  {
  }

  /** Wherever these octets stand, the server reads the TSIG record `t` of the key `name` from them. */
  ghost predicate ServerTsig(wire: Bytes, name: string, t: TsigData) {
    forall buf, off: nat {:trigger At(buf, off, wire)} :: At(buf, off, wire) ==>
      AdditionalRecord(buf, off, None) == Ok((off + |wire|, Some(Tsig(name, t, off))))
  }

  /** And so does the client. */
  ghost predicate ClientTsig(wire: Bytes, name: string, t: TsigData) {
    forall buf, off: nat {:trigger At(buf, off, wire)} :: At(buf, off, wire) ==>
      && ExtraRecord(buf, off, Extras([], None)).Ok?
      && ExtraRecord(buf, off, Extras([], None)).value.1.tsig == Some(Tsig(name, t, off))
  }

  ghost predicate TsigCarries(wire: Bytes, name: string, t: TsigData) {
    ServerTsig(wire, name, t) && ClientTsig(wire, name, t)
  }

  /** The record behind these octets, at one place. */
  lemma {:induction false} HeadAndRdataAt(buf: Bytes, off: nat, wire: Bytes, name: string, rtype: int, rclass: int, ttl: int, rdata: Bytes,
                                          short: WireFailure)
    requires RrCarries(wire, name, rtype, rclass, ttl, rdata) && At(buf, off, wire)
    ensures |rdata| <= |wire| && off + |wire| <= |buf|
    ensures ReadRrHead(buf, off, short) == Ok(RrHead(name, rtype, rclass, ttl, off + |wire| - |rdata|, |rdata|))
    ensures At(buf, off + |wire| - |rdata|, rdata)
  {
  }

  lemma {:induction false} RdataAt(buf: Bytes, off: nat, rdata: Bytes, t: TsigData)
    requires RdataCarries(rdata, t) && At(buf, off, rdata)
    ensures ParseTsigRdata(buf, off, |rdata|) == Ok(t)
  {
  }

  lemma {:induction false} ServerReadsTsig(wire: Bytes, name: string, rdata: Bytes, t: TsigData)
    requires RrCarries(wire, name, TYPE_TSIG, CLASS_ANY, 0, rdata) && RdataCarries(rdata, t)
    ensures ServerTsig(wire, name, t)
  {
    forall buf, off: nat | At(buf, off, wire)
      ensures AdditionalRecord(buf, off, None) == Ok((off + |wire|, Some(Tsig(name, t, off))))
    {
      ServerReadsTsigAt(buf, off, wire, name, rdata, t);
    }
  }

  lemma {:induction false} ServerReadsTsigAt(buf: Bytes, off: nat, wire: Bytes, name: string, rdata: Bytes, t: TsigData)
    requires RrCarries(wire, name, TYPE_TSIG, CLASS_ANY, 0, rdata) && RdataCarries(rdata, t) && At(buf, off, wire)
    ensures AdditionalRecord(buf, off, None) == Ok((off + |wire|, Some(Tsig(name, t, off))))
  {
    HeadAndRdataAt(buf, off, wire, name, TYPE_TSIG, CLASS_ANY, 0, rdata, Malformed);
    RdataAt(buf, off + |wire| - |rdata|, rdata, t);
    ServerTakesTsig(buf, off, name, off + |wire| - |rdata|, |rdata|, t);
  }

  lemma {:induction false} ClientReadsTsig(wire: Bytes, name: string, rdata: Bytes, t: TsigData)
    requires RrCarries(wire, name, TYPE_TSIG, CLASS_ANY, 0, rdata) && RdataCarries(rdata, t)
    ensures ClientTsig(wire, name, t)
  {
    forall buf, off: nat | At(buf, off, wire)
      ensures ExtraRecord(buf, off, Extras([], None)).Ok?
      ensures ExtraRecord(buf, off, Extras([], None)).value.1.tsig == Some(Tsig(name, t, off))
    {
      HeadAndRdataAt(buf, off, wire, name, TYPE_TSIG, CLASS_ANY, 0, rdata, StructError);
      RdataAt(buf, off + |wire| - |rdata|, rdata, t);
      ClientTakesTsig(buf, off, name, off + |wire| - |rdata|, |rdata|, t);
    }
  }

  lemma {:induction false} TsigRrCarries(owner: Bytes, name: string, t: TsigData)
    requires Denotes(owner, name) && TsigInRange(t.time, t)
    ensures TsigCarries(TsigWire(owner, t), name, t)
  {
    TsigRdataCarries(t);
    AssembledCarries(owner, name, TYPE_TSIG, CLASS_ANY, 0, TsigRdataWire(t));
    ServerReadsTsig(TsigWire(owner, t), name, TsigRdataWire(t), t);
    ClientReadsTsig(TsigWire(owner, t), name, TsigRdataWire(t), t);
  }

  lemma {:induction false} KeyRecordCarries(keyName: string, t: TsigData)
    requires IsKeyName(keyName) && TsigInRange(t.time, t)
    ensures TsigCarries(TsigWire(KeyWire(keyName), t), keyName, t)
  {
    WireNameDenotes(keyName);
    TsigRrCarries(KeyWire(keyName), keyName, t);
  }

  /** Wherever these octets stand, the server reads `ns` authority records that carry `serial`. */
  ghost predicate AuthorityCarries(authority: Bytes, ns: nat, serial: Option<int>) {
    forall buf, off: nat {:trigger At(buf, off, authority)} :: At(buf, off, authority) ==>
      ReadRecords(AuthorityStep(buf), off, ns, None) == Ok((off + |authority|, serial))
  }

  lemma {:induction false} NoAuthority()
    ensures AuthorityCarries([], 0, None)
  {
  }

  /** Wherever these octets stand, a 32-bit number can be read from their start. */
  ghost predicate StartsWith32(wire: Bytes, n: int) {
    forall buf, off: nat {:trigger At(buf, off, wire)} :: At(buf, off, wire) ==> off + 4 <= |buf| && ReadU32(buf, off) == n
  }

  lemma {:induction false} SoaNumbersStart(serial: int)
    requires IsU32(serial)
    ensures StartsWith32(SoaNumbers(serial), serial)
  {
    var rest := U32(7200) + U32(3600) + U32(1209600) + U32(3600);
    forall buf, off: nat | At(buf, off, U32(serial) + rest) ensures off + 4 <= |buf| && ReadU32(buf, off) == serial {
      AtConcat(buf, off, U32(serial), rest);
      ReadsU32(buf, off, serial);
    }
  }

  /** Wherever these octets stand, two names and a 32-bit number can be read from them in turn. */
  ghost predicate SoaRdataCarries(rdata: Bytes, serial: int) {
    && 22 <= |rdata|
    && forall buf, off: nat {:trigger At(buf, off, rdata)} :: At(buf, off, rdata) ==> TwoNamesThen(buf, off, off + |rdata| - 20, serial)
  }

  ghost predicate TwoNamesThen(buf: Bytes, off: nat, p: nat, n: int) {
    && DecodeName(buf, off).Ok?
    && DecodeName(buf, DecodeName(buf, off).value.1).Ok?
    && DecodeName(buf, DecodeName(buf, off).value.1).value.1 == p
    && p + 4 <= |buf| && ReadU32(buf, p) == n
  }

  lemma {:induction false} NamesAt(buf: Bytes, off: nat, owner: Bytes, name: string, numbers: Bytes, serial: int, p: nat)
    requires Denotes(owner, name) && StartsWith32(numbers, serial) && p == off + |owner| + |owner|
    requires At(buf, off, owner) && At(buf, off + |owner|, owner) && At(buf, p, numbers)
    ensures TwoNamesThen(buf, off, p, serial)
  {
  }

  lemma {:induction false} NamesThenNumbers(owner: Bytes, name: string, numbers: Bytes, serial: int)
    requires Denotes(owner, name) && StartsWith32(numbers, serial) && |numbers| == 20 && |owner| > 0
    ensures SoaRdataCarries(owner + (owner + numbers), serial)
  {
    var rdata := owner + (owner + numbers);
    forall buf, off: nat | At(buf, off, rdata) ensures TwoNamesThen(buf, off, off + |rdata| - 20, serial) {
      AtConcat(buf, off, owner, owner + numbers);
      AtConcat(buf, off + |owner|, owner, numbers);
      NamesAt(buf, off, owner, name, numbers, serial, off + |rdata| - 20);
    }
  }

  lemma {:induction false} ServerTakesSoa(buf: Bytes, off: nat, name: string, rstart: nat, rdlen: nat, serial: int)
    requires ReadRrHead(buf, off, Malformed) == Ok(RrHead(name, TYPE_SOA, CLASS_IN, 3600, rstart, rdlen))
    requires 22 <= rdlen && rstart + rdlen <= |buf|
    requires TwoNamesThen(buf, rstart, rstart + rdlen - 20, serial)
    ensures AuthorityRecord(buf, off, None) == Ok((rstart + rdlen, Some(serial)))
  {
  }

  lemma {:induction false} SoaRecordCarries(authority: Bytes, name: string, rdata: Bytes, serial: int)
    requires RrCarries(authority, name, TYPE_SOA, CLASS_IN, 3600, rdata) && SoaRdataCarries(rdata, serial)
    ensures AuthorityCarries(authority, 1, Some(serial))
  {
    forall buf, off: nat | At(buf, off, authority)
      ensures ReadRecords(AuthorityStep(buf), off, 1, None) == Ok((off + |authority|, Some(serial)))
    {
      SoaRecordAt(buf, off, authority, name, rdata, serial);
      OneRecord(AuthorityStep(buf), off, None);
    }
  }

  lemma {:induction false} SoaRecordAt(buf: Bytes, off: nat, authority: Bytes, name: string, rdata: Bytes, serial: int)
    requires RrCarries(authority, name, TYPE_SOA, CLASS_IN, 3600, rdata) && SoaRdataCarries(rdata, serial) && At(buf, off, authority)
    ensures AuthorityStep(buf)(off, None) == Ok((off + |authority|, Some(serial)))
  {
    HeadAndRdataAt(buf, off, authority, name, TYPE_SOA, CLASS_IN, 3600, rdata, Malformed);
    ServerTakesSoa(buf, off, name, off + |authority| - |rdata|, |rdata|, serial);
  }

  lemma {:induction false} SoaAuthorityCarries(zone: string, serial: int)
    requires IsCanonical(zone) && IsU32(serial)
    ensures AuthorityCarries(SoaAuthority(zone, serial), 1, Some(serial))
  {
    var rdata := Encoded(zone) + (Encoded(zone) + SoaNumbers(serial));
    CanonicalDenotes(zone);
    SoaNumbersStart(serial);
    NamesThenNumbers(Encoded(zone), zone, SoaNumbers(serial), serial);
    AssembledCarries(Encoded(zone), zone, TYPE_SOA, CLASS_IN, 3600, rdata);
    SoaRecordCarries(SoaAuthority(zone, serial), zone, rdata, serial);
  }

  lemma {:induction false} OneRecord<A>(step: (nat, A) -> Result<(nat, A), WireFailure>, off: nat, found: A)
    ensures ReadRecords(step, off, 1, found) == step(off, found)
  {
  }

  // ---------------------------------------------------------------------------
  // Requests
  // ---------------------------------------------------------------------------

  /** At the start of any message, these twelve octets read as a header with the given fields. */
  ghost predicate HeaderCarries(header: Bytes, id: int, flags: int, qd: int, an: int, ns: int, ar: int) {
    && |header| == 12
    && forall buf {:trigger At(buf, 0, header)} :: At(buf, 0, header) ==>
        && ReadU16(buf, 0) == id && ReadU16(buf, 2) == flags && ReadU16(buf, 4) == qd
        && ReadU16(buf, 6) == an && ReadU16(buf, 8) == ns && ReadU16(buf, 10) == ar
  }

  lemma {:induction false} HeaderDenotes(id: int, flags: int, qd: int, an: int, ns: int, ar: int)
    requires IsU16(id) && IsU16(flags) && IsU16(qd) && IsU16(an) && IsU16(ns) && IsU16(ar)
    ensures HeaderCarries(Header(id, flags, qd, an, ns, ar), id, flags, qd, an, ns, ar)
  {
    var header := Header(id, flags, qd, an, ns, ar);
    forall buf | At(buf, 0, header)
      ensures ReadU16(buf, 0) == id && ReadU16(buf, 2) == flags && ReadU16(buf, 4) == qd
      ensures ReadU16(buf, 6) == an && ReadU16(buf, 8) == ns && ReadU16(buf, 10) == ar
    {
      ReadsHeader(buf, id, flags, qd, an, ns, ar);
    }
  }

  /** The message is these pieces one behind the other. */
  ghost predicate Consists(buf: Bytes, header: Bytes, question: Bytes, middle: Bytes, tail: Bytes) {
    && At(buf, 0, header) && At(buf, 12, question)
    && At(buf, 12 + |question|, middle) && At(buf, 12 + |question| + |middle|, tail)
    && |buf| == 12 + |question| + |middle| + |tail|
  }

  lemma {:induction false} Layout(buf: Bytes, header: Bytes, question: Bytes, middle: Bytes, tail: Bytes)
    requires buf == (header + (question + middle)) + tail && |header| == 12
    ensures Consists(buf, header, question, middle, tail)
  {
  }

  /** At offset 12 of any message, these octets read as the question for `name` and `qtype`. */
  ghost predicate QuestionCarries(question: Bytes, name: string, qtype: int) {
    && |question| >= 5
    && forall buf {:trigger At(buf, 12, question)} :: At(buf, 12, question) ==>
        && DecodeName(buf, 12) == Ok((name, 8 + |question|))
        && ReadU16(buf, 8 + |question|) == qtype && ReadU16(buf, 10 + |question|) == CLASS_IN
  }

  lemma {:induction false} AskingCarries(owner: Bytes, name: string, qtype: int)
    requires Denotes(owner, name) && IsU16(qtype) && |owner| > 0
    ensures QuestionCarries(owner + (U16(qtype) + U16(CLASS_IN)), name, qtype)
  {
    var question := owner + (U16(qtype) + U16(CLASS_IN));
    forall buf | At(buf, 12, question)
      ensures DecodeName(buf, 12) == Ok((name, 8 + |question|))
      ensures ReadU16(buf, 8 + |question|) == qtype && ReadU16(buf, 10 + |question|) == CLASS_IN
    {
      AtConcat(buf, 12, owner, U16(qtype) + U16(CLASS_IN));
      AtConcat(buf, 12 + |owner|, U16(qtype), U16(CLASS_IN));
      ReadsU16(buf, 12 + |owner|, qtype);
      ReadsU16(buf, 14 + |owner|, CLASS_IN);
    }
  }

  lemma {:induction false} QuestionDenotes(name: string, qtype: int)
    requires IsCanonical(name) && IsU16(qtype)
    ensures QuestionCarries(Question(name, qtype), name, qtype)
  {
    CanonicalDenotes(name);
    AskingCarries(Encoded(name), name, qtype);
  }

  /** The parse succeeded, and these are all the fields of the query. */
  ghost predicate Recovered(parsed: Result<Query, WireFailure>, id: int, flags: int, qname: string, qtype: int, qclass: int,
                            question: Bytes, tsig: Option<Tsig>, ar: int, raw: Bytes, serial: Option<int>) {
    && parsed.Ok?
    && parsed.value.id == id && parsed.value.flags == flags
    && parsed.value.qname == qname && parsed.value.qtype == qtype && parsed.value.qclass == qclass
    && parsed.value.rawQuestion == question
    && parsed.value.tsig == tsig && parsed.value.arcount == ar
    && parsed.value.raw == raw && parsed.value.clientSerial == serial
  }

  lemma {:induction false} AuthorityAt(buf: Bytes, end: nat, off: nat, authority: Bytes, ns: nat, serial: Option<int>)
    requires off == end + |authority| && AuthorityCarries(authority, ns, serial) && At(buf, end, authority)
    ensures ReadRecords(AuthorityStep(buf), end, ns, None) == Ok((off, serial))
  {
  }

  lemma {:induction false} TsigAt(buf: Bytes, off: nat, end: nat, wire: Bytes, keyName: string, t: TsigData)
    requires end == off + |wire| && ServerTsig(wire, keyName, t) && At(buf, off, wire)
    ensures AdditionalRecord(buf, off, None) == Ok((end, Some(Tsig(keyName, t, off))))
  {
  }

  lemma {:induction false} QuestionAt(buf: Bytes, question: Bytes, qname: string, qtype: int)
    requires QuestionCarries(question, qname, qtype) && At(buf, 12, question)
    ensures DecodeName(buf, 12) == Ok((qname, 8 + |question|))
    ensures 16 <= 12 + |question| <= |buf| && buf[12..12 + |question|] == question
    ensures ReadU16(buf, 8 + |question|) == qtype && ReadU16(buf, 10 + |question|) == CLASS_IN
  {
    AtSlice(buf, 12, question);
  }

  lemma {:induction false} HeaderAt(buf: Bytes, header: Bytes, id: int, flags: int, qd: int, an: int, ns: int, ar: int)
    requires HeaderCarries(header, id, flags, qd, an, ns, ar) && At(buf, 0, header)
    ensures 12 <= |buf|
    ensures ReadU16(buf, 0) == id && ReadU16(buf, 2) == flags && ReadU16(buf, 4) == qd
    ensures ReadU16(buf, 6) == an && ReadU16(buf, 8) == ns && ReadU16(buf, 10) == ar
  {
  }

  /** Where these octets stand, the server reads `ar` additional records, among them `tsig`, `skip` octets behind the first. */
  ghost predicate AdditionalCarries(tail: Bytes, ar: nat, tsig: Option<Tsig>, skip: nat) {
    forall buf, off: nat {:trigger At(buf, off, tail)} :: At(buf, off, tail) && (tsig.Some? ==> tsig.value.offset == off + skip) ==>
      ReadRecords(AdditionalStep(buf), off, ar, None) == Ok((off + |tail|, tsig))
  }

  lemma {:induction false} AdditionalAt(buf: Bytes, off: nat, tail: Bytes, ar: nat, tsig: Option<Tsig>, skip: nat)
    requires AdditionalCarries(tail, ar, tsig, skip) && At(buf, off, tail) && |buf| == off + |tail|
    requires tsig.Some? ==> tsig.value.offset == off + skip
    ensures ReadRecords(AdditionalStep(buf), off, ar, None) == Ok((|buf|, tsig))
  {
  }

  /** What a message has to say where for the server to read the given request from it. */
  ghost predicate Announces(buf: Bytes, qid: int, flags: int, question: Bytes, qname: string, qtype: int, end: nat, ns: nat, ar: nat) {
    && 16 <= end <= |buf| && buf[12..end] == question && 0 <= flags < FLAG_QR
    && ReadU16(buf, 0) == qid && ReadU16(buf, 2) == flags && ReadU16(buf, 4) == 1
    && ReadU16(buf, 6) == 0 && ReadU16(buf, 8) == ns && ReadU16(buf, 10) == ar
    && DecodeName(buf, 12) == Ok((qname, end - 4))
    && ReadU16(buf, end - 4) == qtype && ReadU16(buf, end - 2) == CLASS_IN
  }

  lemma {:induction false} PiecesAnnounce(buf: Bytes, header: Bytes, qid: int, flags: int, question: Bytes, qname: string, qtype: int, ns: nat, ar: nat)
    requires At(buf, 0, header) && At(buf, 12, question) && 0 <= flags < FLAG_QR
    requires HeaderCarries(header, qid, flags, 1, 0, ns, ar) && QuestionCarries(question, qname, qtype)
    ensures Announces(buf, qid, flags, question, qname, qtype, 12 + |question|, ns, ar)
  {
    HeaderAt(buf, header, qid, flags, 1, 0, ns, ar);
    QuestionAt(buf, question, qname, qtype);
  }

  /** What the server makes of a request, in full. */
  lemma {:induction false} ParsesRequest(buf: Bytes, header: Bytes, qid: int, flags: int, question: Bytes, qname: string, qtype: int,
                                         authority: Bytes, ns: nat, serial: Option<int>, tail: Bytes, ar: nat, tsig: Option<Tsig>, skip: nat)
    requires Consists(buf, header, question, authority, tail) && 0 <= flags < FLAG_QR
    requires HeaderCarries(header, qid, flags, 1, 0, ns, ar) && QuestionCarries(question, qname, qtype)
    requires AuthorityCarries(authority, ns, serial)
    requires AdditionalCarries(tail, ar, tsig, skip) && (tsig.Some? ==> tsig.value.offset == 12 + |question| + |authority| + skip)
    ensures Recovered(ParseQuery(buf), qid, flags, qname, qtype, CLASS_IN, question, tsig, ar, buf, serial)
  {
    PiecesAnnounce(buf, header, qid, flags, question, qname, qtype, ns, ar);
    ParsesAt(buf, qid, flags, question, qname, qtype, 12 + |question|, authority, ns, serial, tail, ar, tsig, skip);
  }

  lemma {:induction false} ParsesAt(buf: Bytes, qid: int, flags: int, question: Bytes, qname: string, qtype: int, end: nat,
                                    authority: Bytes, ns: nat, serial: Option<int>, tail: Bytes, ar: nat, tsig: Option<Tsig>, skip: nat)
    requires Announces(buf, qid, flags, question, qname, qtype, end, ns, ar)
    requires At(buf, end, authority) && AuthorityCarries(authority, ns, serial)
    requires At(buf, end + |authority|, tail) && |buf| == end + |authority| + |tail| && AdditionalCarries(tail, ar, tsig, skip)
    requires tsig.Some? ==> tsig.value.offset == end + |authority| + skip
    ensures Recovered(ParseQuery(buf), qid, flags, qname, qtype, CLASS_IN, question, tsig, ar, buf, serial)
  {
    var off := end + |authority|;
    AuthorityAt(buf, end, off, authority, ns, serial);
    AdditionalAt(buf, off, tail, ar, tsig, skip);
    SectionsRecovered(buf, qid, flags, question, qname, qtype, end, ns, serial, off, ar, tsig);
  }

  lemma {:induction false} SectionsRecovered(buf: Bytes, qid: int, flags: int, question: Bytes, qname: string, qtype: int, end: nat,
                                             ns: nat, serial: Option<int>, off: nat, ar: nat, tsig: Option<Tsig>)
    requires Announces(buf, qid, flags, question, qname, qtype, end, ns, ar)
    requires ReadRecords(AuthorityStep(buf), end, ns, None) == Ok((off, serial))
    requires ReadRecords(AdditionalStep(buf), off, ar, None) == Ok((|buf|, tsig))
    ensures Recovered(ParseQuery(buf), qid, flags, qname, qtype, CLASS_IN, question, tsig, ar, buf, serial)
  {
    assert ParseQuery(buf) == ReadSections(buf, qname, end);
  }

  /** The one additional record of the client's own requests. */
  lemma {:induction false} OneTsig(wire: Bytes, tsig: Tsig)
    requires ServerTsig(wire, tsig.name, tsig.data)
    ensures AdditionalCarries(wire, 1, Some(tsig), 0)
  {
    forall buf, off: nat | At(buf, off, wire) && tsig.offset == off
      ensures ReadRecords(AdditionalStep(buf), off, 1, None) == Ok((off + |wire|, Some(tsig)))
    {
      OneRecord(AdditionalStep(buf), off, None);
      TsigAt(buf, off, off + |wire|, wire, tsig.name, tsig.data);
    }
  }

  /** The client's authority section: its SOA for an incremental request, else nothing. */
  function AuthorityFor(qname: string, serial: Option<int>): Bytes
    requires IsCanonical(qname) && (serial.Some? ==> IsU32(serial.value))
  {
    if serial.Some? then SoaAuthority(qname, serial.value) else []
  }

  /** The fields a client gives the names of. */
  ghost predicate RequestFields(qid: int, qname: string, qtype: int, keyName: string, when: int, fudge: int, serial: Option<int>) {
    && IsU16(qid) && IsCanonical(qname) && IsU16(qtype) && IsKeyName(keyName)
    && 0 <= when < 0x1_0000_0000_0000 && IsU16(fudge)
    && (serial.Some? ==> IsU32(serial.value))
  }

  lemma {:induction false} AuthorityForCarries(qname: string, serial: Option<int>)
    requires IsCanonical(qname) && (serial.Some? ==> IsU32(serial.value))
    ensures var authority := AuthorityFor(qname, serial);
            AuthorityCarries(authority, if authority != [] then 1 else 0, serial)
  {
    if serial.Some? {
      SoaAuthorityCarries(qname, serial.value);
    } else {
      NoAuthority();
    }
  }

  /** The pieces of the client's request and what each of them carries. */
  lemma {:induction false} RequestPieces(hmac: Hmac, qid: int, qname: string, qtype: int, keyName: string, secret: Bytes,
                                         when: int, fudge: int, serial: Option<int>, authority: Bytes, t: TsigData)
    returns (header: Bytes, question: Bytes, ns: nat, tsig: Bytes)
    requires RequestFields(qid, qname, qtype, keyName, when, fudge, serial) && authority == AuthorityFor(qname, serial)
    requires t == TsigData(ALGORITHM_NAME, when, fudge, RequestMac(hmac, qid, qname, qtype, keyName, secret, when, fudge, authority), qid, 0, [])
    ensures RequestBase(qid, qname, qtype, authority) == header + (question + authority)
    ensures BuildTsigQuery(hmac, qid, qname, qtype, keyName, secret, when, fudge, authority) == (header + (question + authority)) + tsig
    ensures question == Question(qname, qtype)
    ensures HeaderCarries(header, qid, 0x0100, 1, 0, ns, 1) && QuestionCarries(question, qname, qtype)
    ensures AuthorityCarries(authority, ns, serial) && TsigCarries(tsig, keyName, t)
  {
    ns := if authority != [] then 1 else 0;
    header, question, tsig := Header(qid, 0x0100, 1, 0, ns, 1), Question(qname, qtype), TsigWire(KeyWire(keyName), t);
    HeaderDenotes(qid, 0x0100, 1, 0, ns, 1);
    AuthorityForCarries(qname, serial);
    QuestionDenotes(qname, qtype);
    KeyRecordCarries(keyName, t);
  }

  /**
   The server accepts every request the client builds and recovers all that went into it:
   identifier, zone, type, key name, time, fudge, MAC, and the client's serial if it gave one.
   */
  lemma {:induction false} RequestRoundTrip(hmac: Hmac, qid: int, qname: string, qtype: int, keyName: string, secret: Bytes,
                                            when: int, fudge: int, serial: Option<int>)
    requires RequestFields(qid, qname, qtype, keyName, when, fudge, serial)
    ensures var authority := AuthorityFor(qname, serial);
            var mac := RequestMac(hmac, qid, qname, qtype, keyName, secret, when, fudge, authority);
            var buf := BuildTsigQuery(hmac, qid, qname, qtype, keyName, secret, when, fudge, authority);
            Recovered(ParseQuery(buf), qid, 0x0100, qname, qtype, CLASS_IN, Question(qname, qtype),
                      Some(Tsig(keyName, TsigData(ALGORITHM_NAME, when, fudge, mac, qid, 0, []), |RequestBase(qid, qname, qtype, authority)|)),
                      1, buf, serial)
  {
    var authority := AuthorityFor(qname, serial);
    var mac := RequestMac(hmac, qid, qname, qtype, keyName, secret, when, fudge, authority);
    var t := TsigData(ALGORITHM_NAME, when, fudge, mac, qid, 0, []);
    var header, question, ns, tsig := RequestPieces(hmac, qid, qname, qtype, keyName, secret, when, fudge, serial, authority, t);
    var buf := BuildTsigQuery(hmac, qid, qname, qtype, keyName, secret, when, fudge, authority);
    Layout(buf, header, question, authority, tsig);
    var record := Tsig(keyName, t, |RequestBase(qid, qname, qtype, authority)|);
    OneTsig(tsig, record);
    ParsesRequest(buf, header, qid, 0x0100, question, qname, qtype, authority, ns, serial, tsig, 1, Some(record), 0);
  }

  /** The octets the server hashes for a parsed request whose TSIG record stands behind `base`. */
  lemma {:induction false} ServerHashes(hmac: Hmac, secret: Bytes, q: Query, base: Bytes, keyName: string, when: int, fudge: int, mac: Bytes, qid: int)
    requires IsKeyName(keyName) && IsU16(fudge) && q.arcount == 1 && TsigFound(q.raw, q.tsig)
    requires q.tsig == Some(Tsig(keyName, TsigData(ALGORITHM_NAME, when, fudge, mac, qid, 0, []), |base|))
    requires |base| <= |q.raw| && q.raw[..|base|] == base
    ensures ExpectedRequestMac(hmac, secret, q)
         == Ok(hmac(secret, PatchArcount(base, 1) + TsigVariables(KeyWire(keyName), when, fudge, 0, [])))
  {
    assert Slice(q.raw, 0, |base|) == base;
  }

  /**
   Whatever secret the server looks up, it hashes the very octets the client hashed; so the
   MAC matches whenever both hold the same secret, and it is the key, never the framing of
   the request, that a mismatch blames.
   */
  lemma {:induction false} RequestDigestAgrees(hmac: Hmac, qid: int, qname: string, qtype: int, keyName: string, secret: Bytes,
                                               when: int, fudge: int, serial: Option<int>, serverSecret: Bytes)
    requires RequestFields(qid, qname, qtype, keyName, when, fudge, serial)
    ensures var authority := AuthorityFor(qname, serial);
            var parsed := ParseQuery(BuildTsigQuery(hmac, qid, qname, qtype, keyName, secret, when, fudge, authority));
            && parsed.Ok? && parsed.value.tsig.Some? && TsigFound(parsed.value.raw, parsed.value.tsig)
            && parsed.value.arcount == 1
            && ExpectedRequestMac(hmac, serverSecret, parsed.value)
               == Ok(RequestMac(hmac, qid, qname, qtype, keyName, serverSecret, when, fudge, authority))
  {
    var authority := AuthorityFor(qname, serial);
    var base := RequestBase(qid, qname, qtype, authority);
    var buf := BuildTsigQuery(hmac, qid, qname, qtype, keyName, secret, when, fudge, authority);
    RequestRoundTrip(hmac, qid, qname, qtype, keyName, secret, when, fudge, serial);
    ParseQuerySound(buf);
    assert buf[..|base|] == base;
    ServerHashes(hmac, serverSecret, ParseQuery(buf).value, base, keyName, when, fudge,
                 RequestMac(hmac, qid, qname, qtype, keyName, secret, when, fudge, authority), qid);
  }
}
