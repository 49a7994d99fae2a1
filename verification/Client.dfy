/** The client end of a transfer (app/dnsclient.py): building requests, reading and checking responses. */
module Client {
  import opened Basics
  import opened Names
  import opened NameCodec
  import opened Serial
  import opened Wire
  import opened QueryParser
  import opened Signing

  // ---------------------------------------------------------------------------
  // Requests
  // ---------------------------------------------------------------------------

  function Question(name: string, qtype: int): (bs: Bytes)
    requires IsCanonical(name) && IsU16(qtype)
    ensures |bs| == |name| + 5
  {
    Encoded(name) + (U16(qtype) + U16(CLASS_IN))
  }

  function SoaNumbers(serial: int): (bs: Bytes)
    requires IsU32(serial)
    ensures |bs| == 20
  {
    U32(serial) + (U32(7200) + U32(3600) + U32(1209600) + U32(3600))
  }

  /** The SOA record by which an IXFR request names the client's serial. */
  function SoaAuthority(zone: string, serial: int): (bs: Bytes)
    requires IsCanonical(zone) && IsU32(serial)
    ensures |bs| == 3 * |zone| + 33
  {
    PackRr(zone, TYPE_SOA, CLASS_IN, 3600, Encoded(zone) + (Encoded(zone) + SoaNumbers(serial)))
  }

  /** The request before its TSIG record. */
  function RequestBase(qid: int, qname: string, qtype: int, authority: Bytes): Bytes
    requires IsU16(qid) && IsCanonical(qname) && IsU16(qtype)
  {
    Header(qid, 0x0100, 1, 0, if authority != [] then 1 else 0, 1) + (Question(qname, qtype) + authority)
  }

  function RequestMac(hmac: Hmac, qid: int, qname: string, qtype: int, keyName: string, secret: Bytes,
                      when: int, fudge: int, authority: Bytes): Mac
    requires IsU16(qid) && IsCanonical(qname) && IsU16(qtype) && IsKeyName(keyName) && IsU16(fudge)
  {
    hmac(secret, PatchArcount(RequestBase(qid, qname, qtype, authority), 1) + TsigVariables(KeyWire(keyName), when, fudge, 0, []))
  }

  function BuildTsigQuery(hmac: Hmac, qid: int, qname: string, qtype: int, keyName: string, secret: Bytes,
                          when: int, fudge: int, authority: Bytes): Bytes
    requires IsU16(qid) && IsCanonical(qname) && IsU16(qtype) && IsKeyName(keyName) && IsU16(fudge)
  {
    RequestBase(qid, qname, qtype, authority)
    + TsigRr(KeyWire(keyName), when, fudge, RequestMac(hmac, qid, qname, qtype, keyName, secret, when, fudge, authority), qid, 0, [])
  }

  // ---------------------------------------------------------------------------
  // Responses
  // ---------------------------------------------------------------------------

  datatype Rr = Rr(name: string, rtype: int, rclass: int, ttl: int, rdata: Bytes)

  datatype Message = Message(id: int, flags: int, qname: string, qtype: int, answers: seq<Rr>, authority: seq<Rr>,
                             additionals: seq<Rr>, tsig: Option<Tsig>, arcount: int, raw: Bytes)

  function RrOf(buf: Bytes, rr: RrHead): Rr {
    Rr(rr.name, rr.rtype, rr.rclass, rr.ttl, Slice(buf, rr.rstart, rr.rstart + rr.rdlen))
  }

  function RrRecord(buf: Bytes, off: nat, found: seq<Rr>): Result<(nat, seq<Rr>), WireFailure> {
    match ReadRrHead(buf, off, StructError)
    case Err(e) => Err(e)
    case Ok(rr) => Ok((rr.rstart + rr.rdlen, found + [RrOf(buf, rr)]))
  }

  function RrStep(buf: Bytes): (nat, seq<Rr>) -> Result<(nat, seq<Rr>), WireFailure> {
    (off: nat, found: seq<Rr>) => RrRecord(buf, off, found)
  }

  datatype Extras = Extras(records: seq<Rr>, tsig: Option<Tsig>)

  /** An additional record; unlike the server, the client takes the last TSIG record for the one. */
  function ExtraRecord(buf: Bytes, off: nat, found: Extras): Result<(nat, Extras), WireFailure> {
    match ReadRrHead(buf, off, StructError)
    case Err(e) => Err(e)
    case Ok(rr) =>
      var records := found.records + [RrOf(buf, rr)];
      if rr.rtype != TYPE_TSIG then Ok((rr.rstart + rr.rdlen, Extras(records, found.tsig)))
      else
        match ParseTsigRdata(buf, rr.rstart, rr.rdlen)
        case Err(e) => Err(e)
        case Ok(data) => Ok((rr.rstart + rr.rdlen, Extras(records, Some(Tsig(rr.name, data, off)))))
  }

  function ExtraStep(buf: Bytes): (nat, Extras) -> Result<(nat, Extras), WireFailure> {
    (off: nat, found: Extras) => ExtraRecord(buf, off, found)
  }

  /** The three sections of records that follow the question, which ends at `end`. */
  function MessageBody(buf: Bytes, qname: string, end: nat): Result<Message, WireFailure>
    requires 16 <= end <= |buf|
  {
    match ReadRecords(RrStep(buf), end, ReadU16(buf, 6), [])
    case Err(e) => Err(e)
    case Ok((p, answers)) =>
      match ReadRecords(RrStep(buf), p, ReadU16(buf, 8), [])
      case Err(e) => Err(e)
      case Ok((q, authority)) =>
        match ReadRecords(ExtraStep(buf), q, ReadU16(buf, 10), Extras([], None))
        case Err(e) => Err(e)
        case Ok((_, extras)) =>
          Ok(Message(ReadU16(buf, 0), ReadU16(buf, 2), qname, ReadU16(buf, end - 4), answers, authority,
                     extras.records, extras.tsig, ReadU16(buf, 10), buf))
  }

  function ParseMessage(buf: Bytes): Result<Message, WireFailure> {
    if |buf| < 12 then Err(StructError)
    else
      match DecodeName(buf, 12)
      case Err(e) => Err(e)
      case Ok((qname, p)) => if p + 4 > |buf| then Err(StructError) else MessageBody(buf, qname, p + 4)
  }

  method ParseMessageLoop(buf: Bytes) returns (r: Result<Message, WireFailure>)
    ensures r == ParseMessage(buf)
  {
    if |buf| < 12 {
      return Err(StructError);
    }
    var named := DecodeNameLoop(buf, 12);
    if named.Err? {
      return Err(named.error);
    }
    var end: nat := named.value.1 + 4;
    if end > |buf| {
      return Err(StructError);
    }
    r := MessageBodyLoop(buf, named.value.0, end);
  }

  method MessageBodyLoop(buf: Bytes, qname: string, end: nat) returns (r: Result<Message, WireFailure>)
    requires 16 <= end <= |buf|
    ensures r == MessageBody(buf, qname, end)
  {
    var answers := ReadRecordsLoop(RrStep(buf), end, ReadU16(buf, 6), []);
    if answers.Err? {
      return Err(answers.error);
    }
    var authority := ReadRecordsLoop(RrStep(buf), answers.value.0, ReadU16(buf, 8), []);
    if authority.Err? {
      return Err(authority.error);
    }
    var extras := ReadRecordsLoop(ExtraStep(buf), authority.value.0, ReadU16(buf, 10), Extras([], None));
    if extras.Err? {
      return Err(extras.error);
    }
    r := Ok(Message(ReadU16(buf, 0), ReadU16(buf, 2), qname, ReadU16(buf, end - 4), answers.value.1, authority.value.1,
                    extras.value.1.records, extras.value.1.tsig, ReadU16(buf, 10), buf));
  }

  /** The MAC of a signed response, for chaining; None when it is unsigned or the MAC is wrong. */
  function VerifyResponseMac(hmac: Hmac, msg: Message, secret: Bytes, prior: Bytes, keyName: string): Option<Bytes>
    requires IsKeyName(keyName) && IsU16(|prior|) && IsU16(msg.arcount)
  {
    if msg.tsig.None? then None
    else
      var t := msg.tsig.value.data;
      if !IsU16(t.fudge) || !IsU16(t.error) || |t.other| > MAX_OTHER then None
      else
        var base := PatchArcount(Slice(msg.raw, 0, msg.tsig.value.offset), msg.arcount);
        if hmac(secret, ResponseBlock(prior, base, KeyWire(keyName), t.time, t.fudge, t.error, t.other)) == t.mac
        then Some(t.mac) else None
  }
}
