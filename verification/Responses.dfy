/**
 What the client reads from the messages of a transfer: the records that were packed into
 each, and, in the first and the last, a TSIG record whose MAC it recomputes to the octet.
 */
module Responses {
  import opened Basics
  import opened Names
  import opened NameCodec
  import opened Serial
  import opened Wire
  import opened QueryParser
  import opened Signing
  import opened Client
  import opened Packing
  import opened RoundTrips
  import opened SignedStream

  // ---------------------------------------------------------------------------
  // Records
  // ---------------------------------------------------------------------------

  /** A record that `pack_rr` can print. */
  predicate RrOk(rr: Rr) {
    IsCanonical(rr.name) && IsU16(rr.rtype) && IsU16(rr.rclass) && IsU32(rr.ttl) && IsU16(|rr.rdata|)
  }

  predicate RrsOk(rrs: seq<Rr>) {
    forall i :: 0 <= i < |rrs| ==> RrOk(rrs[i])
  }

  function Printed(rr: Rr): Bytes
    requires RrOk(rr)
  {
    PackRr(rr.name, rr.rtype, rr.rclass, rr.ttl, rr.rdata)
  }

  function PrintAll(rrs: seq<Rr>): seq<Bytes>
    requires RrsOk(rrs)
  {
    seq(|rrs|, i requires 0 <= i < |rrs| => Printed(rrs[i]))
  }

  /** Wherever these octets stand, the client reads `rr` from them. */
  ghost predicate RecordCarries(wire: Bytes, rr: Rr) {
    forall buf, off: nat, found: seq<Rr> {:trigger At(buf, off, wire), RrRecord(buf, off, found)} ::
      At(buf, off, wire) ==> RrRecord(buf, off, found) == Ok((off + |wire|, found + [rr]))
  }

  lemma {:induction false} ClientTakesRr(buf: Bytes, off: nat, found: seq<Rr>, rr: Rr, rstart: nat)
    requires ReadRrHead(buf, off, StructError) == Ok(RrHead(rr.name, rr.rtype, rr.rclass, rr.ttl, rstart, |rr.rdata|))
    requires At(buf, rstart, rr.rdata)
    ensures RrRecord(buf, off, found) == Ok((rstart + |rr.rdata|, found + [rr]))
  {
    AtSlice(buf, rstart, rr.rdata);
  }

  lemma {:induction false} HeadAndRdataCarry(wire: Bytes, rr: Rr)
    requires RrCarries(wire, rr.name, rr.rtype, rr.rclass, rr.ttl, rr.rdata)
    ensures RecordCarries(wire, rr)
  {
    forall buf, off: nat, found: seq<Rr> | At(buf, off, wire)
      ensures RrRecord(buf, off, found) == Ok((off + |wire|, found + [rr]))
    {
      ClientTakesRr(buf, off, found, rr, off + |wire| - |rr.rdata|);
    }
  }

  lemma {:induction false} PrintedCarries(rr: Rr)
    requires RrOk(rr)
    ensures RecordCarries(Printed(rr), rr)
  {
    CanonicalDenotes(rr.name);
    AssembledCarries(Encoded(rr.name), rr.name, rr.rtype, rr.rclass, rr.ttl, rr.rdata);
    HeadAndRdataCarry(Printed(rr), rr);
  }

  lemma {:induction false} RecordAt(buf: Bytes, off: nat, wire: Bytes, rr: Rr, found: seq<Rr>, next: nat)
    requires RecordCarries(wire, rr) && At(buf, off, wire) && next == off + |wire|
    ensures RrRecord(buf, off, found) == Ok((next, found + [rr]))
  {
  }

  /** Each of these octet strings carries the record of the same rank. */
  ghost predicate AllCarry(wires: seq<Bytes>, rrs: seq<Rr>) {
    && |wires| == |rrs|
    && (rrs == [] || (RecordCarries(wires[0], rrs[0]) && AllCarry(wires[1..], rrs[1..])))
  }

  /** From `off` to `end`, `step` moves from record to record and adds one after the other to what was found. */
  ghost predicate StepsThrough(step: (nat, seq<Rr>) -> Result<(nat, seq<Rr>), WireFailure>, off: nat, ends: seq<nat>, rrs: seq<Rr>)
    requires |ends| == |rrs|
    decreases |rrs|
  {
    rrs == []
    || (&& (forall found :: step(off, found) == Ok((ends[0], found + [rrs[0]])))
        && StepsThrough(step, ends[0], ends[1..], rrs[1..]))
  }

  lemma {:induction false} StepsAddUp(step: (nat, seq<Rr>) -> Result<(nat, seq<Rr>), WireFailure>, off: nat, ends: seq<nat>, rrs: seq<Rr>, found: seq<Rr>)
    requires |ends| == |rrs| && StepsThrough(step, off, ends, rrs)
    ensures ReadRecords(step, off, |rrs|, found) == Ok((if rrs == [] then off else ends[|rrs| - 1], found + rrs))
    decreases |rrs|
  {
    if rrs == [] {
      assert found + rrs == found;
    } else {
      assert step(off, found) == Ok((ends[0], found + [rrs[0]]));
      StepsAddUp(step, ends[0], ends[1..], rrs[1..], found + [rrs[0]]);
      assert (found + [rrs[0]]) + rrs[1..] == found + rrs;
    }
  }

  /** Where each of the records that start at `off` ends. */
  function Ends(off: nat, wires: seq<Bytes>): (ends: seq<nat>)
    ensures |ends| == |wires|
    ensures wires != [] ==> ends[|wires| - 1] == off + |Concat(wires)|
    decreases |wires|
  {
    if wires == [] then []
    else
      assert |wires| == 1 ==> Concat(wires[1..]) == [];
      [off + |wires[0]|] + Ends(off + |wires[0]|, wires[1..])
  }

  lemma {:induction false} SectionSteps(buf: Bytes, off: nat, wires: seq<Bytes>, rrs: seq<Rr>)
    requires AllCarry(wires, rrs) && At(buf, off, Concat(wires))
    ensures StepsThrough(RrStep(buf), off, Ends(off, wires), rrs)
    decreases |rrs|
  {
    if rrs != [] {
      var next := off + |wires[0]|;
      AtConcat(buf, off, wires[0], Concat(wires[1..]));
      forall found ensures RrStep(buf)(off, found) == Ok((next, found + [rrs[0]])) {
        RecordAt(buf, off, wires[0], rrs[0], found, next);
      }
      SectionSteps(buf, next, wires[1..], rrs[1..]);
      assert Ends(off, wires)[1..] == Ends(next, wires[1..]);
    }
  }

  /** A section made of one printed record after the other reads back as those records. */
  lemma {:induction false} ReadsSection(buf: Bytes, off: nat, wires: seq<Bytes>, rrs: seq<Rr>, end: nat)
    requires AllCarry(wires, rrs) && At(buf, off, Concat(wires)) && end == off + |Concat(wires)|
    ensures ReadRecords(RrStep(buf), off, |rrs|, []) == Ok((end, rrs))
  {
    SectionSteps(buf, off, wires, rrs);
    StepsAddUp(RrStep(buf), off, Ends(off, wires), rrs, []);
    assert [] + rrs == rrs;
  }

  /** Wherever these octets stand, the client reads these records from them. */
  ghost predicate AnswersCarry(body: Bytes, rrs: seq<Rr>) {
    forall buf, off: nat {:trigger At(buf, off, body)} ::
      At(buf, off, body) ==> ReadRecords(RrStep(buf), off, |rrs|, []) == Ok((off + |body|, rrs))
  }

  lemma {:induction false} ConcatCarries(wires: seq<Bytes>, rrs: seq<Rr>)
    requires AllCarry(wires, rrs)
    ensures AnswersCarry(Concat(wires), rrs)
  {
    forall buf, off: nat | At(buf, off, Concat(wires))
      ensures ReadRecords(RrStep(buf), off, |rrs|, []) == Ok((off + |Concat(wires)|, rrs))
    {
      ReadsSection(buf, off, wires, rrs, off + |Concat(wires)|);
    }
  }

  lemma {:induction false} AllCarryCons(wire: Bytes, rr: Rr, wires: seq<Bytes>, rrs: seq<Rr>)
    requires RecordCarries(wire, rr) && AllCarry(wires, rrs)
    ensures AllCarry([wire] + wires, [rr] + rrs)
  {
    assert ([wire] + wires)[1..] == wires && ([rr] + rrs)[1..] == rrs;
  }

  lemma {:induction false} PrintedAllCarry(rrs: seq<Rr>)
    requires RrsOk(rrs)
    ensures AllCarry(PrintAll(rrs), rrs)
  {
    if rrs != [] {
      PrintedCarries(rrs[0]);
      PrintedAllCarry(rrs[1..]);
      AllCarryCons(Printed(rrs[0]), rrs[0], PrintAll(rrs[1..]), rrs[1..]);
      assert PrintAll(rrs) == [Printed(rrs[0])] + PrintAll(rrs[1..]);
      assert rrs == [rrs[0]] + rrs[1..];
    }
  }

  lemma {:induction false} PrintedAnswersCarry(rrs: seq<Rr>)
    requires RrsOk(rrs)
    ensures AnswersCarry(Concat(PrintAll(rrs)), rrs)
  {
    PrintedAllCarry(rrs);
    ConcatCarries(PrintAll(rrs), rrs);
  }

  // ---------------------------------------------------------------------------
  // Messages
  // ---------------------------------------------------------------------------

  /** The parse succeeded, with these answers and no authority records, and with this TSIG record if any. */
  ghost predicate Understood(parsed: Result<Message, WireFailure>, id: int, flags: int, qname: string, qtype: int,
                             answers: seq<Rr>, tsig: Option<Tsig>, raw: Bytes) {
    && parsed.Ok?
    && parsed.value.id == id && parsed.value.flags == flags && parsed.value.qname == qname && parsed.value.qtype == qtype
    && parsed.value.answers == answers && parsed.value.authority == []
    && parsed.value.tsig == tsig && parsed.value.arcount == (if tsig.Some? then 1 else 0)
    && parsed.value.raw == raw
  }

  lemma {:induction false} ParsesBody(buf: Bytes, qname: string, p: nat)
    requires 12 <= p && p + 4 <= |buf| && DecodeName(buf, 12) == Ok((qname, p))
    ensures ParseMessage(buf) == MessageBody(buf, qname, p + 4)
  {
  }

  lemma {:induction false} BodyOfMessage(buf: Bytes, qname: string, end: nat, p: nat, next: nat, answers: seq<Rr>, extras: Extras, ar: nat)
    requires 16 <= end <= |buf|
    requires ReadU16(buf, 6) == |answers| && ReadU16(buf, 8) == 0 && ReadU16(buf, 10) == ar
    requires ReadRecords(RrStep(buf), end, |answers|, []) == Ok((p, answers))
    requires ReadRecords(ExtraStep(buf), p, ar, Extras([], None)) == Ok((next, extras))
    requires ar == if extras.tsig.Some? then 1 else 0
    ensures Understood(MessageBody(buf, qname, end), ReadU16(buf, 0), ReadU16(buf, 2), qname, ReadU16(buf, end - 4),
                       answers, extras.tsig, buf)
  {
  }

  lemma {:induction false} AnswersAt(buf: Bytes, off: nat, body: Bytes, rrs: seq<Rr>, p: nat)
    requires AnswersCarry(body, rrs) && At(buf, off, body) && p == off + |body|
    ensures ReadRecords(RrStep(buf), off, |rrs|, []) == Ok((p, rrs))
  {
  }

  /** No additional records, or the one TSIG record. */
  lemma {:induction false} ExtrasAt(buf: Bytes, p: nat, wire: Bytes, tsig: Option<Tsig>) returns (next: nat, extras: Extras)
    requires tsig.Some? ==> ClientTsig(wire, tsig.value.name, tsig.value.data) && At(buf, p, wire) && tsig.value.offset == p
    ensures ReadRecords(ExtraStep(buf), p, if tsig.Some? then 1 else 0, Extras([], None)) == Ok((next, extras))
    ensures extras.tsig == tsig
  {
    if tsig.Some? {
      OneRecord(ExtraStep(buf), p, Extras([], None));
      var r := ExtraRecord(buf, p, Extras([], None));
      assert r.Ok? && r.value.1.tsig == tsig;
      next, extras := r.value.0, r.value.1;
    } else {
      next, extras := p, Extras([], None);
    }
  }

  /** What the client makes of a response, in full. */
  lemma {:induction false} ParsesResponse(buf: Bytes, header: Bytes, id: int, flags: int, question: Bytes, qname: string, qtype: int,
                                          body: Bytes, rrs: seq<Rr>, wire: Bytes, tsig: Option<Tsig>)
    requires buf == (header + (question + body)) + wire
    requires HeaderCarries(header, id, flags, 1, |rrs|, 0, if tsig.Some? then 1 else 0)
    requires QuestionCarries(question, qname, qtype) && AnswersCarry(body, rrs)
    requires tsig.Some? ==> ClientTsig(wire, tsig.value.name, tsig.value.data)
    requires tsig.Some? ==> tsig.value.offset == 12 + |question| + |body|
    ensures Understood(ParseMessage(buf), id, flags, qname, qtype, rrs, tsig, buf)
  {
    var end := 12 + |question|;
    var p := end + |body|;
    Layout(buf, header, question, body, wire);
    HeaderAt(buf, header, id, flags, 1, |rrs|, 0, if tsig.Some? then 1 else 0);
    QuestionAt(buf, question, qname, qtype);
    AnswersAt(buf, end, body, rrs, p);
    var next, extras := ExtrasAt(buf, p, wire, tsig);
    MessageAt(buf, id, flags, qname, qtype, end, p, next, rrs, extras, tsig);
  }

  lemma {:induction false} MessageAt(buf: Bytes, id: int, flags: int, qname: string, qtype: int, end: nat, p: nat, next: nat,
                                     rrs: seq<Rr>, extras: Extras, tsig: Option<Tsig>)
    requires 16 <= end <= |buf| && DecodeName(buf, 12) == Ok((qname, end - 4))
    requires ReadU16(buf, 0) == id && ReadU16(buf, 2) == flags && ReadU16(buf, end - 4) == qtype
    requires ReadU16(buf, 6) == |rrs| && ReadU16(buf, 8) == 0 && ReadU16(buf, 10) == if tsig.Some? then 1 else 0
    requires ReadRecords(RrStep(buf), end, |rrs|, []) == Ok((p, rrs))
    requires ReadRecords(ExtraStep(buf), p, if tsig.Some? then 1 else 0, Extras([], None)) == Ok((next, extras))
    requires extras.tsig == tsig
    ensures Understood(ParseMessage(buf), id, flags, qname, qtype, rrs, tsig, buf)
  {
    ParsesBody(buf, qname, end - 4);
    BodyOfMessage(buf, qname, end, p, next, rrs, extras, if tsig.Some? then 1 else 0);
  }

  // ---------------------------------------------------------------------------
  // Plain and signed messages
  // ---------------------------------------------------------------------------

  /** The names and numbers a transfer is about, and the secret both ends hold. */
  ghost predicate Agreed(s: Session, keyName: string, zone: string, qtype: int) {
    && SessionOk(s) && IsKeyName(keyName) && s.owner == KeyWire(keyName)
    && IsCanonical(zone) && IsU16(qtype)
    && 0 <= s.when < 0x1_0000_0000_0000
  }

  /** The plain message that holds these records. */
  function Plain(s: Session, zone: string, qtype: int, rrs: seq<Rr>): Bytes
    requires SessionOk(s) && IsCanonical(zone) && IsU16(qtype) && RrsOk(rrs) && IsU16(|rrs|)
  {
    Wrap(s.qid, Question(zone, qtype), PrintAll(rrs))
  }

  /** The TSIG fields of a message signed in this session. */
  function SignedFields(s: Session, mac: Bytes): TsigData {
    TsigData(ALGORITHM_NAME, s.when, MAX_FUDGE, mac, s.qid, 0, [])
  }

  /** The client understands an unsigned message. */
  lemma {:induction false} ReadsPlain(s: Session, keyName: string, zone: string, qtype: int, rrs: seq<Rr>)
    requires Agreed(s, keyName, zone, qtype) && RrsOk(rrs) && IsU16(|rrs|)
    ensures var plain := Plain(s, zone, qtype, rrs);
            Understood(ParseMessage(plain), s.qid, FLAG_QR + FLAG_AA, zone, qtype, rrs, None, plain)
  {
    var plain := Plain(s, zone, qtype, rrs);
    var header := Header(s.qid, FLAG_QR + FLAG_AA, 1, |rrs|, 0, 0);
    var question, body := Question(zone, qtype), Concat(PrintAll(rrs));
    assert plain == (header + (question + body)) + [];
    HeaderDenotes(s.qid, FLAG_QR + FLAG_AA, 1, |rrs|, 0, 0);
    QuestionDenotes(zone, qtype);
    PrintedAnswersCarry(rrs);
    ParsesResponse(plain, header, s.qid, FLAG_QR + FLAG_AA, question, zone, qtype, body, rrs, [], None);
  }

  /** The pieces of a signed message. */
  lemma {:induction false} SignedPieces(hmac: Hmac, s: Session, zone: string, qtype: int, rrs: seq<Rr>, prior: Bytes)
    returns (header: Bytes, question: Bytes, body: Bytes, wire: Bytes)
    requires SessionOk(s) && IsCanonical(zone) && IsU16(qtype) && RrsOk(rrs) && IsU16(|rrs|) && IsU16(|prior|)
    ensures header == Header(s.qid, FLAG_QR + FLAG_AA, 1, |rrs|, 0, 1)
    ensures question == Question(zone, qtype) && body == Concat(PrintAll(rrs))
    ensures wire == TsigWire(s.owner, SignedFields(s, Sign(hmac, s, Plain(s, zone, qtype, rrs), prior).1))
    ensures PatchArcount(Plain(s, zone, qtype, rrs), 1) == header + (question + body)
    ensures Sign(hmac, s, Plain(s, zone, qtype, rrs), prior).0 == (header + (question + body)) + wire
    ensures |Plain(s, zone, qtype, rrs)| == 12 + |question| + |body|
  {
    header, question, body := Header(s.qid, FLAG_QR + FLAG_AA, 1, |rrs|, 0, 1), Question(zone, qtype), Concat(PrintAll(rrs));
    wire := TsigWire(s.owner, SignedFields(s, Sign(hmac, s, Plain(s, zone, qtype, rrs), prior).1));
    PatchHeader(s.qid, FLAG_QR + FLAG_AA, 1, |rrs|, 0, 0, question + body, 1);
  }

  /** The client understands a signed message and finds the record that signs it. */
  lemma {:induction false} ReadsSigned(hmac: Hmac, s: Session, keyName: string, zone: string, qtype: int, rrs: seq<Rr>, prior: Bytes)
    requires Agreed(s, keyName, zone, qtype) && RrsOk(rrs) && IsU16(|rrs|) && IsU16(|prior|)
    ensures var (signed, mac) := Sign(hmac, s, Plain(s, zone, qtype, rrs), prior);
            Understood(ParseMessage(signed), s.qid, FLAG_QR + FLAG_AA, zone, qtype, rrs,
                       Some(Tsig(keyName, SignedFields(s, mac), |Plain(s, zone, qtype, rrs)|)), signed)
  {
    var (signed, mac) := Sign(hmac, s, Plain(s, zone, qtype, rrs), prior);
    var header, question, body, wire := SignedPieces(hmac, s, zone, qtype, rrs, prior);
    var tsig := Tsig(keyName, SignedFields(s, mac), |Plain(s, zone, qtype, rrs)|);
    HeaderDenotes(s.qid, FLAG_QR + FLAG_AA, 1, |rrs|, 0, 1);
    QuestionDenotes(zone, qtype);
    PrintedAnswersCarry(rrs);
    KeyRecordCarries(keyName, tsig.data);
    ParsesResponse(signed, header, s.qid, FLAG_QR + FLAG_AA, question, zone, qtype, body, rrs, wire, Some(tsig));
  }

  lemma {:induction false} SignedBase(hmac: Hmac, s: Session, zone: string, qtype: int, rrs: seq<Rr>, prior: Bytes)
    requires SessionOk(s) && IsCanonical(zone) && IsU16(qtype) && RrsOk(rrs) && IsU16(|rrs|) && IsU16(|prior|)
    ensures var plain := Plain(s, zone, qtype, rrs);
            PatchArcount(Slice(Sign(hmac, s, plain, prior).0, 0, |plain|), 1) == PatchArcount(plain, 1)
  {
    var header, question, body, wire := SignedPieces(hmac, s, zone, qtype, rrs, prior);
    var signed := Sign(hmac, s, Plain(s, zone, qtype, rrs), prior).0;
    assert Slice(signed, 0, 12 + |question| + |body|) == header + (question + body);
    PatchHeader(s.qid, FLAG_QR + FLAG_AA, 1, |rrs|, 0, 1, question + body, 1);
  }

  /**
   The client's digest input for a signed message is, octet for octet, the server's: with
   the same secret and prior MAC the check succeeds, for every keyed hash, and it hands on
   the MAC the server chains from.
   */
  lemma {:induction false} SignatureVerifies(hmac: Hmac, s: Session, keyName: string, zone: string, qtype: int, rrs: seq<Rr>, prior: Bytes)
    requires Agreed(s, keyName, zone, qtype) && RrsOk(rrs) && IsU16(|rrs|) && IsU16(|prior|)
    ensures var (signed, mac) := Sign(hmac, s, Plain(s, zone, qtype, rrs), prior);
            && ParseMessage(signed).Ok?
            && ParseMessage(signed).value.arcount == 1
            && VerifyResponseMac(hmac, ParseMessage(signed).value, s.secret, prior, keyName) == Some(mac)
  {
    ReadsSigned(hmac, s, keyName, zone, qtype, rrs, prior);
    SignedBase(hmac, s, zone, qtype, rrs, prior);
    var (signed, mac) := Sign(hmac, s, Plain(s, zone, qtype, rrs), prior);
    var msg := ParseMessage(signed).value;
    var plain := Plain(s, zone, qtype, rrs);
    VerifiesFields(hmac, msg, s, prior, keyName, mac, |plain|);
    assert mac == hmac(s.secret, ResponseBlock(prior, PatchArcount(plain, 1), s.owner, s.when, MAX_FUDGE, 0, []));
  }

  lemma {:induction false} VerifiesFields(hmac: Hmac, msg: Message, s: Session, prior: Bytes, keyName: string, mac: Bytes, offset: nat)
    requires IsKeyName(keyName) && IsU16(|prior|) && IsU16(s.qid) && msg.arcount == 1
    requires msg.tsig == Some(Tsig(keyName, SignedFields(s, mac), offset))
    ensures var base := PatchArcount(Slice(msg.raw, 0, offset), 1);
            VerifyResponseMac(hmac, msg, s.secret, prior, keyName)
            == if hmac(s.secret, ResponseBlock(prior, base, KeyWire(keyName), s.when, MAX_FUDGE, 0, [])) == mac then Some(mac) else None
  {
  }
}
