/** Exactly which responses and which streams of responses the client accepts. */
module Acceptance {
  import opened Basics
  import opened Names
  import opened NameCodec
  import opened Wire
  import opened QueryParser
  import opened Signing
  import opened Client
  import opened SignedStream
  import opened Delivery

  // ---------------------------------------------------------------------------
  // What is read from a response
  // ---------------------------------------------------------------------------

  /** What every record keeps, a section that is read keeps. */
  lemma {:induction false} ReadKeeps<A(!new)>(step: (nat, A) -> Result<(nat, A), WireFailure>, off: nat, count: nat, found: A,
                                              keeps: (nat, A) -> bool)
    requires keeps(off, found)
    requires forall o: nat, a: A {:trigger step(o, a)} :: keeps(o, a) && step(o, a).Ok? ==> keeps(step(o, a).value.0, step(o, a).value.1)
    ensures var r := ReadRecords(step, off, count, found); r.Ok? ==> keeps(r.value.0, r.value.1)
    decreases count
  {
    if count > 0 {
      var record := step(off, found);
      if record.Ok? {
        ReadKeeps(step, record.value.0, count - 1, record.value.1, keeps);
      }
    }
  }

  ghost function Behind<A(!new)>(start: nat): (nat, A) -> bool {
    (off: nat, found: A) => off >= start
  }

  predicate ExtrasInRange(buf: Bytes, off: nat, found: Extras) {
    12 <= off && TsigFound(buf, found.tsig)
  }

  ghost function ExtrasRule(buf: Bytes): (nat, Extras) -> bool {
    (off: nat, found: Extras) => ExtrasInRange(buf, off, found)
  }

  lemma {:induction false} ClientTsigSound(buf: Bytes, off: nat, rdlen: nat)
    ensures var r := ParseTsigRdata(buf, off, rdlen);
            r.Ok? ==> IsU16(r.value.fudge) && IsU16(r.value.error) && IsU16(|r.value.mac|) && IsU16(|r.value.other|)
  {
  }

  lemma {:induction false} ExtraKeeps(buf: Bytes, off: nat, found: Extras)
    requires ExtrasInRange(buf, off, found)
    ensures var r := ExtraRecord(buf, off, found); r.Ok? ==> ExtrasInRange(buf, r.value.0, r.value.1)
  {
    var head := ReadRrHead(buf, off, StructError);
    if head.Ok? {
      ClientTsigSound(buf, head.value.rstart, head.value.rdlen);
    }
  }

  lemma {:induction false} RrKeeps(buf: Bytes, off: nat, found: seq<Rr>)
    ensures var r := RrStep(buf)(off, found); r.Ok? ==> r.value.0 >= off
  {
  }

  lemma {:induction false} PlainSectionAdvances(buf: Bytes, off: nat, count: nat)
    ensures var r := ReadRecords(RrStep(buf), off, count, []); r.Ok? ==> r.value.0 >= off
  {
    var rule: (nat, seq<Rr>) -> bool := Behind(off);
    forall o: nat, a | rule(o, a) && RrStep(buf)(o, a).Ok? ensures rule(RrStep(buf)(o, a).value.0, RrStep(buf)(o, a).value.1) {
      RrKeeps(buf, o, a);
    }
    ReadKeeps(RrStep(buf), off, count, [], rule);
  }

  lemma {:induction false} ExtrasSound(buf: Bytes, off: nat, count: nat)
    requires off >= 12
    ensures var r := ReadRecords(ExtraStep(buf), off, count, Extras([], None)); r.Ok? ==> TsigFound(buf, r.value.1.tsig)
  {
    forall o: nat, a | ExtrasRule(buf)(o, a) && ExtraStep(buf)(o, a).Ok?
      ensures ExtrasRule(buf)(ExtraStep(buf)(o, a).value.0, ExtraStep(buf)(o, a).value.1)
    {
      ExtraKeeps(buf, o, a);
    }
    ReadKeeps(ExtraStep(buf), off, count, Extras([], None), ExtrasRule(buf));
  }

  /** A message that keeps its octets and its count; its TSIG record lies within it, with all fields in range. */
  predicate Sound(m: Message) {
    |m.raw| >= 12 && m.arcount == ReadU16(m.raw, 10) && TsigFound(m.raw, m.tsig)
  }

  /** Every message that is read is one. */
  lemma {:induction false} ParseMessageSound(buf: Bytes)
    requires ParseMessage(buf).Ok?
    ensures Sound(ParseMessage(buf).value) && ParseMessage(buf).value.raw == buf
  {
    var end: nat := DecodeName(buf, 12).value.1 + 4;
    PlainSectionAdvances(buf, end, ReadU16(buf, 6));
    var answers := ReadRecords(RrStep(buf), end, ReadU16(buf, 6), []).value;
    PlainSectionAdvances(buf, answers.0, ReadU16(buf, 8));
    var authority := ReadRecords(RrStep(buf), answers.0, ReadU16(buf, 8), []).value;
    ExtrasSound(buf, authority.0, ReadU16(buf, 10));
  }

  // ---------------------------------------------------------------------------
  // Signatures
  // ---------------------------------------------------------------------------

  /** The octets a response is signed for: the MAC before it with its length, all in front of its TSIG record, the variables. */
  function Covered(buf: Bytes, tsig: Tsig, prior: Bytes, keyName: string): Bytes
    requires TsigFound(buf, Some(tsig)) && |tsig.data.other| <= 65510 && IsU16(|prior|) && IsKeyName(keyName)
  {
    U16(|prior|) + prior + buf[..tsig.offset]
    + VariableOctets(KeyWire(keyName), tsig.data.time, tsig.data.fudge, tsig.data.error, tsig.data.other)
  }

  /** A response with a TSIG record whose MAC is that of the octets it covers. */
  predicate SignedFor(hmac: Hmac, m: Message, secret: Bytes, prior: Bytes, keyName: string)
    requires Sound(m) && IsU16(|prior|) && IsKeyName(keyName)
  {
    && m.tsig.Some? && |m.tsig.value.data.other| <= 65510
    && m.tsig.value.data.mac == hmac(secret, Covered(m.raw, m.tsig.value, prior, keyName))
  }

  /** The count of additional records is put in as it stands. */
  lemma {:induction false} PatchIsIdle(buf: Bytes, offset: nat)
    requires 12 <= offset <= |buf|
    ensures PatchArcount(Slice(buf, 0, offset), ReadU16(buf, 10)) == buf[..offset]
  {
    PrintsU16(buf, 10);
    var front := buf[..offset];
    assert front[..10] + buf[10..12] + front[12..] == front;
  }

  /**
   A response verifies exactly if it is signed for its octets, to the last one in front of its
   TSIG record, under the secret and behind the MAC given; and it is its own MAC that comes out.
   */
  lemma {:induction false} VerifiesIff(hmac: Hmac, m: Message, secret: Bytes, prior: Bytes, keyName: string, mac: Bytes)
    requires Sound(m) && IsKeyName(keyName) && IsU16(|prior|)
    ensures VerifyResponseMac(hmac, m, secret, prior, keyName) == Some(mac)
       <==> SignedFor(hmac, m, secret, prior, keyName) && mac == m.tsig.value.data.mac
  {
    if m.tsig.Some? && |m.tsig.value.data.other| <= 65510 {
      var t := m.tsig.value;
      PatchIsIdle(m.raw, t.offset);
      BlockIs(prior, m.raw[..t.offset], KeyWire(keyName), t.data);
    }
  }

  lemma {:induction false} BlockIs(prior: Bytes, base: Bytes, owner: Bytes, t: TsigData)
    requires IsU16(|prior|) && IsU16(t.fudge) && IsU16(t.error) && |t.other| <= 65510
    ensures ResponseBlock(prior, base, owner, t.time, t.fudge, t.error, t.other)
         == U16(|prior|) + prior + base + VariableOctets(owner, t.time, t.fudge, t.error, t.other)
  {
    VariablesAre(owner, t.time, t.fudge, t.error, t.other);
  }

  // ---------------------------------------------------------------------------
  // Streams
  // ---------------------------------------------------------------------------

  /**
   At least one message; the first signed for its octets behind the request's MAC, the last, if
   another, behind the first one's; those in between unsigned.
   */
  ghost predicate WellSigned(hmac: Hmac, msgs: seq<Message>, secret: Bytes, requestMac: Bytes, keyName: string)
    requires IsKeyName(keyName) && forall i :: 0 <= i < |msgs| ==> Sound(msgs[i])
  {
    var n := |msgs|;
    && n > 0 && IsU16(|requestMac|) && SignedFor(hmac, msgs[0], secret, requestMac, keyName)
    && (forall i :: 0 < i < n - 1 ==> msgs[i].tsig.None?)
    && (n > 1 ==> SignedFor(hmac, msgs[n - 1], secret, msgs[0].tsig.value.data.mac, keyName))
  }

  /** The chain of MACs from message `i` on, once the first has been checked. */
  ghost predicate RestHolds(hmac: Hmac, msgs: seq<Message>, i: nat, secret: Bytes, prior: Bytes, keyName: string)
    requires IsKeyName(keyName) && IsU16(|prior|) && 0 < i <= |msgs| && forall j :: 0 <= j < |msgs| ==> Sound(msgs[j])
  {
    && (forall j :: i <= j < |msgs| - 1 ==> msgs[j].tsig.None?)
    && (i < |msgs| ==> SignedFor(hmac, msgs[|msgs| - 1], secret, prior, keyName))
  }

  lemma {:induction false} LinkIff(hmac: Hmac, msgs: seq<Message>, i: nat, secret: Bytes, prior: Bytes, keyName: string)
    requires IsKeyName(keyName) && i < |msgs| && Sound(msgs[i]) && (i == 0 || i == |msgs| - 1)
    ensures ChainFrom(hmac, msgs, i, secret, prior, keyName)
       <==> && IsU16(|prior|) && SignedFor(hmac, msgs[i], secret, prior, keyName)
            && ChainFrom(hmac, msgs, i + 1, secret, msgs[i].tsig.value.data.mac, keyName)
  {
    if IsU16(|prior|) {
      var r := VerifyResponseMac(hmac, msgs[i], secret, prior, keyName);
      if r.Some? {
        VerifiesIff(hmac, msgs[i], secret, prior, keyName, r.value);
      } else if msgs[i].tsig.Some? {
        VerifiesIff(hmac, msgs[i], secret, prior, keyName, msgs[i].tsig.value.data.mac);
      }
    }
  }

  lemma {:induction false} ChainIsRest(hmac: Hmac, msgs: seq<Message>, i: nat, secret: Bytes, prior: Bytes, keyName: string)
    requires IsKeyName(keyName) && IsU16(|prior|) && 0 < i <= |msgs| && forall j :: 0 <= j < |msgs| ==> Sound(msgs[j])
    ensures ChainFrom(hmac, msgs, i, secret, prior, keyName) <==> RestHolds(hmac, msgs, i, secret, prior, keyName)
    decreases |msgs| - i
  {
    if i < |msgs| - 1 {
      ChainIsRest(hmac, msgs, i + 1, secret, prior, keyName);
      assert RestHolds(hmac, msgs, i, secret, prior, keyName)
        <==> msgs[i].tsig.None? && RestHolds(hmac, msgs, i + 1, secret, prior, keyName);
    } else if i == |msgs| - 1 {
      LinkIff(hmac, msgs, i, secret, prior, keyName);
    }
  }

  lemma {:induction false} ChainIff(hmac: Hmac, msgs: seq<Message>, secret: Bytes, requestMac: Bytes, keyName: string)
    requires msgs != [] && IsKeyName(keyName) && forall i :: 0 <= i < |msgs| ==> Sound(msgs[i])
    ensures ChainFrom(hmac, msgs, 0, secret, requestMac, keyName) <==> WellSigned(hmac, msgs, secret, requestMac, keyName)
  {
    LinkIff(hmac, msgs, 0, secret, requestMac, keyName);
    if IsU16(|requestMac|) && SignedFor(hmac, msgs[0], secret, requestMac, keyName) {
      ChainIsRest(hmac, msgs, 1, secret, msgs[0].tsig.value.data.mac, keyName);
    }
  }

  lemma {:induction false} MessagesAreSound(frames: seq<Bytes>)
    requires AllParse(frames)
    ensures forall i :: 0 <= i < |frames| ==> Sound(Messages(frames)[i]) && Messages(frames)[i].raw == frames[i]
  {
    forall i | 0 <= i < |frames| ensures Sound(Messages(frames)[i]) && Messages(frames)[i].raw == frames[i] {
      ParseMessageSound(frames[i]);
    }
  }

  /** These are the framed messages of a stream, and they are signed as a transfer is. */
  ghost predicate Acceptable(hmac: Hmac, stream: Bytes, frames: seq<Bytes>, secret: Bytes, requestMac: Bytes, keyName: string)
    requires IsKeyName(keyName)
  {
    && Framable(frames) && stream == Frames(frames, |frames|) && AllParse(frames)
    && (forall i :: 0 <= i < |frames| ==> Sound(Messages(frames)[i]) && Messages(frames)[i].raw == frames[i])
    && WellSigned(hmac, Messages(frames), secret, requestMac, keyName)
  }

  lemma {:induction false} AcceptableIs(hmac: Hmac, stream: Bytes, frames: seq<Bytes>, secret: Bytes, requestMac: Bytes, keyName: string)
    requires IsKeyName(keyName)
    ensures Acceptable(hmac, stream, frames, secret, requestMac, keyName)
       <==> && Deframe(stream) == Some(frames) && frames != [] && AllParse(frames)
            && ChainFrom(hmac, Messages(frames), 0, secret, requestMac, keyName)
  {
    DeframeIff(stream, frames);
    if AllParse(frames) && frames != [] {
      MessagesAreSound(frames);
      ChainIff(hmac, Messages(frames), secret, requestMac, keyName);
    }
  }

  /**
   The client takes records from a stream exactly if the stream is framed messages, one at
   least, that all parse and are signed as a transfer is signed, for the octets they have; and
   it takes the answers of all of them, in order.
   */
  lemma {:induction false} ReceivedIff(hmac: Hmac, stream: Bytes, secret: Bytes, requestMac: Bytes, keyName: string, rrs: seq<Rr>)
    requires IsKeyName(keyName)
    ensures Receive(hmac, stream, secret, requestMac, keyName) == Some(rrs)
       <==> exists frames :: Acceptable(hmac, stream, frames, secret, requestMac, keyName) && rrs == Answers(Messages(frames))
  {
    if Deframe(stream).Some? {
      AcceptableIs(hmac, stream, Deframe(stream).value, secret, requestMac, keyName);
    }
    if frames :| Acceptable(hmac, stream, frames, secret, requestMac, keyName) && rrs == Answers(Messages(frames)) {
      AcceptableIs(hmac, stream, frames, secret, requestMac, keyName);
    }
  }
}
