/**
 A whole transfer on the wire: the records of the stream, packed, signed at both ends of the
 stream and framed, against the client that takes the stream apart, checks the chain of MACs
 and collects the answers.
 */
module Delivery {
  import opened Basics
  import opened Names
  import opened NameCodec
  import opened Wire
  import opened Signing
  import opened Client
  import opened Packing
  import opened SignedStream
  import opened Responses

  // ---------------------------------------------------------------------------
  // The client's side
  // ---------------------------------------------------------------------------

  /**
   The client's check of messages i, i + 1, ...: the first and the last must verify, each
   against the MAC of the one verified before; those in between must be unsigned.
   */
  ghost predicate ChainFrom(hmac: Hmac, msgs: seq<Message>, i: nat, secret: Bytes, prior: Bytes, keyName: string)
    requires IsKeyName(keyName) && i <= |msgs|
    decreases |msgs| - i
  {
    if i == |msgs| then true
    else if 0 < i < |msgs| - 1 then msgs[i].tsig.None? && ChainFrom(hmac, msgs, i + 1, secret, prior, keyName)
    else
      && IsU16(|prior|) && IsU16(msgs[i].arcount)
      && match VerifyResponseMac(hmac, msgs[i], secret, prior, keyName)
         case None => false
         case Some(mac) => ChainFrom(hmac, msgs, i + 1, secret, mac, keyName)
  }

  /** The answer records of all messages, in order. */
  function Answers(msgs: seq<Message>): seq<Rr> {
    if msgs == [] then [] else msgs[0].answers + Answers(msgs[1..])
  }

  predicate AllParse(frames: seq<Bytes>) {
    forall i :: 0 <= i < |frames| ==> ParseMessage(frames[i]).Ok?
  }

  function Messages(frames: seq<Bytes>): seq<Message>
    requires AllParse(frames)
  {
    seq(|frames|, i requires 0 <= i < |frames| => ParseMessage(frames[i]).value)
  }

  /** What the client obtains from a transfer's byte stream; None when it rejects it. */
  ghost function Receive(hmac: Hmac, stream: Bytes, secret: Bytes, requestMac: Bytes, keyName: string): Option<seq<Rr>>
    requires IsKeyName(keyName)
  {
    match Deframe(stream)
    case None => None
    case Some(frames) =>
      if frames == [] || !AllParse(frames) then None
      else if !ChainFrom(hmac, Messages(frames), 0, secret, requestMac, keyName) then None
      else Some(Answers(Messages(frames)))
  }

  // ---------------------------------------------------------------------------
  // Batches of records
  // ---------------------------------------------------------------------------

  function Plains(s: Session, zone: string, qtype: int, batches: seq<seq<Rr>>): seq<Bytes>
    requires SessionOk(s) && IsCanonical(zone) && IsU16(qtype)
    requires forall i :: 0 <= i < |batches| ==> RrsOk(batches[i]) && IsU16(|batches[i]|)
  {
    seq(|batches|, i requires 0 <= i < |batches| => Plain(s, zone, qtype, batches[i]))
  }

  /** What the client needs to know of message `i` of `n` to let the chain pass. */
  ghost predicate LinkHolds(hmac: Hmac, msg: Message, i: nat, n: nat, secret: Bytes, requestMac: Bytes, firstMac: Bytes, keyName: string)
    requires IsKeyName(keyName) && IsU16(|requestMac|) && IsU16(|firstMac|)
  {
    && (0 < i < n - 1 ==> msg.tsig.None?)
    && (i == 0 ==> IsU16(msg.arcount) && VerifyResponseMac(hmac, msg, secret, requestMac, keyName) == Some(firstMac))
    && (0 < i == n - 1 ==> IsU16(msg.arcount) && VerifyResponseMac(hmac, msg, secret, firstMac, keyName).Some?)
  }

  lemma {:induction false} LinksMakeChain(hmac: Hmac, msgs: seq<Message>, i: nat, secret: Bytes, requestMac: Bytes, firstMac: Bytes, keyName: string)
    requires IsKeyName(keyName) && i <= |msgs| && IsU16(|requestMac|) && IsU16(|firstMac|)
    requires forall j :: 0 <= j < |msgs| ==> LinkHolds(hmac, msgs[j], j, |msgs|, secret, requestMac, firstMac, keyName)
    ensures i == 0 ==> ChainFrom(hmac, msgs, i, secret, requestMac, keyName)
    ensures i > 0 ==> ChainFrom(hmac, msgs, i, secret, firstMac, keyName)
    decreases |msgs| - i
  {
    if i < |msgs| {
      assert LinkHolds(hmac, msgs[i], i, |msgs|, secret, requestMac, firstMac, keyName);
      if i + 1 < |msgs| {
        LinksMakeChain(hmac, msgs, i + 1, secret, requestMac, firstMac, keyName);
      }
    }
  }

  /** Every message of the stream parses to its batch, and signed ones verify along the chain. */
  lemma {:induction false} SentMessageReads(hmac: Hmac, s: Session, keyName: string, zone: string, qtype: int, batches: seq<seq<Rr>>, i: nat)
    requires Agreed(s, keyName, zone, qtype) && i < |batches|
    requires forall j :: 0 <= j < |batches| ==> RrsOk(batches[j]) && IsU16(|batches[j]|)
    ensures var plains := Plains(s, zone, qtype, batches);
            var parsed := ParseMessage(Sent(hmac, s, plains, i));
            && parsed.Ok? && parsed.value.answers == batches[i]
            && (parsed.value.tsig.Some? <==> i == 0 || i == |batches| - 1)
            && LinkHolds(hmac, parsed.value, i, |batches|, s.secret, s.requestMac, FirstMac(hmac, s, plains), keyName)
  {
    var plains := Plains(s, zone, qtype, batches);
    assert plains[0] == Plain(s, zone, qtype, batches[0]) && plains[i] == Plain(s, zone, qtype, batches[i]);
    if i == 0 {
      ReadsSigned(hmac, s, keyName, zone, qtype, batches[i], s.requestMac);
      SignatureVerifies(hmac, s, keyName, zone, qtype, batches[i], s.requestMac);
    } else if i == |batches| - 1 {
      var first := FirstMac(hmac, s, plains);
      ReadsSigned(hmac, s, keyName, zone, qtype, batches[i], first);
      SignatureVerifies(hmac, s, keyName, zone, qtype, batches[i], first);
    } else {
      ReadsPlain(s, keyName, zone, qtype, batches[i]);
    }
  }

  lemma {:induction false} AnswersAreBatches(msgs: seq<Message>, batches: seq<seq<Rr>>)
    requires |msgs| == |batches| && forall i :: 0 <= i < |msgs| ==> msgs[i].answers == batches[i]
    ensures Answers(msgs) == Concat(batches)
  {
    if msgs != [] {
      AnswersAreBatches(msgs[1..], batches[1..]);
    }
  }

  /** Message `i` of `n` parses to its batch and passes its place in the chain. */
  ghost predicate Passes(hmac: Hmac, frame: Bytes, batch: seq<Rr>, i: nat, n: nat, secret: Bytes, requestMac: Bytes, firstMac: Bytes, keyName: string)
    requires IsKeyName(keyName) && IsU16(|requestMac|) && IsU16(|firstMac|)
  {
    && ParseMessage(frame).Ok? && ParseMessage(frame).value.answers == batch
    && LinkHolds(hmac, ParseMessage(frame).value, i, n, secret, requestMac, firstMac, keyName)
  }

  lemma {:induction false} FramesReceived(hmac: Hmac, frames: seq<Bytes>, secret: Bytes, requestMac: Bytes, firstMac: Bytes,
                                          keyName: string, batches: seq<seq<Rr>>)
    requires IsKeyName(keyName) && IsU16(|requestMac|) && IsU16(|firstMac|)
    requires Framable(frames) && |frames| == |batches| > 0
    requires forall i :: 0 <= i < |frames| ==> Passes(hmac, frames[i], batches[i], i, |frames|, secret, requestMac, firstMac, keyName)
    ensures Receive(hmac, Frames(frames, |frames|), secret, requestMac, keyName) == Some(Concat(batches))
  {
    PassedMessages(hmac, frames, secret, requestMac, firstMac, keyName, batches);
    DeframeIff(Frames(frames, |frames|), frames);
    LinksMakeChain(hmac, Messages(frames), 0, secret, requestMac, firstMac, keyName);
    AnswersAreBatches(Messages(frames), batches);
  }

  lemma {:induction false} PassedMessages(hmac: Hmac, frames: seq<Bytes>, secret: Bytes, requestMac: Bytes, firstMac: Bytes,
                                          keyName: string, batches: seq<seq<Rr>>)
    requires IsKeyName(keyName) && IsU16(|requestMac|) && IsU16(|firstMac|) && |frames| == |batches|
    requires forall i :: 0 <= i < |frames| ==> Passes(hmac, frames[i], batches[i], i, |frames|, secret, requestMac, firstMac, keyName)
    ensures AllParse(frames) && forall i :: 0 <= i < |frames| ==> Messages(frames)[i].answers == batches[i]
    ensures forall i :: 0 <= i < |frames| ==> LinkHolds(hmac, Messages(frames)[i], i, |frames|, secret, requestMac, firstMac, keyName)
  {
    forall i | 0 <= i < |frames| ensures ParseMessage(frames[i]).Ok? {
      assert Passes(hmac, frames[i], batches[i], i, |frames|, secret, requestMac, firstMac, keyName);
    }
    forall i | 0 <= i < |frames|
      ensures Messages(frames)[i].answers == batches[i]
      ensures LinkHolds(hmac, Messages(frames)[i], i, |frames|, secret, requestMac, firstMac, keyName)
    {
      assert Passes(hmac, frames[i], batches[i], i, |frames|, secret, requestMac, firstMac, keyName);
    }
  }

  /** The client accepts the stream of any batches and gets their records, whatever the batches. */
  lemma {:induction false} BatchesReceived(hmac: Hmac, s: Session, keyName: string, zone: string, qtype: int, batches: seq<seq<Rr>>)
    requires Agreed(s, keyName, zone, qtype) && batches != []
    requires forall j :: 0 <= j < |batches| ==> RrsOk(batches[j]) && IsU16(|batches[j]|)
    requires Signable(s, Plains(s, zone, qtype, batches))
    ensures var sent := AllSent(hmac, s, Plains(s, zone, qtype, batches));
            && Framable(sent)
            && Receive(hmac, Frames(sent, |sent|), s.secret, s.requestMac, keyName) == Some(Concat(batches))
  {
    var sent := AllSent(hmac, s, Plains(s, zone, qtype, batches));
    AllSentFramable(hmac, s, Plains(s, zone, qtype, batches));
    var first := AllPass(hmac, s, keyName, zone, qtype, batches, sent);
    FramesReceived(hmac, sent, s.secret, s.requestMac, first, keyName, batches);
  }

  lemma {:induction false} AllPass(hmac: Hmac, s: Session, keyName: string, zone: string, qtype: int, batches: seq<seq<Rr>>, sent: seq<Bytes>)
    returns (first: Mac)
    requires Agreed(s, keyName, zone, qtype) && batches != []
    requires forall j :: 0 <= j < |batches| ==> RrsOk(batches[j]) && IsU16(|batches[j]|)
    requires sent == AllSent(hmac, s, Plains(s, zone, qtype, batches))
    ensures |sent| == |batches|
    ensures forall i :: 0 <= i < |sent| ==> Passes(hmac, sent[i], batches[i], i, |sent|, s.secret, s.requestMac, first, keyName)
  {
    first := FirstMac(hmac, s, Plains(s, zone, qtype, batches));
    forall i | 0 <= i < |sent| ensures Passes(hmac, sent[i], batches[i], i, |sent|, s.secret, s.requestMac, first, keyName) {
      SentMessageReads(hmac, s, keyName, zone, qtype, batches, i);
    }
  }

  // ---------------------------------------------------------------------------
  // From the record stream to the client
  // ---------------------------------------------------------------------------

  /** The items cut into pieces as long as the given ones. */
  function CutLike<A, B>(items: seq<A>, parts: seq<seq<B>>): seq<seq<A>>
    requires |items| == |Concat(parts)|
  {
    if parts == [] then [] else [items[..|parts[0]|]] + CutLike(items[|parts[0]|..], parts[1..])
  }

  lemma {:induction false} CutFirst(rrs: seq<Rr>, first: seq<Bytes>, rest: seq<Bytes>)
    requires RrsOk(rrs) && first + rest == PrintAll(rrs)
    ensures |first| <= |rrs| && RrsOk(rrs[..|first|]) && RrsOk(rrs[|first|..])
    ensures PrintAll(rrs[..|first|]) == first && PrintAll(rrs[|first|..]) == rest
  {
    var wires := PrintAll(rrs);
    assert wires[..|first|] == first && wires[|first|..] == rest;
  }

  /** Batch by batch, the records print as the given octets. */
  ghost predicate PrintsAs(batches: seq<seq<Rr>>, parts: seq<seq<Bytes>>) {
    && |batches| == |parts|
    && (batches == [] || (RrsOk(batches[0]) && PrintAll(batches[0]) == parts[0] && PrintsAs(batches[1..], parts[1..])))
  }

  lemma {:induction false} PrintsAsAt(batches: seq<seq<Rr>>, parts: seq<seq<Bytes>>, i: nat)
    requires PrintsAs(batches, parts) && i < |batches|
    ensures RrsOk(batches[i]) && PrintAll(batches[i]) == parts[i] && |batches[i]| == |parts[i]|
  {
    if i > 0 {
      PrintsAsAt(batches[1..], parts[1..], i - 1);
    } else {
      assert |PrintAll(batches[0])| == |batches[0]|;
    }
  }

  lemma {:induction false} CutBatches(rrs: seq<Rr>, parts: seq<seq<Bytes>>)
    requires RrsOk(rrs) && Concat(parts) == PrintAll(rrs)
    ensures PrintsAs(CutLike(rrs, parts), parts) && Concat(CutLike(rrs, parts)) == rrs
    decreases |parts|
  {
    if parts == [] {
      assert |PrintAll(rrs)| == |rrs|;
    } else {
      var head, tail := rrs[..|parts[0]|], rrs[|parts[0]|..];
      var rest := CutLike(tail, parts[1..]);
      CutFirst(rrs, parts[0], Concat(parts[1..]));
      CutBatches(tail, parts[1..]);
      ConcatCons(head, rest);
      assert CutLike(rrs, parts) == [head] + rest && ([head] + rest)[1..] == rest;
      assert rrs == head + tail;
    }
  }

  /** A record that the store accepts: at most 64835 octets on the wire. */
  predicate StoredRr(rr: Rr) {
    RrOk(rr) && |rr.name| + 11 + |rr.rdata| <= 64835
  }

  /** The packer's batches of a record stream. */
  ghost function PackedBatches(zone: string, qtype: int, rrs: seq<Rr>, configured: int): (parts: seq<seq<Bytes>>)
    requires IsCanonical(zone) && IsU16(qtype) && RrsOk(rrs)
    ensures Countable(parts)
  {
    var base, room := 12 + |Question(zone, qtype)|, TransferBudget(configured) - TSIG_SPACE;
    PackCounts(PrintAll(rrs), base, room);
    Pack(PrintAll(rrs), base, room)
  }

  /** The messages the packer makes of a record stream. */
  ghost function PackedPlains(s: Session, zone: string, qtype: int, rrs: seq<Rr>, configured: int): seq<Bytes>
    requires SessionOk(s) && IsCanonical(zone) && IsU16(qtype) && RrsOk(rrs)
  {
    WrapAll(s.qid, Question(zone, qtype), PackedBatches(zone, qtype, rrs, configured))
  }

  /** At most one record, or no more octets than the configured budget, capped at 65000, leaves beside 400 for a TSIG record. */
  predicate WithinBudget(batch: seq<Bytes>, question: Bytes, configured: int) {
    |batch| <= 1 || (12 + |question| + |Concat(batch)| <= configured - 400 && 12 + |question| + |Concat(batch)| <= 64600)
  }

  lemma {:induction false} AllowedIsWithinBudget(batch: seq<Bytes>, question: Bytes, configured: int)
    ensures Allowed(batch, 12 + |question|, TransferBudget(configured) - TSIG_SPACE) <==> WithinBudget(batch, question, configured)
  {
    ConcatLength(batch);
  }

  lemma {:induction false} BestWithinBudget(question: Bytes, wires: seq<Bytes>, configured: int, other: seq<seq<Bytes>>)
    requires other != [] && Concat(other) == wires
    requires forall b :: b in other ==> WithinBudget(b, question, configured)
    ensures var batches := Pack(wires, 12 + |question|, TransferBudget(configured) - TSIG_SPACE);
            && Concat(batches) == wires && |batches| <= |other|
            && forall b :: b in batches ==> WithinBudget(b, question, configured)
  {
    var base, room := 12 + |question|, TransferBudget(configured) - TSIG_SPACE;
    forall b | b in other ensures Allowed(b, base, room) {
      AllowedIsWithinBudget(b, question, configured);
    }
    GreedyIsOptimal(wires, base, room, other);
    PackIsSplit(wires, base, room);
    forall b | b in Pack(wires, base, room) ensures WithinBudget(b, question, configured) {
      AllowedIsWithinBudget(b, question, configured);
    }
  }

  /** The messages of a transfer stay within the configured budget, and no fewer messages within it could hold its records. */
  lemma {:induction false} PackedIsBest(zone: string, qtype: int, rrs: seq<Rr>, configured: int, other: seq<seq<Bytes>>)
    requires IsCanonical(zone) && IsU16(qtype) && RrsOk(rrs)
    requires other != [] && Concat(other) == PrintAll(rrs)
    requires forall b :: b in other ==> WithinBudget(b, Question(zone, qtype), configured)
    ensures var batches := PackedBatches(zone, qtype, rrs, configured);
            && Concat(batches) == PrintAll(rrs) && |batches| <= |other|
            && forall b :: b in batches ==> WithinBudget(b, Question(zone, qtype), configured)
  {
    BestWithinBudget(Question(zone, qtype), PrintAll(rrs), configured, other);
  }

  lemma {:induction false} WrapsSignable(s: Session, question: Bytes, parts: seq<seq<Bytes>>)
    requires SessionOk(s) && |s.owner| <= 256
    requires Countable(parts) && RoomToSign(s.qid, question, parts)
    ensures Signable(s, WrapAll(s.qid, question, parts))
  {
  }

  lemma {:induction false} PrintedLengths(rrs: seq<Rr>)
    requires RrsOk(rrs) && forall i :: 0 <= i < |rrs| ==> StoredRr(rrs[i])
    ensures forall i :: 0 <= i < |rrs| ==> 11 <= |PrintAll(rrs)[i]| <= 64835
  {
  }

  lemma {:induction false} QuestionLength(zone: string, qtype: int)
    requires IsCanonical(zone) && IsU16(qtype)
    ensures |Question(zone, qtype)| <= 259
  {
  }

  lemma {:induction false} PackedFit(qid: int, zone: string, qtype: int, rrs: seq<Rr>, configured: int)
    requires IsU16(qid) && IsCanonical(zone) && IsU16(qtype) && RrsOk(rrs) && forall i :: 0 <= i < |rrs| ==> StoredRr(rrs[i])
    ensures RoomToSign(qid, Question(zone, qtype), PackedBatches(zone, qtype, rrs, configured))
  {
    PrintedLengths(rrs);
    QuestionLength(zone, qtype);
    MessagesFit(qid, Question(zone, qtype), PrintAll(rrs), TransferBudget(configured) - TSIG_SPACE);
  }

  lemma {:induction false} WrapsArePlains(s: Session, zone: string, qtype: int, parts: seq<seq<Bytes>>, batches: seq<seq<Rr>>)
    requires SessionOk(s) && IsCanonical(zone) && IsU16(qtype) && PrintsAs(batches, parts)
    requires Countable(parts)
    ensures forall j :: 0 <= j < |batches| ==> RrsOk(batches[j]) && IsU16(|batches[j]|)
    ensures WrapAll(s.qid, Question(zone, qtype), parts) == Plains(s, zone, qtype, batches)
  {
    forall i | 0 <= i < |batches| ensures RrsOk(batches[i]) && PrintAll(batches[i]) == parts[i] && IsU16(|batches[i]|) {
      PrintsAsAt(batches, parts, i);
    }
    assert |WrapAll(s.qid, Question(zone, qtype), parts)| == |Plains(s, zone, qtype, batches)|;
  }

  lemma {:induction false} PackedSplit(zone: string, qtype: int, rrs: seq<Rr>, configured: int)
    requires IsCanonical(zone) && IsU16(qtype) && RrsOk(rrs)
    ensures PackedBatches(zone, qtype, rrs, configured) != []
    ensures Concat(PackedBatches(zone, qtype, rrs, configured)) == PrintAll(rrs)
  {
    PackIsSplit(PrintAll(rrs), 12 + |Question(zone, qtype)|, TransferBudget(configured) - TSIG_SPACE);
  }

  lemma {:induction false} PackedAsPlains(s: Session, zone: string, qtype: int, rrs: seq<Rr>, configured: int)
    returns (batches: seq<seq<Rr>>)
    requires SessionOk(s) && IsCanonical(zone) && IsU16(qtype) && RrsOk(rrs)
    ensures batches != [] && Concat(batches) == rrs
    ensures forall j :: 0 <= j < |batches| ==> RrsOk(batches[j]) && IsU16(|batches[j]|)
    ensures PackedPlains(s, zone, qtype, rrs, configured) == Plains(s, zone, qtype, batches)
  {
    var parts := PackedBatches(zone, qtype, rrs, configured);
    PackedSplit(zone, qtype, rrs, configured);
    CutBatches(rrs, parts);
    batches := CutLike(rrs, parts);
    WrapsArePlains(s, zone, qtype, parts, batches);
  }

  /**
   A transfer reaches the client whole: for every stream of stored records, every configured
   budget and every keyed hash, the packed, signed and framed stream is accepted by a client
   with the same secret and request MAC, and its answers are the stream, record for record.
   */
  lemma {:induction false} TransferDelivered(hmac: Hmac, s: Session, keyName: string, zone: string, qtype: int, rrs: seq<Rr>, configured: int)
    requires Agreed(s, keyName, zone, qtype) && RrsOk(rrs) && forall i :: 0 <= i < |rrs| ==> StoredRr(rrs[i])
    ensures var sent := AllSent(hmac, s, PackedPlains(s, zone, qtype, rrs, configured));
            && Framable(sent)
            && Receive(hmac, Frames(sent, |sent|), s.secret, s.requestMac, keyName) == Some(rrs)
  {
    PackedFit(s.qid, zone, qtype, rrs, configured);
    WrapsSignable(s, Question(zone, qtype), PackedBatches(zone, qtype, rrs, configured));
    var batches := PackedAsPlains(s, zone, qtype, rrs, configured);
    BatchesReceived(hmac, s, keyName, zone, qtype, batches);
  }
}
