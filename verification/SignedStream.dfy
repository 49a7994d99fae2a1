/**
 The signed message stream of a transfer (app/dns_server.py, `_stream_signed_transfer`) and
 what the client (app/dnsclient.py) makes of it: only the first and the last message carry a
 TSIG record, chained from the request's MAC to the first one's and from there to the last one's.
 */
module SignedStream {
  import opened Basics
  import opened Wire
  import opened Signing

  /** What stays the same throughout one transfer; `owner` is the key's name in wire form. */
  datatype Session = Session(secret: Bytes, owner: Bytes, requestMac: Bytes, when: int, qid: int)

  predicate SessionOk(s: Session) {
    IsU16(|s.requestMac|) && IsU16(s.qid)
  }

  function Sign(hmac: Hmac, s: Session, plain: Bytes, prior: Bytes): (Bytes, Mac)
    requires SessionOk(s) && IsU16(|prior|)
  {
    SignResponse(hmac, s.secret, plain, s.owner, prior, s.when, MAX_FUDGE, s.qid, 0, 0, [])
  }

  /** The MAC of the first message, which the last one chains from. */
  function FirstMac(hmac: Hmac, s: Session, plains: seq<Bytes>): Mac
    requires SessionOk(s) && plains != []
  {
    Sign(hmac, s, plains[0], s.requestMac).1
  }

  /** The i-th message as it is sent. */
  function Sent(hmac: Hmac, s: Session, plains: seq<Bytes>, i: nat): Bytes
    requires SessionOk(s) && i < |plains|
  {
    if i == 0 then Sign(hmac, s, plains[0], s.requestMac).0
    else if i == |plains| - 1 then Sign(hmac, s, plains[i], FirstMac(hmac, s, plains)).0
    else plains[i]
  }

  function AllSent(hmac: Hmac, s: Session, plains: seq<Bytes>): seq<Bytes>
    requires SessionOk(s)
  {
    seq(|plains|, i requires 0 <= i < |plains| => Sent(hmac, s, plains, i))
  }

  // ---------------------------------------------------------------------------
  // Framing
  // ---------------------------------------------------------------------------

  function Frame(msg: Bytes): Bytes
    requires IsU16(|msg|)
  {
    U16(|msg|) + msg
  }

  predicate Framable(msgs: seq<Bytes>) {
    forall i :: 0 <= i < |msgs| ==> IsU16(|msgs[i]|)
  }

  /** The first `n` messages, framed one behind the other. */
  function Frames(msgs: seq<Bytes>, n: nat): Bytes
    requires Framable(msgs) && n <= |msgs|
  {
    if n == 0 then [] else Frames(msgs, n - 1) + Frame(msgs[n - 1])
  }

  /** Reading framed messages up to the end of the stream; None when it ends within one. */
  function Deframe(stream: Bytes): Option<seq<Bytes>>
    decreases |stream|
  {
    if stream == [] then Some([])
    else if |stream| < 2 || 2 + ReadU16(stream, 0) > |stream| then None
    else
      var next := 2 + ReadU16(stream, 0);
      match Deframe(stream[next..])
      case None => None
      case Some(rest) => Some([stream[2..next]] + rest)
  }

  lemma {:induction false} FrameReads(msg: Bytes, rest: Bytes)
    requires IsU16(|msg|)
    ensures var stream := Frame(msg) + rest;
            && |stream| == 2 + |msg| + |rest| && ReadU16(stream, 0) == |msg|
            && stream[2..2 + |msg|] == msg && stream[2 + |msg|..] == rest
  {
  }

  lemma {:induction false} FramesFront(first: Bytes, rest: seq<Bytes>, n: nat)
    requires IsU16(|first|) && Framable(rest) && n <= |rest|
    ensures Framable([first] + rest) && Frames([first] + rest, n + 1) == Frame(first) + Frames(rest, n)
  {
    var msgs := [first] + rest;
    if n == 0 {
      assert Frames(msgs, 1) == Frames(msgs, 0) + Frame(msgs[0]);
    } else {
      FramesFront(first, rest, n - 1);
      assert msgs[n] == rest[n - 1];
      assert Frame(first) + (Frames(rest, n - 1) + Frame(rest[n - 1])) == (Frame(first) + Frames(rest, n - 1)) + Frame(rest[n - 1]);
    }
  }

  /** The client takes the stream apart into the messages that were sent. */
  lemma {:induction false} DeframeFrames(msgs: seq<Bytes>)
    requires Framable(msgs)
    ensures Deframe(Frames(msgs, |msgs|)) == Some(msgs)
    decreases |msgs|
  {
    if msgs != [] {
      var first, rest := msgs[0], msgs[1..];
      assert msgs == [first] + rest;
      FramesFront(first, rest, |rest|);
      FrameReads(first, Frames(rest, |rest|));
      DeframeFrames(rest);
    }
  }

  lemma {:induction false} FirstFrame(stream: Bytes, next: nat, rest: seq<Bytes>)
    requires 2 <= next <= |stream| && next == 2 + ReadU16(stream, 0)
    requires Framable(rest) && stream[next..] == Frames(rest, |rest|)
    ensures var msgs := [stream[2..next]] + rest; Framable(msgs) && stream == Frames(msgs, |msgs|)
  {
    FramesFront(stream[2..next], rest, |rest|);
    PrintsU16(stream, 0);
    assert stream == (stream[0..2] + stream[2..next]) + stream[next..];
  }

  /** A stream is taken apart into messages only if it is these messages framed. */
  lemma {:induction false} DeframeIff(stream: Bytes, msgs: seq<Bytes>)
    ensures Deframe(stream) == Some(msgs) <==> Framable(msgs) && stream == Frames(msgs, |msgs|)
    decreases |stream|
  {
    if Deframe(stream) == Some(msgs) && stream != [] {
      var next := 2 + ReadU16(stream, 0);
      var rest := Deframe(stream[next..]).value;
      DeframeIff(stream[next..], rest);
      FirstFrame(stream, next, rest);
    }
    if Framable(msgs) && stream == Frames(msgs, |msgs|) {
      DeframeFrames(msgs);
    }
  }

  // ---------------------------------------------------------------------------
  // Sending
  // ---------------------------------------------------------------------------

  /** Every message has a header, and room for a TSIG record within 65535 octets. */
  predicate Signable(s: Session, plains: seq<Bytes>) {
    forall i :: 0 <= i < |plains| ==> 12 <= |plains[i]| <= 65464 - |s.owner|
  }

  lemma {:induction false} AllSentFramable(hmac: Hmac, s: Session, plains: seq<Bytes>)
    requires SessionOk(s) && Signable(s, plains)
    ensures Framable(AllSent(hmac, s, plains))
  {
  }

  /** `sent` are the messages as they should go out, `first` is the MAC of the first of them. */
  ghost predicate SentAsPlanned(hmac: Hmac, s: Session, plains: seq<Bytes>, sent: seq<Bytes>, first: Bytes) {
    && SessionOk(s) && plains != [] && Framable(sent)
    && sent == AllSent(hmac, s, plains) && first == FirstMac(hmac, s, plains)
  }

  /** One message on its way out, signed if it is the first or the last; and the first one's MAC from then on. */
  method SendIndexed(hmac: Hmac, s: Session, i: nat, plain: Bytes, isLast: bool, firstMac: Bytes,
                     ghost plains: seq<Bytes>, ghost sent: seq<Bytes>, ghost first: Bytes)
    returns (frame: Bytes, mac: Bytes)
    requires SessionOk(s) && SentAsPlanned(hmac, s, plains, sent, first)
    requires i < |plains| == |sent| && plain == plains[i] && (isLast <==> i == |plains| - 1)
    requires i > 0 ==> firstMac == first
    ensures IsU16(|sent[i]|) && frame == Frame(sent[i]) && mac == first
  {
    mac := firstMac;
    var out := plain;
    if i == 0 || isLast {
      var prior := if i == 0 then s.requestMac else firstMac;
      var (signed, m) := Sign(hmac, s, plain, prior);
      if i == 0 {
        mac := m;
      }
      out := signed;
    }
    assert sent[i] == Sent(hmac, s, plains, i) == out;
    frame := Frame(out);
  }

  /**
   The sending loop, which looks one message ahead to know which one is the last. Every
   plain message goes out once, in order, and exactly the first and the last are signed.
   */
  method StreamSigned(hmac: Hmac, s: Session, plains: seq<Bytes>) returns (stream: Bytes)
    requires SessionOk(s) && Signable(s, plains) && plains != []
    ensures Framable(AllSent(hmac, s, plains)) && stream == Frames(AllSent(hmac, s, plains), |plains|)
  {
    AllSentFramable(hmac, s, plains);
    stream := SendAll(hmac, s, plains, AllSent(hmac, s, plains), FirstMac(hmac, s, plains));
  }

  method SendAll(hmac: Hmac, s: Session, plains: seq<Bytes>, ghost sent: seq<Bytes>, ghost first: Bytes) returns (stream: Bytes)
    requires SentAsPlanned(hmac, s, plains, sent, first) && 0 < |plains| == |sent|
    ensures stream == Frames(sent, |sent|)
  {
    stream := [];
    var firstMac: Bytes := [];
    var pending: Option<Bytes> := None;
    var index := 0;
    for i := 0 to |plains|
      invariant pending == if i == 0 then None else Some(plains[i - 1])
      invariant index == if i == 0 then 0 else i - 1
      invariant stream == Frames(sent, index)
      invariant index > 0 ==> firstMac == first
    {
      if pending.Some? {
        var frame: Bytes;
        frame, firstMac := SendIndexed(hmac, s, index, pending.value, false, firstMac, plains, sent, first);
        stream := stream + frame;
        index := index + 1;
      }
      pending := Some(plains[i]);
    }
    var frame: Bytes;
    frame, firstMac := SendIndexed(hmac, s, index, pending.value, true, firstMac, plains, sent, first);
    stream := stream + frame;
  }
}
