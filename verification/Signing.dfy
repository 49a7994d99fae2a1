/** Authentication of messages with a TSIG record, server side (app/dnswire.py). */
module Signing {
  import opened Basics
  import opened Names
  import opened NameCodec
  import opened Wire
  import opened QueryParser

  /** An HMAC-SHA256 digest. */
  type Mac = m: Bytes | |m| == 32 witness seq(32, _ => 0)

  /** The keyed hash, of which nothing but the length of its results is assumed. */
  type Hmac = (Bytes, Bytes) -> Mac

  const MAX_FUDGE := 300
  /** Longest `other` field that leaves the digest variables in range. */
  const MAX_OTHER := 65510

  function DigestRdata(when: int, fudge: int, error: int, other: Bytes): (bs: Bytes)
    requires IsU16(fudge) && IsU16(error) && |other| <= MAX_OTHER
    ensures |bs| == 25 + |other|
  {
    ALGORITHM_WIRE + ((U48(when) + U16(fudge)) + (U16(error) + (U16(|other|) + other)))
  }

  /** The block of TSIG variables in a digest; `owner` is the key name in wire form. */
  function TsigVariables(owner: Bytes, when: int, fudge: int, error: int, other: Bytes): Bytes
    requires IsU16(fudge) && IsU16(error) && |other| <= MAX_OTHER
  {
    Assemble(owner, TYPE_TSIG, CLASS_ANY, 0, DigestRdata(when, fudge, error, other))
  }

  /** The same block, octet by octet. */
  function VariableOctets(owner: Bytes, when: int, fudge: int, error: int, other: Bytes): Bytes
    requires IsU16(fudge) && IsU16(error) && |other| <= 65510
  {
    owner + [0, 250, 0, 255, 0, 0, 0, 0] + U16(25 + |other|) + ALGORITHM_WIRE
    + U48(when) + U16(fudge) + U16(error) + U16(|other|) + other
  }

  lemma {:induction false} VariablesAre(owner: Bytes, when: int, fudge: int, error: int, other: Bytes)
    requires IsU16(fudge) && IsU16(error) && |other| <= 65510
    ensures TsigVariables(owner, when, fudge, error, other) == VariableOctets(owner, when, fudge, error, other)
  {
    assert U16(TYPE_TSIG) == [0, 250] && U16(CLASS_ANY) == [0, 255] && U32(0) == [0, 0, 0, 0];
  }

  /** The TSIG record that goes behind a message. */
  function TsigRr(owner: Bytes, when: int, fudge: int, mac: Bytes, origId: int, error: int, other: Bytes): (bs: Bytes)
    requires IsU16(fudge) && IsU16(origId) && IsU16(error) && 29 + |mac| + |other| < 0x10000
    ensures |bs| == |owner| + 39 + |mac| + |other|
  {
    Assemble(owner, TYPE_TSIG, CLASS_ANY, 0, TsigRdata(when, fudge, mac, origId, error, other))
  }

  function DigestBlock(msg: Bytes, tsigOffset: nat, arcount: int, owner: Bytes, t: TsigData): Bytes
    requires IsU16(arcount) && IsU16(t.fudge) && IsU16(t.error) && |t.other| <= MAX_OTHER
  {
    PatchArcount(Slice(msg, 0, tsigOffset), arcount) + TsigVariables(owner, t.time, t.fudge, t.error, t.other)
  }

  /** The MAC a query should carry. Fails when its key name has no wire form. */
  function ExpectedRequestMac(hmac: Hmac, key: Bytes, q: Query): Result<Mac, WireFailure>
    requires q.tsig.Some? && TsigFound(q.raw, q.tsig) && IsU16(q.arcount)
  {
    var t := q.tsig.value;
    match EncodeName(t.name)
    case Err(e) => Err(e)
    case Ok(owner) =>
      if |t.data.other| > MAX_OTHER then Err(StructError)
      else Ok(hmac(key, DigestBlock(q.raw, t.offset, q.arcount, owner, t.data)))
  }

  /** A digest that enters another one is preceded by its length. */
  function PriorMac(prior: Bytes): Bytes
    requires IsU16(|prior|)
  {
    U16(|prior|) + prior
  }

  /** The octets a signature covers. */
  function ResponseBlock(prior: Bytes, base: Bytes, owner: Bytes, when: int, fudge: int, error: int, other: Bytes): Bytes
    requires IsU16(|prior|) && IsU16(fudge) && IsU16(error) && |other| <= MAX_OTHER
  {
    PriorMac(prior) + base + TsigVariables(owner, when, fudge, error, other)
  }

  /** A response whose ARCOUNT was `arcountBefore`, with its TSIG record behind it; and the MAC therein. */
  function SignResponse(hmac: Hmac, key: Bytes, plain: Bytes, owner: Bytes, prior: Bytes, when: int, fudge: int,
                        origId: int, arcountBefore: int, error: int, other: Bytes): (Bytes, Mac)
    requires IsU16(|prior|) && IsU16(fudge) && IsU16(origId) && IsU16(error) && |other| < 65475
    requires 0 <= arcountBefore < 0xFFFF
  {
    var base := PatchArcount(plain, arcountBefore + 1);
    var mac := hmac(key, ResponseBlock(prior, base, owner, when, fudge, error, other));
    (base + TsigRr(owner, when, fudge, mac, origId, error, other), mac)
  }

  function Abs(n: int): int {
    if n < 0 then -n else n
  }

  predicate VerifyTsigTime(time: int, fudge: int, now: int) {
    1 <= fudge <= MAX_FUDGE && Abs(now - time) <= fudge
  }
}
