/**
 Packing the records of a transfer into messages (app/dns_server.py, `_rr_batches`): greedy,
 one pass, holding one message at a time. The packing loses nothing, no other packing in the
 same order needs fewer messages, and every message can be signed and framed.
 */
module Packing {
  import opened Basics
  import opened Wire

  const BUDGET_CAP := 65000
  /** Octets set aside in every message for a TSIG record. */
  const TSIG_SPACE := 400

  function TransferBudget(configured: int): int {
    if configured <= BUDGET_CAP then configured else BUDGET_CAP
  }

  function Concat<T>(parts: seq<seq<T>>): seq<T> {
    if parts == [] then [] else parts[0] + Concat(parts[1..])
  }

  /** Octets of a list of records. */
  function Total(batch: seq<Bytes>): nat {
    if batch == [] then 0 else |batch[0]| + Total(batch[1..])
  }

  /** The packing, with `cur` already in the message being filled and `base` octets in front of it. */
  function PackFrom(cur: seq<Bytes>, rrs: seq<Bytes>, base: nat, room: int): seq<seq<Bytes>>
    decreases |rrs|
  {
    if rrs == [] then [cur]
    else if cur != [] && base + Total(cur) + |rrs[0]| > room then [cur] + PackFrom([rrs[0]], rrs[1..], base, room)
    else PackFrom(cur + [rrs[0]], rrs[1..], base, room)
  }

  function Pack(rrs: seq<Bytes>, base: nat, room: int): seq<seq<Bytes>> {
    PackFrom([], rrs, base, room)
  }

  /** What one message may hold: more than `room` only for the sake of a single record. */
  predicate Allowed(batch: seq<Bytes>, base: nat, room: int) {
    |batch| <= 1 || base + Total(batch) <= room
  }

  // ---------------------------------------------------------------------------
  // Lossless
  // ---------------------------------------------------------------------------

  lemma {:induction false} TotalConcat(a: seq<Bytes>, b: seq<Bytes>)
    ensures Total(a + b) == Total(a) + Total(b)
    decreases |a|
  {
    if a == [] {
      assert a + b == b;
    } else {
      assert (a + b)[1..] == a[1..] + b;
      TotalConcat(a[1..], b);
    }
  }

  lemma {:induction false} TotalAppend(cur: seq<Bytes>, rr: Bytes)
    ensures Total(cur + [rr]) == Total(cur) + |rr|
  {
    TotalConcat(cur, [rr]);
    assert [rr][1..] == [];
  }

  lemma {:induction false} ConcatCons<T>(head: seq<T>, tail: seq<seq<T>>)
    ensures Concat([head] + tail) == head + Concat(tail)
  {
  }

  lemma {:induction false} PackFromLossless(cur: seq<Bytes>, rrs: seq<Bytes>, base: nat, room: int)
    ensures Concat(PackFrom(cur, rrs, base, room)) == cur + rrs
    decreases |rrs|
  {
    if rrs == [] {
      ConcatCons(cur, []);
      assert [cur] + [] == [cur];
    } else {
      assert rrs == [rrs[0]] + rrs[1..];
      if cur != [] && base + Total(cur) + |rrs[0]| > room {
        PackFromLossless([rrs[0]], rrs[1..], base, room);
        ConcatCons(cur, PackFrom([rrs[0]], rrs[1..], base, room));
      } else {
        PackFromLossless(cur + [rrs[0]], rrs[1..], base, room);
      }
    }
  }

  lemma {:induction false} PackFromAllowed(cur: seq<Bytes>, rrs: seq<Bytes>, base: nat, room: int)
    requires Allowed(cur, base, room)
    ensures forall b :: b in PackFrom(cur, rrs, base, room) ==> Allowed(b, base, room)
    ensures cur + rrs != [] ==> forall b :: b in PackFrom(cur, rrs, base, room) ==> b != []
    decreases |rrs|
  {
    if rrs != [] {
      if cur != [] && base + Total(cur) + |rrs[0]| > room {
        PackFromAllowed([rrs[0]], rrs[1..], base, room);
      } else {
        TotalAppend(cur, rrs[0]);
        PackFromAllowed(cur + [rrs[0]], rrs[1..], base, room);
      }
    }
  }

  /**
   The packing keeps every record, in order; each message is an allowed one; and only a
   stream without records gives a message without records.
   */
  lemma {:induction false} PackIsSplit(rrs: seq<Bytes>, base: nat, room: int)
    ensures var batches := Pack(rrs, base, room);
            && Concat(batches) == rrs
            && batches != []
            && (forall b :: b in batches ==> Allowed(b, base, room))
            && (if rrs == [] then batches == [[]] else forall b :: b in batches ==> b != [])
  {
    PackFromLossless([], rrs, base, room);
    PackFromAllowed([], rrs, base, room);
    if rrs != [] {
      assert Concat(Pack(rrs, base, room)) != [];
    }
  }

  // ---------------------------------------------------------------------------
  // Optimal
  // ---------------------------------------------------------------------------

  lemma {:induction false} PrefixTotal(part: seq<Bytes>, e: seq<Bytes>, cur: seq<Bytes>, rr: Bytes, rest: seq<Bytes>)
    requires |part| > |e| + |cur| && part <= e + cur + [rr] + rest
    ensures Total(part) >= Total(cur) + |rr|
  {
    var whole := e + cur + [rr] + rest;
    var k := |e| + |cur| + 1;
    assert whole[..k] == e + (cur + [rr]);
    assert part[..k] == whole[..k];
    assert part == part[..k] + part[k..];
    TotalConcat(part[..k], part[k..]);
    TotalConcat(e, cur + [rr]);
    TotalAppend(cur, rr);
  }

  /**
   The greedy packer stays ahead: if another packing still has to place all that the greedy
   one has to place, and possibly more before it, then it needs at least as many messages.
   */
  lemma {:induction false} GreedyStaysAhead(cur: seq<Bytes>, rrs: seq<Bytes>, base: nat, room: int, e: seq<Bytes>, other: seq<seq<Bytes>>)
    requires other != [] && Concat(other) == e + cur + rrs
    requires forall b :: b in other ==> Allowed(b, base, room)
    ensures |PackFrom(cur, rrs, base, room)| <= |other|
    decreases |rrs|
  {
    if rrs != [] {
      var rr, rest := rrs[0], rrs[1..];
      assert rrs == [rr] + rest;
      if cur != [] && base + Total(cur) + |rr| > room {
        var first, later := other[0], other[1..];
        var whole := e + cur + [rr] + rest;
        assert first + Concat(later) == whole;
        assert first in other;
        if |first| > |e| + |cur| {
          assert first == whole[..|first|];
          PrefixTotal(first, e, cur, rr, rest);
          assert false;
        }
        var e' := (e + cur)[|first|..];
        assert Concat(later) == whole[|first|..] == e' + [rr] + rest;
        assert later != [];
        GreedyStaysAhead([rr], rest, base, room, e', later);
      } else {
        assert e + cur + rrs == e + (cur + [rr]) + rest;
        GreedyStaysAhead(cur + [rr], rest, base, room, e, other);
      }
    }
  }

  /**
   No packing of the same records in the same order uses fewer messages, whatever the room,
   negative room included, and even if it may use messages without records.
   */
  lemma {:induction false} GreedyIsOptimal(rrs: seq<Bytes>, base: nat, room: int, other: seq<seq<Bytes>>)
    requires other != [] && Concat(other) == rrs
    requires forall b :: b in other ==> Allowed(b, base, room)
    ensures |Pack(rrs, base, room)| <= |other|
  {
    var none: seq<Bytes> := [];
    assert none + none + rrs == rrs;
    GreedyStaysAhead([], rrs, base, room, [], other);
  }

  // ---------------------------------------------------------------------------
  // Messages
  // ---------------------------------------------------------------------------

  /** A response message that holds the given records. */
  function Wrap(qid: int, question: Bytes, answers: seq<Bytes>): Bytes
    requires IsU16(qid) && IsU16(|answers|)
  {
    Header(qid, FLAG_QR + FLAG_AA, 1, |answers|, 0, 0) + (question + Concat(answers))
  }

  lemma {:induction false} ConcatLength(batch: seq<Bytes>)
    ensures |Concat(batch)| == Total(batch)
  {
    if batch != [] {
      ConcatLength(batch[1..]);
    }
  }

  lemma {:induction false} CountByLength(batch: seq<Bytes>)
    requires Streamable(batch)
    ensures Total(batch) >= 11 * |batch|
  {
    if batch != [] {
      assert batch[0] in batch;
      CountByLength(batch[1..]);
    }
  }

  /** The records of a stream as they come from `pack_rr`: an owner, ten octets, and RDATA. */
  predicate Streamable(rrs: seq<Bytes>) {
    forall i :: 0 <= i < |rrs| ==> |rrs[i]| >= 11
  }

  lemma {:induction false} BatchCounts(batch: seq<Bytes>, base: nat, room: int)
    requires Allowed(batch, base, room) && Streamable(batch) && room <= BUDGET_CAP
    ensures IsU16(|batch|)
  {
    if |batch| > 1 {
      CountByLength(batch);
    }
  }

  lemma {:induction false} ConcatMember<T>(parts: seq<seq<T>>, part: seq<T>, x: T)
    requires part in parts && x in part
    ensures x in Concat(parts)
  {
    if part != parts[0] {
      assert part in parts[1..];
      ConcatMember(parts[1..], part, x);
    }
  }

  /** Every batch's record count fits the header's 16-bit field. */
  predicate Countable(batches: seq<seq<Bytes>>) {
    forall i :: 0 <= i < |batches| ==> IsU16(|batches[i]|)
  }

  lemma {:induction false} PackCounts(rrs: seq<Bytes>, base: nat, room: int)
    requires Streamable(rrs) && room <= BUDGET_CAP
    ensures Countable(Pack(rrs, base, room))
  {
    var batches := Pack(rrs, base, room);
    PackIsSplit(rrs, base, room);
    forall i | 0 <= i < |batches| ensures IsU16(|batches[i]|) {
      assert batches[i] in batches;
      forall j | 0 <= j < |batches[i]| ensures |batches[i][j]| >= 11 {
        ConcatMember(batches, batches[i], batches[i][j]);
      }
      BatchCounts(batches[i], base, room);
    }
  }

  ghost function WrapAll(qid: int, question: Bytes, batches: seq<seq<Bytes>>): seq<Bytes>
    requires IsU16(qid) && Countable(batches)
  {
    seq(|batches|, i requires 0 <= i < |batches| => Wrap(qid, question, batches[i]))
  }

  /** The packer's one pass over the stream, with the records and the length of the message being filled. */
  method GreedyBatches(rrs: seq<Bytes>, base: nat, room: int) returns (batches: seq<seq<Bytes>>)
    ensures batches == Pack(rrs, base, room)
  {
    batches := [];
    var cur: seq<Bytes>, curLen := [], base;
    assert rrs[0..] == rrs && [] + Pack(rrs, base, room) == Pack(rrs, base, room);
    for i := 0 to |rrs|
      invariant curLen == base + Total(cur)
      invariant Pack(rrs, base, room) == batches + PackFrom(cur, rrs[i..], base, room)
    {
      var rr := rrs[i];
      assert rrs[i..][1..] == rrs[i + 1..];
      if cur != [] && curLen + |rr| > room {
        batches := batches + [cur];
        cur, curLen := [], base;
      }
      TotalAppend(cur, rr);
      assert [] + [rr] == [rr];
      cur := cur + [rr];
      curLen := curLen + |rr|;
    }
    batches := batches + [cur];
  }

  /** The messages of a transfer, as the packer hands them out. */
  method RrBatches(qid: int, question: Bytes, rrs: seq<Bytes>, budget: int, tsigSpace: nat) returns (messages: seq<Bytes>)
    requires IsU16(qid) && Streamable(rrs) && budget <= BUDGET_CAP
    ensures Countable(Pack(rrs, 12 + |question|, budget - tsigSpace))
    ensures messages == WrapAll(qid, question, Pack(rrs, 12 + |question|, budget - tsigSpace))
  {
    var batches := GreedyBatches(rrs, 12 + |question|, budget - tsigSpace);
    PackCounts(rrs, 12 + |question|, budget - tsigSpace);
    messages := seq(|batches|, i requires 0 <= i < |batches| => Wrap(qid, question, batches[i]));
  }

  /** Every message can carry its TSIG record and still be framed with a 16-bit length. */
  ghost predicate RoomToSign(qid: int, question: Bytes, batches: seq<seq<Bytes>>)
    requires IsU16(qid) && Countable(batches)
  {
    forall i :: 0 <= i < |batches| ==> |Wrap(qid, question, batches[i])| + TSIG_SPACE <= 65535
  }

  /**
   Given what the store guarantees of records and names, every message of a transfer leaves
   room for its TSIG record, also where a single long record overruns the room; and no count
   overflows the header.
   */
  lemma {:induction false} MessagesFit(qid: int, question: Bytes, rrs: seq<Bytes>, room: int)
    requires IsU16(qid) && |question| <= 259 && room <= BUDGET_CAP - TSIG_SPACE
    requires forall i :: 0 <= i < |rrs| ==> 11 <= |rrs[i]| <= 64835
    ensures Countable(Pack(rrs, 12 + |question|, room)) && RoomToSign(qid, question, Pack(rrs, 12 + |question|, room))
  {
    var batches := Pack(rrs, 12 + |question|, room);
    PackCounts(rrs, 12 + |question|, room);
    PackIsSplit(rrs, 12 + |question|, room);
    forall i | 0 <= i < |batches| ensures |Wrap(qid, question, batches[i])| + TSIG_SPACE <= 65535 {
      var b := batches[i];
      assert b in batches;
      ConcatLength(b);
      if |b| == 1 {
        ConcatMember(batches, b, b[0]);
        assert b[1..] == [];
      } else if |b| == 0 {
        assert b == [];
      }
    }
  }
}
