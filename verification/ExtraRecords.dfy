/**
 Requests that carry more than the client of this repository sends: additional records of other
 types, such as OPT, in front of the TSIG record, behind it, or without one.
 */
module ExtraRecords {
  import opened Basics
  import opened Names
  import opened NameCodec
  import opened Wire
  import opened QueryParser
  import opened Client
  import opened Packing
  import opened RoundTrips
  import opened Responses

  /** Reading a section in two parts. */
  lemma {:induction false} ReadOn<A>(step: (nat, A) -> Result<(nat, A), WireFailure>, off: nat, n: nat, m: nat, found: A, p: nat, more: A)
    requires ReadRecords(step, off, n, found) == Ok((p, more))
    ensures ReadRecords(step, off, n + m, found) == ReadRecords(step, p, m, more)
    decreases n
  {
    if n > 0 {
      var record := step(off, found);
      ReadOn(step, record.value.0, n - 1, m, record.value.1, p, more);
    }
  }

  /** Wherever these octets stand, `n` records are passed over. */
  ghost predicate PassedBy<A(!new)>(step: Bytes -> (nat, A) -> Result<(nat, A), WireFailure>, run: Bytes, n: nat) {
    forall buf, off: nat, before: A {:trigger At(buf, off, run), ReadRecords(step(buf), off, n, before)} ::
      At(buf, off, run) ==> ReadRecords(step(buf), off, n, before) == Ok((off + |run|, before))
  }

  /** Where these octets start at `start`, one record is read, from which `found` is found. */
  ghost predicate Finds<A>(step: Bytes -> (nat, A) -> Result<(nat, A), WireFailure>, wire: Bytes, start: nat, none: A, found: A) {
    forall buf {:trigger At(buf, start, wire)} :: At(buf, start, wire) ==> step(buf)(start, none) == Ok((start + |wire|, found))
  }

  /** What one record between two runs of others says is found. */
  lemma {:induction false} FoundBetween<A(!new)>(step: Bytes -> (nat, A) -> Result<(nat, A), WireFailure>, buf: Bytes, off: nat,
                                                 front: Bytes, n: nat, wire: Bytes, none: A, found: A, back: Bytes, m: nat)
    requires At(buf, off, front + (wire + back))
    requires PassedBy(step, front, n) && Finds(step, wire, off + |front|, none, found) && PassedBy(step, back, m)
    ensures ReadRecords(step(buf), off, n + (1 + m), none) == Ok((off + |front + (wire + back)|, found))
  {
    var start, next := off + |front|, off + |front| + |wire|;
    AtConcat(buf, off, front, wire + back);
    AtConcat(buf, start, wire, back);
    assert ReadRecords(step(buf), off, n, none) == Ok((start, none));
    assert step(buf)(start, none) == Ok((next, found));
    ReadOn(step(buf), off, n, 1 + m, none, start, none);
    assert ReadRecords(step(buf), next, m, found) == Ok((next + |back|, found));
  }

  /** Wherever these octets stand, the parser passes over them. */
  ghost predicate Skipped(wire: Bytes) {
    forall buf, off: nat, before: Option<Tsig> {:trigger At(buf, off, wire), AdditionalRecord(buf, off, before)} ::
      At(buf, off, wire) ==> AdditionalRecord(buf, off, before) == Ok((off + |wire|, before))
  }

  /** Wherever these octets stand, they are the record `rr`, which is no TSIG record. */
  ghost predicate Carries(wire: Bytes, rr: Rr) {
    RrCarries(wire, rr.name, rr.rtype, rr.rclass, rr.ttl, rr.rdata) && rr.rtype != 250
  }

  /** The octets of one record of another type. */
  ghost predicate OtherRecord(wire: Bytes) {
    exists rr :: Carries(wire, rr)
  }

  /** Every record that can be printed and is no TSIG record is one. */
  lemma {:induction false} PrintedIsOther(rr: Rr)
    requires RrOk(rr) && rr.rtype != 250
    ensures OtherRecord(Printed(rr))
  {
    CanonicalDenotes(rr.name);
    AssembledCarries(Encoded(rr.name), rr.name, rr.rtype, rr.rclass, rr.ttl, rr.rdata);
    assert Carries(Printed(rr), rr);
  }

  lemma {:induction false} OtherTypesSkipped(wire: Bytes, rr: Rr)
    requires Carries(wire, rr)
    ensures Skipped(wire)
  {
    forall buf, off: nat, before: Option<Tsig> | At(buf, off, wire)
      ensures AdditionalRecord(buf, off, before) == Ok((off + |wire|, before))
    {
      HeadAndRdataAt(buf, off, wire, rr.name, rr.rtype, rr.rclass, rr.ttl, rr.rdata, Malformed);
    }
  }

  lemma {:induction false} OtherSkipped(wire: Bytes)
    requires OtherRecord(wire)
    ensures Skipped(wire)
  {
    var rr :| Carries(wire, rr);
    OtherTypesSkipped(wire, rr);
  }

  lemma {:induction false} SkippedAt(buf: Bytes, off: nat, wire: Bytes, before: Option<Tsig>)
    requires Skipped(wire) && At(buf, off, wire)
    ensures AdditionalRecord(buf, off, before) == Ok((off + |wire|, before))
  {
  }

  /** From `off` on, `step` moves from end to end and leaves what was found as it is. */
  ghost predicate PassesOver<A(!new)>(step: (nat, A) -> Result<(nat, A), WireFailure>, off: nat, ends: seq<nat>)
    decreases |ends|
  {
    ends == []
    || ((forall found :: step(off, found) == Ok((ends[0], found))) && PassesOver(step, ends[0], ends[1..]))
  }

  lemma {:induction false} PassedOver<A(!new)>(step: (nat, A) -> Result<(nat, A), WireFailure>, off: nat, ends: seq<nat>, found: A)
    requires PassesOver(step, off, ends)
    ensures ReadRecords(step, off, |ends|, found) == Ok((if ends == [] then off else ends[|ends| - 1], found))
    decreases |ends|
  {
    if ends != [] {
      assert step(off, found) == Ok((ends[0], found));
      PassedOver(step, ends[0], ends[1..], found);
    }
  }

  ghost predicate AllSkipped(wires: seq<Bytes>) {
    forall i :: 0 <= i < |wires| ==> Skipped(wires[i])
  }

  ghost predicate OtherRecords(wires: seq<Bytes>) {
    forall i :: 0 <= i < |wires| ==> OtherRecord(wires[i])
  }

  lemma {:induction false} StepsOver(buf: Bytes, off: nat, wires: seq<Bytes>)
    requires AllSkipped(wires) && At(buf, off, Concat(wires))
    ensures PassesOver(AdditionalStep(buf), off, Ends(off, wires))
    decreases |wires|
  {
    if wires != [] {
      var next := off + |wires[0]|;
      AtConcat(buf, off, wires[0], Concat(wires[1..]));
      forall before ensures AdditionalStep(buf)(off, before) == Ok((next, before)) {
        SkippedAt(buf, off, wires[0], before);
      }
      StepsOver(buf, next, wires[1..]);
      assert Ends(off, wires)[1..] == Ends(next, wires[1..]);
    }
  }

  lemma {:induction false} OthersSkipped(wires: seq<Bytes>)
    requires OtherRecords(wires)
    ensures AllSkipped(wires)
  {
    forall i | 0 <= i < |wires| ensures Skipped(wires[i]) {
      OtherSkipped(wires[i]);
    }
  }

  lemma {:induction false} WiresSkipped(buf: Bytes, off: nat, wires: seq<Bytes>, before: Option<Tsig>)
    requires AllSkipped(wires) && At(buf, off, Concat(wires))
    ensures ReadRecords(AdditionalStep(buf), off, |wires|, before) == Ok((off + |Concat(wires)|, before))
  {
    StepsOver(buf, off, wires);
    PassedOver(AdditionalStep(buf), off, Ends(off, wires), before);
  }

  /** A run of other records leaves what was found untouched. */
  lemma {:induction false} ConcatSkipped(wires: seq<Bytes>)
    requires OtherRecords(wires)
    ensures PassedBy(AdditionalStep, Concat(wires), |wires|)
  {
    OthersSkipped(wires);
    forall buf, off: nat, before: Option<Tsig> | At(buf, off, Concat(wires))
      ensures ReadRecords(AdditionalStep(buf), off, |wires|, before) == Ok((off + |Concat(wires)|, before))
    {
      WiresSkipped(buf, off, wires, before);
    }
  }

  /** Other records in front of a TSIG record and behind it. */
  lemma {:induction false} TsigBetween(front: Bytes, n: nat, wire: Bytes, back: Bytes, m: nat, tsig: Tsig)
    requires PassedBy(AdditionalStep, front, n) && ServerTsig(wire, tsig.name, tsig.data) && PassedBy(AdditionalStep, back, m)
    ensures AdditionalCarries(front + (wire + back), n + (1 + m), Some(tsig), |front|)
  {
    var tail := front + (wire + back);
    ServerTsigFound(wire, tsig);
    forall buf, off: nat | At(buf, off, tail) && tsig.offset == off + |front|
      ensures ReadRecords(AdditionalStep(buf), off, n + (1 + m), None) == Ok((off + |tail|, Some(tsig)))
    {
      FoundBetween(AdditionalStep, buf, off, front, n, wire, None, Some(tsig), back, m);
    }
  }

  lemma {:induction false} ServerTsigFound(wire: Bytes, tsig: Tsig)
    requires ServerTsig(wire, tsig.name, tsig.data)
    ensures Finds(AdditionalStep, wire, tsig.offset, None, Some(tsig))
  {
    forall buf | At(buf, tsig.offset, wire)
      ensures AdditionalStep(buf)(tsig.offset, None) == Ok((tsig.offset + |wire|, Some(tsig)))
    {
      TsigAt(buf, tsig.offset, tsig.offset + |wire|, wire, tsig.name, tsig.data);
    }
  }

  lemma {:induction false} NoneFound(run: Bytes, n: nat)
    requires PassedBy(AdditionalStep, run, n)
    ensures AdditionalCarries(run, n, None, 0)
  {
    forall buf, off: nat | At(buf, off, run)
      ensures ReadRecords(AdditionalStep(buf), off, n, None) == Ok((off + |run|, None))
    {
    }
  }

  /** The octets of a TSIG record with those of other records in front of it and behind. */
  ghost predicate TsigAmong(tail: Bytes, front: seq<Bytes>, wire: Bytes, back: seq<Bytes>, tsig: Tsig) {
    && OtherRecords(front) && ServerTsig(wire, tsig.name, tsig.data) && OtherRecords(back)
    && tail == Concat(front) + (wire + Concat(back))
  }

  lemma {:induction false} ExtrasCarry(tail: Bytes, front: seq<Bytes>, wire: Bytes, back: seq<Bytes>, tsig: Tsig)
    requires TsigAmong(tail, front, wire, back, tsig)
    ensures AdditionalCarries(tail, |front| + (1 + |back|), Some(tsig), |Concat(front)|)
  {
    ConcatSkipped(front);
    ConcatSkipped(back);
    TsigBetween(Concat(front), |front|, wire, Concat(back), |back|, tsig);
  }

  /** A section of `ar` additional records, one of them `tsig`, `skip` octets behind the start, and all others of other types. */
  ghost predicate TsigAndOthers(tail: Bytes, ar: nat, tsig: Tsig, skip: nat) {
    exists front: seq<Bytes>, wire: Bytes, back: seq<Bytes> ::
      TsigAmong(tail, front, wire, back, tsig) && ar == |front| + (1 + |back|) && skip == |Concat(front)|
  }

  lemma {:induction false} OthersCarry(tail: Bytes, ar: nat, tsig: Tsig, skip: nat)
    requires TsigAndOthers(tail, ar, tsig, skip)
    ensures AdditionalCarries(tail, ar, Some(tsig), skip)
  {
    var front: seq<Bytes>, wire: Bytes, back: seq<Bytes> :|
      TsigAmong(tail, front, wire, back, tsig) && ar == |front| + (1 + |back|) && skip == |Concat(front)|;
    ExtrasCarry(tail, front, wire, back, tsig);
  }

  /**
   Additional records of other types change nothing: whatever octets stand for the header, the
   question and the authority of a request, it reads as it would without them, with its TSIG
   record and the place where it starts, whether they stand in front of it or behind.
   */
  lemma {:induction false} ExtrasChangeNothing(buf: Bytes, header: Bytes, qid: int, flags: int, question: Bytes, qname: string, qtype: int,
                                               authority: Bytes, ns: nat, serial: Option<int>, tail: Bytes, ar: nat, tsig: Tsig, skip: nat)
    requires Consists(buf, header, question, authority, tail) && 0 <= flags < 0x8000
    requires HeaderCarries(header, qid, flags, 1, 0, ns, ar) && QuestionCarries(question, qname, qtype)
    requires AuthorityCarries(authority, ns, serial)
    requires TsigAndOthers(tail, ar, tsig, skip) && tsig.offset == 12 + |question| + |authority| + skip
    ensures Recovered(ParseQuery(buf), qid, flags, qname, qtype, CLASS_IN, question, Some(tsig), ar, buf, serial)
  {
    OthersCarry(tail, ar, tsig, skip);
    ParsesRequest(buf, header, qid, flags, question, qname, qtype, authority, ns, serial, tail, ar, Some(tsig), skip);
  }

  /** And without a TSIG record the request is an unsigned one, whatever else it carries. */
  lemma {:induction false} UnsignedWithExtras(buf: Bytes, header: Bytes, qid: int, flags: int, question: Bytes, qname: string, qtype: int,
                                              authority: Bytes, ns: nat, serial: Option<int>, extras: seq<Bytes>)
    requires Consists(buf, header, question, authority, Concat(extras)) && 0 <= flags < 0x8000
    requires HeaderCarries(header, qid, flags, 1, 0, ns, |extras|)
    requires QuestionCarries(question, qname, qtype) && AuthorityCarries(authority, ns, serial)
    requires OtherRecords(extras)
    ensures Recovered(ParseQuery(buf), qid, flags, qname, qtype, CLASS_IN, question, None, |extras|, buf, serial)
  {
    ConcatSkipped(extras);
    NoneFound(Concat(extras), |extras|);
    ParsesRequest(buf, header, qid, flags, question, qname, qtype, authority, ns, serial, Concat(extras), |extras|, None, 0);
  }
}
